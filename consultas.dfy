/**
  The repository's search queries: `BuscarPorCategoria`, `BuscarPorRentabilidadeMinima`,
  `BuscarPorRisco` and `BuscarComFiltros`. Each is a function of the table's
  current contents `t` (what `GetAll` returns, in store order).
 */
module Consultas {
  import opened Texto
  import opened Modelo
  import opened Ordenacao

  /** One `Where` predicate used by the queries. */
  datatype Criterio =
    | CategoriaContem(texto: string)      // p.Categoria.ToLower().Contains(texto.ToLower())
    | RiscoIgual(texto: string)           // p.NivelRisco.ToLower() == texto.ToLower()
    | RentabilidadeMinima(valor: real)    // p.RentabilidadeAnual >= valor

  predicate Atende(p: ProdutoInvestimento, c: Criterio) {
    match c
    case CategoriaContem(texto) => Contem(ToLower(p.categoria), ToLower(texto))
    case RiscoIgual(texto) => ToLower(p.nivelRisco) == ToLower(texto)
    case RentabilidadeMinima(valor) => p.rentabilidadeAnual >= valor
  }

  /** `Where(c)`: keeps, in their order, the rows satisfying `c`. */
  function Where(t: seq<ProdutoInvestimento>, c: Criterio): (r: seq<ProdutoInvestimento>)
    ensures |r| <= |t|
    ensures forall i :: 0 <= i < |r| ==> Atende(r[i], c)
  {
    if |t| == 0 then []
    else (if Atende(t[0], c) then [t[0]] else []) + Where(t[1..], c)
  }

  /** Each qualifying row keeps its multiplicity and no other row survives. */
  lemma {:induction false} WhereMultiset(t: seq<ProdutoInvestimento>, c: Criterio)
    ensures forall p :: multiset(Where(t, c))[p] == if Atende(p, c) then multiset(t)[p] else 0
  {
    if |t| > 0 {
      WhereMultiset(t[1..], c);
      assert t == [t[0]] + t[1..];
    }
  }

  /** `Where` is order-preserving: filtering a concatenation filters each part. */
  lemma {:induction false} WhereConcat(a: seq<ProdutoInvestimento>, b: seq<ProdutoInvestimento>, c: Criterio)
    ensures Where(a + b, c) == Where(a, c) + Where(b, c)
  {
    if |a| == 0 {
      assert a + b == b;
    } else {
      var primeiro := if Atende(a[0], c) then [a[0]] else [];
      assert (a + b)[0] == a[0];
      assert (a + b)[1..] == a[1..] + b;
      WhereConcat(a[1..], b, c);
      calc {
        Where(a + b, c);
        primeiro + Where(a[1..] + b, c);
        primeiro + (Where(a[1..], c) + Where(b, c));
        (primeiro + Where(a[1..], c)) + Where(b, c);
        Where(a, c) + Where(b, c);
      }
    }
  }

  /** Filtering twice by the same criterion is filtering once. */
  lemma {:induction false} WhereIdempotente(t: seq<ProdutoInvestimento>, c: Criterio)
    ensures Where(Where(t, c), c) == Where(t, c)
  {
    if |t| > 0 {
      WhereIdempotente(t[1..], c);
      WhereConcat(if Atende(t[0], c) then [t[0]] else [], Where(t[1..], c), c);
    }
  }

  /** A filter every row already passes changes nothing. */
  lemma {:induction false} WhereTodos(s: seq<ProdutoInvestimento>, c: Criterio)
    requires forall i :: 0 <= i < |s| ==> Atende(s[i], c)
    ensures Where(s, c) == s
  {
    if |s| > 0 {
      WhereTodos(s[1..], c);
      assert s == [s[0]] + s[1..];
    }
  }

  /** Successive `Where` calls commute, so the order of the conditional filters does not matter. */
  lemma {:induction false} WhereComuta(t: seq<ProdutoInvestimento>, c1: Criterio, c2: Criterio)
    ensures Where(Where(t, c1), c2) == Where(Where(t, c2), c1)
  {
    if |t| > 0 {
      WhereComuta(t[1..], c1, c2);
      WhereConcat(if Atende(t[0], c1) then [t[0]] else [], Where(t[1..], c1), c2);
      WhereConcat(if Atende(t[0], c2) then [t[0]] else [], Where(t[1..], c2), c1);
    }
  }

  /** `BuscarPorCategoria`: rows whose category contains `categoria`, ignoring case, in store order. */
  function BuscarPorCategoria(t: seq<ProdutoInvestimento>, categoria: string): seq<ProdutoInvestimento> {
    Where(t, CategoriaContem(categoria))
  }

  /** `BuscarPorRentabilidadeMinima`: rows with at least `rentabilidadeMinima`, highest yield first. */
  function BuscarPorRentabilidadeMinima(t: seq<ProdutoInvestimento>, rentabilidadeMinima: real): seq<ProdutoInvestimento> {
    OrderBy(RentabilidadeDesc, Where(t, RentabilidadeMinima(rentabilidadeMinima)))
  }

  /** `BuscarPorRisco`: rows whose risk level equals `nivelRisco`, ignoring case, by name. */
  function BuscarPorRisco(t: seq<ProdutoInvestimento>, nivelRisco: string): seq<ProdutoInvestimento> {
    OrderBy(PorNome, Where(t, RiscoIgual(nivelRisco)))
  }

  lemma BuscarPorCategoriaCorreto(t: seq<ProdutoInvestimento>, categoria: string)
    ensures forall p :: (multiset(BuscarPorCategoria(t, categoria))[p] ==
      if Contem(ToLower(p.categoria), ToLower(categoria)) then multiset(t)[p] else 0)
    ensures forall p :: p in BuscarPorCategoria(t, categoria) <==>
      p in t && Contem(ToLower(p.categoria), ToLower(categoria))
  {
    var r := BuscarPorCategoria(t, categoria);
    WhereMultiset(t, CategoriaContem(categoria));
    forall p ensures p in r <==> p in t && Contem(ToLower(p.categoria), ToLower(categoria)) {
      assert p in r <==> p in multiset(r);
      assert p in t <==> p in multiset(t);
    }
  }

  /** The text searched for is compared case-insensitively: its case does not matter. */
  lemma BuscarPorCategoriaIgnoraCaixa(t: seq<ProdutoInvestimento>, categoria: string)
    ensures BuscarPorCategoria(t, categoria) == BuscarPorCategoria(t, ToLower(categoria))
  {
    ToLowerIdempotente(categoria);
    WhereExtensional(t, CategoriaContem(categoria), CategoriaContem(ToLower(categoria)));
  }

  /** Two criteria that accept the same rows filter every table alike. */
  lemma {:induction false} WhereExtensional(t: seq<ProdutoInvestimento>, c1: Criterio, c2: Criterio)
    requires forall p :: Atende(p, c1) == Atende(p, c2)
    ensures Where(t, c1) == Where(t, c2)
  {
    if |t| > 0 { WhereExtensional(t[1..], c1, c2); }
  }

  /** `"".Contains` is true of every category, so an empty search returns the whole table. */
  lemma {:induction false} BuscarPorCategoriaVazia(t: seq<ProdutoInvestimento>)
    ensures BuscarPorCategoria(t, "") == t
  {
    if |t| > 0 {
      ContemVazio(ToLower(t[0].categoria));
      BuscarPorCategoriaVazia(t[1..]);
      assert t == [t[0]] + t[1..];
    }
  }

  lemma BuscarPorRentabilidadeMinimaCorreto(t: seq<ProdutoInvestimento>, rentabilidadeMinima: real)
    ensures forall p :: (multiset(BuscarPorRentabilidadeMinima(t, rentabilidadeMinima))[p] ==
      if p.rentabilidadeAnual >= rentabilidadeMinima then multiset(t)[p] else 0)
    ensures forall i, j :: 0 <= i < j < |BuscarPorRentabilidadeMinima(t, rentabilidadeMinima)| ==>
      BuscarPorRentabilidadeMinima(t, rentabilidadeMinima)[i].rentabilidadeAnual >=
      BuscarPorRentabilidadeMinima(t, rentabilidadeMinima)[j].rentabilidadeAnual
    ensures forall p :: p in BuscarPorRentabilidadeMinima(t, rentabilidadeMinima) <==>
      p in t && p.rentabilidadeAnual >= rentabilidadeMinima
  {
    var r := BuscarPorRentabilidadeMinima(t, rentabilidadeMinima);
    WhereMultiset(t, RentabilidadeMinima(rentabilidadeMinima));
    assert Ordenado(RentabilidadeDesc, r);
    forall p ensures p in r <==> p in t && p.rentabilidadeAnual >= rentabilidadeMinima {
      assert p in r <==> p in multiset(r);
      assert p in t <==> p in multiset(t);
    }
  }

  lemma BuscarPorRiscoCorreto(t: seq<ProdutoInvestimento>, nivelRisco: string)
    ensures forall p :: (multiset(BuscarPorRisco(t, nivelRisco))[p] ==
      if ToLower(p.nivelRisco) == ToLower(nivelRisco) then multiset(t)[p] else 0)
    ensures forall i, j :: 0 <= i < j < |BuscarPorRisco(t, nivelRisco)| ==>
      MenorOuIgual(BuscarPorRisco(t, nivelRisco)[i].nome, BuscarPorRisco(t, nivelRisco)[j].nome)
    ensures forall p :: p in BuscarPorRisco(t, nivelRisco) <==>
      p in t && ToLower(p.nivelRisco) == ToLower(nivelRisco)
  {
    var r := BuscarPorRisco(t, nivelRisco);
    WhereMultiset(t, RiscoIgual(nivelRisco));
    assert Ordenado(PorNome, r);
    forall p ensures p in r <==> p in t && ToLower(p.nivelRisco) == ToLower(nivelRisco) {
      assert p in r <==> p in multiset(r);
      assert p in t <==> p in multiset(t);
    }
  }

  /** `string.IsNullOrEmpty`. */
  predicate IsNullOrEmpty(s: Option<string>) {
    s.None? || |s.value| == 0
  }

  /**
    The sort key of `BuscarComFiltros`, chosen by `ordenarPor?.ToLower()`; a null or
    unrecognised value falls back to ordering by name.
   */
  function ChaveOrdenacao(ordenarPor: Option<string>): (k: Chave)
    ensures k != PorId
  {
    if ordenarPor.None? then PorNome
    else if ToLower(ordenarPor.value) == "rentabilidade" then RentabilidadeDesc
    else if ToLower(ordenarPor.value) == "categoria" then PorCategoria
    else if ToLower(ordenarPor.value) == "risco" then PorRisco
    else PorNome
  }

  /** The sort selector is case-insensitive. */
  lemma ChaveOrdenacaoIgnoraCaixa(ordenarPor: string)
    ensures ChaveOrdenacao(Some(ordenarPor)) == ChaveOrdenacao(Some(ToLower(ordenarPor)))
  {
    ToLowerIdempotente(ordenarPor);
  }

  /** The three conditional `Where` filters of `BuscarComFiltros`, each skipped when its argument is null or empty. */
  function Filtrar(t: seq<ProdutoInvestimento>, categoria: Option<string>, risco: Option<string>,
                   rentabilidadeMinima: Option<real>): seq<ProdutoInvestimento>
  {
    var q1 := if !IsNullOrEmpty(categoria) then Where(t, CategoriaContem(categoria.value)) else t;
    var q2 := if !IsNullOrEmpty(risco) then Where(q1, RiscoIgual(risco.value)) else q1;
    if rentabilidadeMinima.Some? then Where(q2, RentabilidadeMinima(rentabilidadeMinima.value)) else q2
  }

  /** `BuscarComFiltros`: the conditional filters, then the dynamic ordering. */
  function BuscarComFiltros(t: seq<ProdutoInvestimento>, categoria: Option<string>, risco: Option<string>,
                            rentabilidadeMinima: Option<real>, ordenarPor: Option<string>): seq<ProdutoInvestimento>
  {
    OrderBy(ChaveOrdenacao(ordenarPor), Filtrar(t, categoria, risco, rentabilidadeMinima))
  }

  /** The conjunction of every filter that was supplied; an absent filter constrains nothing. */
  predicate AtendeFiltros(p: ProdutoInvestimento, categoria: Option<string>, risco: Option<string>,
                          rentabilidadeMinima: Option<real>)
  {
    && (IsNullOrEmpty(categoria) || Contem(ToLower(p.categoria), ToLower(categoria.value)))
    && (IsNullOrEmpty(risco) || ToLower(p.nivelRisco) == ToLower(risco.value))
    && (rentabilidadeMinima.None? || p.rentabilidadeAnual >= rentabilidadeMinima.value)
  }

  /** The conditional filters keep exactly the rows that pass all of them, with their multiplicity. */
  lemma FiltrarMultiset(t: seq<ProdutoInvestimento>, categoria: Option<string>, risco: Option<string>,
                        rentabilidadeMinima: Option<real>)
    ensures forall p :: (multiset(Filtrar(t, categoria, risco, rentabilidadeMinima))[p] ==
      if AtendeFiltros(p, categoria, risco, rentabilidadeMinima) then multiset(t)[p] else 0)
  {
    var q1 := if !IsNullOrEmpty(categoria) then Where(t, CategoriaContem(categoria.value)) else t;
    var q2 := if !IsNullOrEmpty(risco) then Where(q1, RiscoIgual(risco.value)) else q1;
    if !IsNullOrEmpty(categoria) { WhereMultiset(t, CategoriaContem(categoria.value)); }
    if !IsNullOrEmpty(risco) { WhereMultiset(q1, RiscoIgual(risco.value)); }
    if rentabilidadeMinima.Some? { WhereMultiset(q2, RentabilidadeMinima(rentabilidadeMinima.value)); }
  }

  /** Applying the same conditional filters to their own result changes nothing. */
  lemma FiltrarIdempotente(t: seq<ProdutoInvestimento>, categoria: Option<string>, risco: Option<string>,
                           rentabilidadeMinima: Option<real>)
    ensures var s := Filtrar(t, categoria, risco, rentabilidadeMinima);
      Filtrar(s, categoria, risco, rentabilidadeMinima) == s
  {
    var s := Filtrar(t, categoria, risco, rentabilidadeMinima);
    FiltrarMultiset(t, categoria, risco, rentabilidadeMinima);
    forall i | 0 <= i < |s| ensures AtendeFiltros(s[i], categoria, risco, rentabilidadeMinima) {
      assert s[i] in multiset(s);
    }
    if !IsNullOrEmpty(categoria) { WhereTodos(s, CategoriaContem(categoria.value)); }
    if !IsNullOrEmpty(risco) { WhereTodos(s, RiscoIgual(risco.value)); }
    if rentabilidadeMinima.Some? { WhereTodos(s, RentabilidadeMinima(rentabilidadeMinima.value)); }
  }

  /**
    `BuscarComFiltros` returns exactly the rows that pass every supplied filter,
    each as many times as it is stored, ordered by the selected key.
   */
  lemma BuscarComFiltrosCorreto(t: seq<ProdutoInvestimento>, categoria: Option<string>, risco: Option<string>,
                                rentabilidadeMinima: Option<real>, ordenarPor: Option<string>)
    ensures forall p :: (multiset(BuscarComFiltros(t, categoria, risco, rentabilidadeMinima, ordenarPor))[p] ==
      if AtendeFiltros(p, categoria, risco, rentabilidadeMinima) then multiset(t)[p] else 0)
    ensures forall p :: p in BuscarComFiltros(t, categoria, risco, rentabilidadeMinima, ordenarPor) <==>
      p in t && AtendeFiltros(p, categoria, risco, rentabilidadeMinima)
    ensures Ordenado(ChaveOrdenacao(ordenarPor), BuscarComFiltros(t, categoria, risco, rentabilidadeMinima, ordenarPor))
  {
    var r := BuscarComFiltros(t, categoria, risco, rentabilidadeMinima, ordenarPor);
    FiltrarMultiset(t, categoria, risco, rentabilidadeMinima);
    forall p ensures p in r <==> p in t && AtendeFiltros(p, categoria, risco, rentabilidadeMinima) {
      assert p in r <==> p in multiset(r);
      assert p in t <==> p in multiset(t);
    }
  }

  /** With no filter supplied the whole table comes back, reordered. */
  lemma BuscarComFiltrosSemFiltros(t: seq<ProdutoInvestimento>, ordenarPor: Option<string>)
    ensures multiset(BuscarComFiltros(t, None, None, None, ordenarPor)) == multiset(t)
    ensures |BuscarComFiltros(t, None, None, None, ordenarPor)| == |t|
  {
    OrderByPermutacao(ChaveOrdenacao(ordenarPor), t);
  }

  /** Each named ordering sorts by its column; `"rentabilidade"` is highest first. */
  lemma BuscarComFiltrosOrdenacao(t: seq<ProdutoInvestimento>, categoria: Option<string>, risco: Option<string>,
                                  rentabilidadeMinima: Option<real>, ordenarPor: Option<string>)
    ensures var r := BuscarComFiltros(t, categoria, risco, rentabilidadeMinima, ordenarPor);
      && (ordenarPor.Some? && ToLower(ordenarPor.value) == "rentabilidade" ==>
            forall i, j :: 0 <= i < j < |r| ==> r[i].rentabilidadeAnual >= r[j].rentabilidadeAnual)
      && (ordenarPor.Some? && ToLower(ordenarPor.value) == "categoria" ==>
            forall i, j :: 0 <= i < j < |r| ==> MenorOuIgual(r[i].categoria, r[j].categoria))
      && (ordenarPor.Some? && ToLower(ordenarPor.value) == "risco" ==>
            forall i, j :: 0 <= i < j < |r| ==> MenorOuIgual(r[i].nivelRisco, r[j].nivelRisco))
      && (ordenarPor.None? || ToLower(ordenarPor.value) !in {"rentabilidade", "categoria", "risco"} ==>
            forall i, j :: 0 <= i < j < |r| ==> MenorOuIgual(r[i].nome, r[j].nome))
  {
  }
}
