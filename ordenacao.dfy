/**
  `OrderBy` / `OrderByDescending` over the product table: the keys the
  repository sorts by, the "may come before" relation of each key, and a sort
  that returns a permutation of its input ordered by that relation.
 */
module Ordenacao {
  import opened Texto
  import opened Modelo

  /** The sort keys used by the repository's queries. */
  datatype Chave =
    | RentabilidadeDesc   // OrderByDescending(p => p.RentabilidadeAnual)
    | PorCategoria        // OrderBy(p => p.Categoria)
    | PorRisco            // OrderBy(p => p.NivelRisco)
    | PorNome             // OrderBy(p => p.Nome)
    | PorId               // OrderBy(p => p.Id)

  /** `a` may be placed before `b` when ordering by `k`. */
  predicate Antes(k: Chave, a: ProdutoInvestimento, b: ProdutoInvestimento) {
    match k
    case RentabilidadeDesc => a.rentabilidadeAnual >= b.rentabilidadeAnual
    case PorCategoria => MenorOuIgual(a.categoria, b.categoria)
    case PorRisco => MenorOuIgual(a.nivelRisco, b.nivelRisco)
    case PorNome => MenorOuIgual(a.nome, b.nome)
    case PorId => a.id <= b.id
  }

  lemma AntesTotal(k: Chave, a: ProdutoInvestimento, b: ProdutoInvestimento)
    ensures Antes(k, a, b) || Antes(k, b, a)
  {
    match k
    case PorCategoria => MenorOuIgualTotal(a.categoria, b.categoria);
    case PorRisco => MenorOuIgualTotal(a.nivelRisco, b.nivelRisco);
    case PorNome => MenorOuIgualTotal(a.nome, b.nome);
    case _ =>
  }

  lemma AntesTransitivo(k: Chave, a: ProdutoInvestimento, b: ProdutoInvestimento, c: ProdutoInvestimento)
    requires Antes(k, a, b) && Antes(k, b, c)
    ensures Antes(k, a, c)
  {
    match k
    case PorCategoria => MenorOuIgualTransitivo(a.categoria, b.categoria, c.categoria);
    case PorRisco => MenorOuIgualTransitivo(a.nivelRisco, b.nivelRisco, c.nivelRisco);
    case PorNome => MenorOuIgualTransitivo(a.nome, b.nome, c.nome);
    case _ =>
  }

  /** Every earlier element may come before every later one. */
  predicate Ordenado(k: Chave, s: seq<ProdutoInvestimento>) {
    forall i, j :: 0 <= i < j < |s| ==> Antes(k, s[i], s[j])
  }

  /** Inserts `x` into the sorted `s`, before the first element it may precede. */
  function Inserir(k: Chave, x: ProdutoInvestimento, s: seq<ProdutoInvestimento>): (r: seq<ProdutoInvestimento>)
    requires Ordenado(k, s)
    ensures Ordenado(k, r)
    ensures multiset(r) == multiset(s) + multiset{x}
  {
    if |s| == 0 || Antes(k, x, s[0]) then
      assert forall j :: 0 <= j < |s| ==> Antes(k, x, s[j]) by {
        forall j | 0 <= j < |s| ensures Antes(k, x, s[j]) {
          if j > 0 { AntesTransitivo(k, x, s[0], s[j]); }
        }
      }
      [x] + s
    else
      AntesTotal(k, x, s[0]);
      var t := Inserir(k, x, s[1..]);
      assert s == [s[0]] + s[1..];
      assert forall j :: 0 <= j < |t| ==> Antes(k, s[0], t[j]) by {
        forall j | 0 <= j < |t| ensures Antes(k, s[0], t[j]) {
          assert t[j] in multiset(t);
          assert t[j] == x || t[j] in multiset(s[1..]);
          if t[j] != x {
            var m :| 0 <= m < |s[1..]| && s[1..][m] == t[j];
            assert s[m + 1] == t[j];
          }
        }
      }
      [s[0]] + t
  }

  /**
    `OrderBy(key)` / `OrderByDescending(key)`: the input, rearranged so that it
    is ordered by `k`.
   */
  function OrderBy(k: Chave, s: seq<ProdutoInvestimento>): (r: seq<ProdutoInvestimento>)
    ensures Ordenado(k, r)
    ensures multiset(r) == multiset(s)
  {
    if |s| == 0 then []
    else
      assert s == [s[0]] + s[1..];
      Inserir(k, s[0], OrderBy(k, s[1..]))
  }

  /** Reordering keeps the length and the set of elements. */
  lemma OrderByPermutacao(k: Chave, s: seq<ProdutoInvestimento>)
    ensures |OrderBy(k, s)| == |s|
    ensures forall p :: p in OrderBy(k, s) <==> p in s
  {
    var r := OrderBy(k, s);
    assert |r| == |multiset(r)| == |multiset(s)| == |s|;
    forall p ensures p in r <==> p in s {
      assert p in r <==> p in multiset(r);
      assert p in s <==> p in multiset(s);
    }
  }

  /**
    Sorting a table whose keys are unique by `PorId` gives strictly increasing
    keys, so the `Id` order is total and every page of it is well defined.
   */
  lemma OrderByIdEstrito(s: seq<ProdutoInvestimento>)
    requires IdsUnicos(s)
    ensures forall i, j :: 0 <= i < j < |OrderBy(PorId, s)| ==> OrderBy(PorId, s)[i].id < OrderBy(PorId, s)[j].id
  {
    var r := OrderBy(PorId, s);
    forall i, j | 0 <= i < j < |r| ensures r[i].id < r[j].id {
      assert r[i].id <= r[j].id;
      if r[i].id == r[j].id {
        PermutacaoPreservaIdsUnicos(s, r);
      }
    }
  }

  /** In a table with unique keys no row occurs twice. */
  lemma {:induction false} MultiplicidadeUnica(s: seq<ProdutoInvestimento>, p: ProdutoInvestimento)
    requires IdsUnicos(s)
    ensures multiset(s)[p] <= 1
  {
    if |s| > 0 {
      var resto := s[1..];
      assert s == [s[0]] + resto;
      assert IdsUnicos(resto) by {
        forall i, j | 0 <= i < j < |resto| ensures resto[i].id != resto[j].id {
          assert resto[i] == s[i + 1] && resto[j] == s[j + 1];
        }
      }
      if s[0] == p {
        assert p !in resto by {
          forall i | 0 <= i < |resto| ensures resto[i] != p { assert resto[i] == s[i + 1]; }
        }
      } else {
        MultiplicidadeUnica(resto, p);
      }
    }
  }

  /** A permutation of a table with unique keys has unique keys. */
  lemma PermutacaoPreservaIdsUnicos(s: seq<ProdutoInvestimento>, r: seq<ProdutoInvestimento>)
    requires IdsUnicos(s)
    requires multiset(r) == multiset(s)
    ensures IdsUnicos(r)
  {
    forall i, j | 0 <= i < j < |r| ensures r[i].id != r[j].id {
      if r[i].id == r[j].id {
        assert r[i] in multiset(s) && r[j] in multiset(s);
        var a :| 0 <= a < |s| && s[a] == r[i];
        var b :| 0 <= b < |s| && s[b] == r[j];
        assert a == b;
        assert r == r[..j] + r[j..];
        assert r[i] in r[..j] && r[j] in r[j..];
        assert multiset(r)[r[i]] == multiset(r[..j])[r[i]] + multiset(r[j..])[r[i]];
        MultiplicidadeUnica(s, r[i]);
        assert false;
      }
    }
  }
}
