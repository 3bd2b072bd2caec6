/**
  `ObterEstatisticas`: count, average, maximum and minimum of the annual yield
  over the whole table, and the number of products per category
  (`GroupBy(p => p.Categoria)` followed by `Count()`).
 */
module Estatisticas {
  import opened Modelo

  /** One entry of `ProdutosPorCategoria`. */
  datatype GrupoCategoria = GrupoCategoria(categoria: string, quantidade: nat)

  /** The anonymous object `ObterEstatisticas` returns. */
  datatype Estatisticas = Estatisticas(
    totalProdutos: nat,
    rentabilidadeMedia: real,
    maiorRentabilidade: real,
    menorRentabilidade: real,
    produtosPorCategoria: seq<GrupoCategoria>)

  /** Sum of the yields (the numerator of `Average`). */
  function Soma(t: seq<ProdutoInvestimento>): real {
    if |t| == 0 then 0.0 else t[0].rentabilidadeAnual + Soma(t[1..])
  }

  /** `Max(p => p.RentabilidadeAnual)`: an upper bound attained by some row. */
  function Maior(t: seq<ProdutoInvestimento>): (m: real)
    requires |t| > 0
    ensures forall i :: 0 <= i < |t| ==> t[i].rentabilidadeAnual <= m
    ensures exists i :: 0 <= i < |t| && t[i].rentabilidadeAnual == m
  {
    if |t| == 1 then t[0].rentabilidadeAnual
    else
      var resto := Maior(t[1..]);
      assert forall i :: 1 <= i < |t| ==> t[i] == t[1..][i - 1];
      if t[0].rentabilidadeAnual >= resto then t[0].rentabilidadeAnual else resto
  }

  /** `Min(p => p.RentabilidadeAnual)`: a lower bound attained by some row. */
  function Menor(t: seq<ProdutoInvestimento>): (m: real)
    requires |t| > 0
    ensures forall i :: 0 <= i < |t| ==> m <= t[i].rentabilidadeAnual
    ensures exists i :: 0 <= i < |t| && t[i].rentabilidadeAnual == m
  {
    if |t| == 1 then t[0].rentabilidadeAnual
    else
      var resto := Menor(t[1..]);
      assert forall i :: 1 <= i < |t| ==> t[i] == t[1..][i - 1];
      if t[0].rentabilidadeAnual <= resto then t[0].rentabilidadeAnual else resto
  }

  /** `n * x`, written as repeated addition so that bounds on sums stay linear. */
  function Vezes(n: nat, x: real): real {
    if n == 0 then 0.0 else x + Vezes(n - 1, x)
  }

  lemma {:induction false} VezesProduto(n: nat, x: real)
    ensures Vezes(n, x) == n as real * x
  {
    if n > 0 { VezesProduto(n - 1, x); }
  }

  /** A bound on every yield bounds the sum by `|t|` times it. */
  lemma {:induction false} SomaLimitada(t: seq<ProdutoInvestimento>, inf: real, sup: real)
    requires forall i :: 0 <= i < |t| ==> inf <= t[i].rentabilidadeAnual <= sup
    ensures Vezes(|t|, inf) <= Soma(t) <= Vezes(|t|, sup)
  {
    if |t| > 0 {
      assert forall i :: 0 <= i < |t[1..]| ==> t[1..][i] == t[i + 1];
      SomaLimitada(t[1..], inf, sup);
    }
  }

  /** `Average(p => p.RentabilidadeAnual)`, computed exactly. */
  function Media(t: seq<ProdutoInvestimento>): real
    requires |t| > 0
  {
    Soma(t) / (|t| as real)
  }

  /** The average times the count gives back the sum. */
  lemma MediaVezesTotal(t: seq<ProdutoInvestimento>)
    requires |t| > 0
    ensures Media(t) * (|t| as real) == Soma(t)
  {
    DivisaoExata(Soma(t), |t|);
  }

  lemma DivisaoExata(x: real, n: nat)
    requires n > 0
    ensures x / (n as real) * (n as real) == x
  {
  }

  /** The average lies between the minimum and the maximum. */
  lemma MediaLimitada(t: seq<ProdutoInvestimento>)
    requires |t| > 0
    ensures Menor(t) <= Media(t) <= Maior(t)
  {
    var inf, sup, soma, n := Menor(t), Maior(t), Soma(t), |t|;
    SomaLimitada(t, inf, sup);
    MediaEntre(soma, n, inf, sup);
    assert Media(t) == soma / (n as real);
  }

  /** Dividing a sum bounded by `n * inf` and `n * sup` by `n` gives a value between `inf` and `sup`. */
  lemma MediaEntre(soma: real, n: nat, inf: real, sup: real)
    requires n > 0 && Vezes(n, inf) <= soma <= Vezes(n, sup)
    ensures inf <= soma / (n as real) <= sup
  {
    VezesProduto(n, inf);
    VezesProduto(n, sup);
    var q, m := soma / (n as real), n as real;
    DivisaoExata(soma, n);
    assert q * m == soma;
    if q < inf { ProdutoMonotono(q, inf, m); }
    if sup < q { ProdutoMonotono(sup, q, m); }
  }

  lemma ProdutoMonotono(a: real, b: real, m: real)
    requires a < b && m > 0.0
    ensures a * m < b * m
  {
  }

  /** The number of rows whose category is exactly `c` (no case folding). */
  function Contar(t: seq<ProdutoInvestimento>, c: string): nat {
    if |t| == 0 then 0
    else Contar(t[..|t| - 1], c) + (if t[|t| - 1].categoria == c then 1 else 0)
  }

  /** No two groups have the same key. */
  predicate ChavesDistintas(g: seq<GrupoCategoria>) {
    forall i, j :: 0 <= i < j < |g| ==> g[i].categoria != g[j].categoria
  }

  /** Total count recorded for key `c`. */
  function QuantidadeDe(g: seq<GrupoCategoria>, c: string): nat {
    if |g| == 0 then 0
    else (if g[0].categoria == c then g[0].quantidade else 0) + QuantidadeDe(g[1..], c)
  }

  function SomaQuantidades(g: seq<GrupoCategoria>): nat {
    if |g| == 0 then 0 else g[0].quantidade + SomaQuantidades(g[1..])
  }

  /** Records one more row with category `c`: bumps its group, or opens a new one at the end. */
  function Incrementar(g: seq<GrupoCategoria>, c: string): seq<GrupoCategoria> {
    if |g| == 0 then [GrupoCategoria(c, 1)]
    else if g[0].categoria == c then [GrupoCategoria(c, g[0].quantidade + 1)] + g[1..]
    else [g[0]] + Incrementar(g[1..], c)
  }

  /** The keys of a list of groups. */
  function Chaves(g: seq<GrupoCategoria>): set<string> {
    set i | 0 <= i < |g| :: g[i].categoria
  }

  /** The categories occurring in a table. */
  function Categorias(t: seq<ProdutoInvestimento>): set<string> {
    set i | 0 <= i < |t| :: t[i].categoria
  }

  lemma {:induction false} IncrementarChaves(g: seq<GrupoCategoria>, c: string)
    ensures Chaves(Incrementar(g, c)) == Chaves(g) + {c}
  {
    var r := Incrementar(g, c);
    if |g| == 0 {
      assert r[0].categoria == c;
    } else if g[0].categoria == c {
      assert forall i :: 0 <= i < |r| ==> r[i].categoria == g[i].categoria;
      assert Chaves(r) == Chaves(g);
    } else {
      IncrementarChaves(g[1..], c);
      var ri := Incrementar(g[1..], c);
      assert r == [g[0]] + ri;
      assert Chaves(r) == {g[0].categoria} + Chaves(ri) by {
        forall k | k in Chaves(r) ensures k in {g[0].categoria} + Chaves(ri) {
          var i :| 0 <= i < |r| && r[i].categoria == k;
          if i > 0 { assert ri[i - 1].categoria == k; }
        }
        forall k | k in Chaves(ri) ensures k in Chaves(r) {
          var i :| 0 <= i < |ri| && ri[i].categoria == k;
          assert r[i + 1].categoria == k;
        }
        assert r[0].categoria == g[0].categoria;
      }
      assert Chaves(g) == {g[0].categoria} + Chaves(g[1..]) by {
        forall k | k in Chaves(g) ensures k in {g[0].categoria} + Chaves(g[1..]) {
          var i :| 0 <= i < |g| && g[i].categoria == k;
          if i > 0 { assert g[1..][i - 1].categoria == k; }
        }
        forall k | k in Chaves(g[1..]) ensures k in Chaves(g) {
          var i :| 0 <= i < |g[1..]| && g[1..][i].categoria == k;
          assert g[i + 1].categoria == k;
        }
      }
    }
  }

  lemma {:induction false} IncrementarDistintas(g: seq<GrupoCategoria>, c: string)
    requires ChavesDistintas(g)
    ensures ChavesDistintas(Incrementar(g, c))
  {
    var r := Incrementar(g, c);
    if |g| == 0 {
    } else if g[0].categoria == c {
      assert forall i :: 0 <= i < |r| ==> r[i].categoria == g[i].categoria;
    } else {
      var resto := g[1..];
      assert ChavesDistintas(resto) by {
        forall i, j | 0 <= i < j < |resto| ensures resto[i].categoria != resto[j].categoria {
          assert resto[i] == g[i + 1] && resto[j] == g[j + 1];
        }
      }
      IncrementarDistintas(resto, c);
      IncrementarChaves(resto, c);
      var ri := Incrementar(resto, c);
      assert r == [g[0]] + ri;
      assert g[0].categoria !in Chaves(resto) by {
        forall j | 0 <= j < |resto| ensures resto[j].categoria != g[0].categoria {
          assert resto[j] == g[j + 1];
        }
      }
      forall i, j | 0 <= i < j < |r| ensures r[i].categoria != r[j].categoria {
        assert r[j] == ri[j - 1];
        assert ri[j - 1].categoria in Chaves(ri);
        if i > 0 { assert r[i] == ri[i - 1]; }
      }
    }
  }

  lemma {:induction false} IncrementarQuantidade(g: seq<GrupoCategoria>, c: string, k: string)
    ensures QuantidadeDe(Incrementar(g, c), k) == QuantidadeDe(g, k) + (if k == c then 1 else 0)
  {
    if |g| > 0 && g[0].categoria != c {
      IncrementarQuantidade(g[1..], c, k);
      assert Incrementar(g, c)[1..] == Incrementar(g[1..], c);
    } else if |g| > 0 {
      assert Incrementar(g, c)[1..] == g[1..];
    }
  }

  lemma {:induction false} IncrementarSoma(g: seq<GrupoCategoria>, c: string)
    ensures SomaQuantidades(Incrementar(g, c)) == SomaQuantidades(g) + 1
  {
    if |g| > 0 && g[0].categoria != c {
      IncrementarSoma(g[1..], c);
      assert Incrementar(g, c)[1..] == Incrementar(g[1..], c);
    } else if |g| > 0 {
      assert Incrementar(g, c)[1..] == g[1..];
    }
  }

  lemma {:induction false} IncrementarPositivas(g: seq<GrupoCategoria>, c: string)
    requires forall i :: 0 <= i < |g| ==> g[i].quantidade >= 1
    ensures forall i :: 0 <= i < |Incrementar(g, c)| ==> Incrementar(g, c)[i].quantidade >= 1
  {
    if |g| > 0 && g[0].categoria != c {
      assert forall i :: 0 <= i < |g[1..]| ==> g[1..][i] == g[i + 1];
      IncrementarPositivas(g[1..], c);
      var r, ri := Incrementar(g, c), Incrementar(g[1..], c);
      assert forall i :: 0 < i < |r| ==> r[i] == ri[i - 1];
    } else if |g| > 0 {
      var r := Incrementar(g, c);
      assert forall i :: 0 < i < |r| ==> r[i] == g[i];
    }
  }

  /**
    `GroupBy(p => p.Categoria).Select(g => new { g.Key, g.Count() })`: folds the
    rows in store order, so groups appear in the order their key first occurs.
   */
  function AgruparPorCategoria(t: seq<ProdutoInvestimento>): seq<GrupoCategoria> {
    if |t| == 0 then []
    else Incrementar(AgruparPorCategoria(t[..|t| - 1]), t[|t| - 1].categoria)
  }

  lemma {:induction false} AgruparPorCategoriaCorreto(t: seq<ProdutoInvestimento>)
    ensures ChavesDistintas(AgruparPorCategoria(t))
    ensures forall i :: 0 <= i < |AgruparPorCategoria(t)| ==> AgruparPorCategoria(t)[i].quantidade >= 1
    ensures forall k :: QuantidadeDe(AgruparPorCategoria(t), k) == Contar(t, k)
    ensures SomaQuantidades(AgruparPorCategoria(t)) == |t|
    ensures Chaves(AgruparPorCategoria(t)) == Categorias(t)
  {
    if |t| > 0 {
      var anterior, c := t[..|t| - 1], t[|t| - 1].categoria;
      AgruparPorCategoriaCorreto(anterior);
      var g0 := AgruparPorCategoria(anterior);
      IncrementarDistintas(g0, c);
      IncrementarPositivas(g0, c);
      IncrementarSoma(g0, c);
      IncrementarChaves(g0, c);
      forall k ensures QuantidadeDe(AgruparPorCategoria(t), k) == Contar(t, k) {
        IncrementarQuantidade(g0, c, k);
      }
      assert Categorias(t) == Categorias(anterior) + {c} by {
        forall k | k in Categorias(t) ensures k in Categorias(anterior) + {c} {
          var i :| 0 <= i < |t| && t[i].categoria == k;
          if i < |t| - 1 { assert anterior[i].categoria == k; }
        }
        forall k | k in Categorias(anterior) ensures k in Categorias(t) {
          var i :| 0 <= i < |anterior| && anterior[i].categoria == k;
          assert t[i].categoria == k;
        }
      }
    }
  }

  /** With distinct keys, the count recorded for a group's key is that group's count. */
  lemma {:induction false} QuantidadeDaChave(g: seq<GrupoCategoria>, i: nat)
    requires ChavesDistintas(g) && i < |g|
    ensures QuantidadeDe(g, g[i].categoria) == g[i].quantidade
  {
    var resto := g[1..];
    assert ChavesDistintas(resto) by {
      forall a, b | 0 <= a < b < |resto| ensures resto[a].categoria != resto[b].categoria {
        assert resto[a] == g[a + 1] && resto[b] == g[b + 1];
      }
    }
    if i == 0 {
      QuantidadeAusente(resto, g[0].categoria);
    } else {
      assert resto[i - 1] == g[i];
      QuantidadeDaChave(resto, i - 1);
    }
  }

  lemma {:induction false} QuantidadeAusente(g: seq<GrupoCategoria>, c: string)
    requires forall i :: 0 <= i < |g| ==> g[i].categoria != c
    ensures QuantidadeDe(g, c) == 0
  {
    if |g| > 0 {
      assert forall i :: 0 <= i < |g[1..]| ==> g[1..][i] == g[i + 1];
      QuantidadeAusente(g[1..], c);
    }
  }

  /** `ObterEstatisticas`: the statistics of the whole table; all three yield figures are 0 when it is empty. */
  function ObterEstatisticas(t: seq<ProdutoInvestimento>): Estatisticas {
    if |t| == 0 then Estatisticas(0, 0.0, 0.0, 0.0, AgruparPorCategoria(t))
    else Estatisticas(|t|, Media(t), Maior(t), Menor(t), AgruparPorCategoria(t))
  }

  /**
    The scalar figures: `TotalProdutos` is the row count; on an empty table the
    three yield figures are 0; otherwise minimum <= average <= maximum, both
    extremes are attained, and the average times the count is the sum.
   */
  lemma ObterEstatisticasValores(t: seq<ProdutoInvestimento>)
    ensures var e := ObterEstatisticas(t);
      && e.totalProdutos == |t|
      && (|t| == 0 ==> e.rentabilidadeMedia == 0.0 && e.maiorRentabilidade == 0.0 && e.menorRentabilidade == 0.0)
      && (|t| > 0 ==> e.menorRentabilidade <= e.rentabilidadeMedia <= e.maiorRentabilidade)
      && (forall i :: 0 <= i < |t| ==> e.menorRentabilidade <= t[i].rentabilidadeAnual <= e.maiorRentabilidade)
      && (|t| > 0 ==> exists i :: 0 <= i < |t| && t[i].rentabilidadeAnual == e.maiorRentabilidade)
      && (|t| > 0 ==> exists i :: 0 <= i < |t| && t[i].rentabilidadeAnual == e.menorRentabilidade)
      && (|t| > 0 ==> e.rentabilidadeMedia == Media(t))
  {
    if |t| > 0 {
      MediaLimitada(t);
    }
  }

  /**
    `ProdutosPorCategoria`: one entry per distinct category (compared exactly),
    each holding the number of rows with that category, the counts adding up to
    `TotalProdutos`.
   */
  lemma ObterEstatisticasGrupos(t: seq<ProdutoInvestimento>)
    ensures var g := ObterEstatisticas(t).produtosPorCategoria;
      && ChavesDistintas(g)
      && (forall i :: 0 <= i < |g| ==> g[i].quantidade == Contar(t, g[i].categoria) >= 1)
      && Chaves(g) == Categorias(t)
      && SomaQuantidades(g) == ObterEstatisticas(t).totalProdutos
  {
    var g := ObterEstatisticas(t).produtosPorCategoria;
    AgruparPorCategoriaCorreto(t);
    forall i | 0 <= i < |g| ensures g[i].quantidade == Contar(t, g[i].categoria) {
      QuantidadeDaChave(g, i);
    }
  }
}
