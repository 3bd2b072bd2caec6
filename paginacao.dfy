/**
  `ObterProdutosPaginados`: the rows in `Id` order, windowed with
  `Skip((pagina - 1) * itensPorPagina).Take(itensPorPagina)`, with the page
  metadata.
 */
module Paginacao {
  import opened Modelo
  import opened Ordenacao

  /** The anonymous object `ObterProdutosPaginados` returns. */
  datatype PaginaResultado = PaginaResultado(
    pagina: int,
    itensPorPagina: int,
    totalItens: nat,
    totalPaginas: int,
    produtos: seq<ProdutoInvestimento>)

  /**
    `(int)Math.Ceiling(total / (double)itensPorPagina)`. The `double` quotient
    of two `int`s is never rounded across an integer, so this is the exact
    ceiling of `total / itensPorPagina`: for a positive page size, the least
    number of pages that holds `total` rows; for a negative one, a number that
    is zero or negative.
   */
  function TotalPaginas(total: nat, itensPorPagina: int): (r: int)
    requires itensPorPagina != 0
    ensures itensPorPagina > 0 ==> r >= 0 && total <= r * itensPorPagina < total + itensPorPagina
    ensures itensPorPagina < 0 ==> r <= 0 && r * itensPorPagina <= total < r * itensPorPagina - itensPorPagina
  {
    if itensPorPagina > 0 then
      var r := (total + itensPorPagina - 1) / itensPorPagina;
      assert r * itensPorPagina <= total + itensPorPagina - 1 < (r + 1) * itensPorPagina;
      r
    else
      var q := total / -itensPorPagina;
      assert q * -itensPorPagina <= total < (q + 1) * -itensPorPagina;
      -q
  }

  function Min(a: int, b: int): int {
    if a <= b then a else b
  }

  function Max(a: int, b: int): int {
    if a >= b then a else b
  }

  /**
    `Skip(inicio).Take(n)` on a list: a non-positive `inicio` skips nothing, a
    non-positive `n` takes nothing, and both are clamped to the length.
   */
  function SkipTake(o: seq<ProdutoInvestimento>, inicio: int, n: int): (r: seq<ProdutoInvestimento>)
    ensures |r| == if n <= 0 || Max(inicio, 0) >= |o| then 0 else Min(n, |o| - Max(inicio, 0))
    ensures forall i :: 0 <= i < |r| ==> r[i] == o[Max(inicio, 0) + i]
  {
    var s := Min(Max(inicio, 0), |o|);
    o[s..Max(s, Min(s + n, |o|))]
  }

  /**
    `a * b` on naturals by repeated addition; `MultiplicarCorreto` shows it is
    the product. The proofs about consecutive pages use it so that they reason
    one page (one addition) at a time.
   */
  function Multiplicar(a: nat, b: nat): nat {
    if a == 0 then 0 else Multiplicar(a - 1, b) + b
  }

  lemma {:induction false} MultiplicarCorreto(a: nat, b: nat)
    ensures Multiplicar(a, b) == a * b
  {
    if a > 0 {
      MultiplicarCorreto(a - 1, b);
      Distributiva(a, b);
    }
  }

  /** The rows skipped before page `pagina`: `(pagina - 1) * itensPorPagina`. */
  function Deslocamento(pagina: int, itensPorPagina: int): int {
    if pagina >= 1 && itensPorPagina >= 0 then Multiplicar(pagina - 1, itensPorPagina)
    else (pagina - 1) * itensPorPagina
  }

  lemma DeslocamentoCorreto(pagina: int, itensPorPagina: int)
    ensures Deslocamento(pagina, itensPorPagina) == (pagina - 1) * itensPorPagina
  {
    if pagina >= 1 && itensPorPagina >= 0 {
      MultiplicarCorreto(pagina - 1, itensPorPagina);
    }
  }

  /** The rows of page `pagina`: `OrderBy(p => p.Id).Skip((pagina - 1) * itensPorPagina).Take(itensPorPagina)`. */
  function Janela(t: seq<ProdutoInvestimento>, pagina: int, itensPorPagina: int): seq<ProdutoInvestimento> {
    SkipTake(OrderBy(PorId, t), Deslocamento(pagina, itensPorPagina), itensPorPagina)
  }

  /** `ObterProdutosPaginados`; a page size of zero is excluded (see `TotalPaginas`). */
  function ObterProdutosPaginados(t: seq<ProdutoInvestimento>, pagina: int, itensPorPagina: int): PaginaResultado
    requires itensPorPagina != 0
  {
    PaginaResultado(pagina, itensPorPagina, |t|, TotalPaginas(|t|, itensPorPagina), Janela(t, pagina, itensPorPagina))
  }

  /**
    The page holds the rows at positions `(pagina - 1) * n` up to
    `pagina * n - 1` of the `Id` order (from position 0 when that offset is
    negative), as many of them as exist; a negative page size gives no rows.
    The metadata echoes the arguments and gives the row count.
   */
  lemma ObterProdutosPaginadosCorreto(t: seq<ProdutoInvestimento>, pagina: int, itensPorPagina: int)
    requires itensPorPagina != 0
    ensures |OrderBy(PorId, t)| == |t|
    ensures var r := ObterProdutosPaginados(t, pagina, itensPorPagina);
      var inicio := Max((pagina - 1) * itensPorPagina, 0);
      && r.pagina == pagina && r.itensPorPagina == itensPorPagina
      && r.totalItens == |t| && r.totalPaginas == TotalPaginas(|t|, itensPorPagina)
      && |r.produtos| == (if itensPorPagina < 0 || inicio >= |t| then 0 else Min(itensPorPagina, |t| - inicio))
      && (forall i :: 0 <= i < |r.produtos| ==> r.produtos[i] == OrderBy(PorId, t)[inicio + i])
  {
    OrderByPermutacao(PorId, t);
    DeslocamentoCorreto(pagina, itensPorPagina);
    assert ObterProdutosPaginados(t, pagina, itensPorPagina).produtos
        == SkipTake(OrderBy(PorId, t), (pagina - 1) * itensPorPagina, itensPorPagina);
  }

  /** Each page is in `Id` order. */
  lemma PaginaOrdenada(t: seq<ProdutoInvestimento>, pagina: int, itensPorPagina: int)
    requires itensPorPagina != 0
    ensures Ordenado(PorId, ObterProdutosPaginados(t, pagina, itensPorPagina).produtos)
  {
    FatiaOrdenada(OrderBy(PorId, t), Deslocamento(pagina, itensPorPagina), itensPorPagina);
  }

  lemma FatiaOrdenada(o: seq<ProdutoInvestimento>, inicio: int, n: int)
    requires Ordenado(PorId, o)
    ensures Ordenado(PorId, SkipTake(o, inicio, n))
  {
    var r := SkipTake(o, inicio, n);
    var s := Max(inicio, 0);
    forall i, j | 0 <= i < j < |r| ensures Antes(PorId, r[i], r[j]) {
      assert r[i] == o[s + i] && r[j] == o[s + j];
    }
  }

  /** A page number below 1 skips nothing, so it returns the rows of page 1. */
  lemma PaginaNaoPositiva(t: seq<ProdutoInvestimento>, pagina: int, itensPorPagina: int)
    requires pagina < 1 && itensPorPagina >= 1
    ensures ObterProdutosPaginados(t, pagina, itensPorPagina).produtos == ObterProdutosPaginados(t, 1, itensPorPagina).produtos
  {
    DeslocamentoCorreto(pagina, itensPorPagina);
    ProdutoNaoPositivo(pagina - 1, itensPorPagina);
  }

  lemma ProdutoNaoPositivo(a: int, n: int)
    requires a <= 0 && n >= 0
    ensures a * n <= 0
  {
  }

  /** A negative page size returns no rows and a page count of zero or less. */
  lemma ItensNegativos(t: seq<ProdutoInvestimento>, pagina: int, itensPorPagina: int)
    requires itensPorPagina < 0
    ensures ObterProdutosPaginados(t, pagina, itensPorPagina).produtos == []
    ensures ObterProdutosPaginados(t, pagina, itensPorPagina).totalPaginas <= 0
  {
  }

  /** A page past the last one is empty but still reports the true totals. */
  lemma PaginaAlemDoFim(t: seq<ProdutoInvestimento>, pagina: int, itensPorPagina: int)
    requires itensPorPagina >= 1
    requires pagina > TotalPaginas(|t|, itensPorPagina)
    ensures ObterProdutosPaginados(t, pagina, itensPorPagina).produtos == []
    ensures ObterProdutosPaginados(t, pagina, itensPorPagina).totalItens == |t|
  {
    var k := TotalPaginas(|t|, itensPorPagina);
    OrderByPermutacao(PorId, t);
    DeslocamentoCorreto(pagina, itensPorPagina);
    MultiplicacaoMonotona(k, pagina - 1, itensPorPagina);
  }

  /** Every page before the last one is full. */
  lemma PaginaCheia(t: seq<ProdutoInvestimento>, pagina: int, itensPorPagina: int)
    requires itensPorPagina >= 1
    requires 1 <= pagina < TotalPaginas(|t|, itensPorPagina)
    ensures |ObterProdutosPaginados(t, pagina, itensPorPagina).produtos| == itensPorPagina
  {
    var k := TotalPaginas(|t|, itensPorPagina);
    OrderByPermutacao(PorId, t);
    DeslocamentoCorreto(pagina, itensPorPagina);
    MultiplicacaoMonotona(pagina, k - 1, itensPorPagina);
    Distributiva(pagina, itensPorPagina);
    Distributiva(k, itensPorPagina);
  }

  lemma Distributiva(a: int, n: int)
    ensures (a - 1) * n == a * n - n
  {
  }

  lemma MultiplicacaoMonotona(a: int, b: int, n: int)
    requires 0 <= a <= b && n >= 0
    ensures a * n <= b * n
  {
  }

  /** The rows of pages 1 to `k` concatenated (each is `ObterProdutosPaginados(t, page, itensPorPagina).produtos`). */
  function Paginas(t: seq<ProdutoInvestimento>, itensPorPagina: int, k: nat): seq<ProdutoInvestimento> {
    if k == 0 then [] else Paginas(t, itensPorPagina, k - 1) + Janela(t, k, itensPorPagina)
  }

  /** Pages 1 to `k` are exactly the first `k * itensPorPagina` rows of the `Id` order (or all of them). */
  lemma PaginasPrefixo(t: seq<ProdutoInvestimento>, itensPorPagina: int, k: nat)
    requires itensPorPagina >= 1
    ensures |OrderBy(PorId, t)| == |t|
    ensures Paginas(t, itensPorPagina, k) == OrderBy(PorId, t)[..Min(k * itensPorPagina, |t|)]
  {
    OrderByPermutacao(PorId, t);
    PaginasPrefixoPasso(t, itensPorPagina, k);
    MultiplicarCorreto(k, itensPorPagina);
  }

  lemma {:induction false} PaginasPrefixoPasso(t: seq<ProdutoInvestimento>, itensPorPagina: int, k: nat)
    requires itensPorPagina >= 1
    requires |OrderBy(PorId, t)| == |t|
    ensures Paginas(t, itensPorPagina, k) == OrderBy(PorId, t)[..Min(Multiplicar(k, itensPorPagina), |t|)]
  {
    if k > 0 {
      var o := OrderBy(PorId, t);
      var inicio := Multiplicar(k - 1, itensPorPagina);
      PaginasPrefixoPasso(t, itensPorPagina, k - 1);
      assert Deslocamento(k, itensPorPagina) == inicio;
      assert Multiplicar(k, itensPorPagina) == inicio + itensPorPagina;
      assert Paginas(t, itensPorPagina, k) == o[..Min(inicio, |o|)] + SkipTake(o, inicio, itensPorPagina);
      JanelasConsecutivas(o, inicio, itensPorPagina);
    }
  }

  /** The window after a prefix extends that prefix. */
  lemma JanelasConsecutivas(o: seq<ProdutoInvestimento>, inicio: nat, n: nat)
    ensures o[..Min(inicio, |o|)] + SkipTake(o, inicio, n) == o[..Min(inicio + n, |o|)]
  {
  }

  /**
    Concatenating pages 1 to `TotalPaginas` yields the whole `Id`-ordered table,
    every row exactly once.
   */
  lemma TodasAsPaginas(t: seq<ProdutoInvestimento>, itensPorPagina: int)
    requires itensPorPagina >= 1
    ensures TotalPaginas(|t|, itensPorPagina) >= 0
    ensures Paginas(t, itensPorPagina, TotalPaginas(|t|, itensPorPagina)) == OrderBy(PorId, t)
    ensures multiset(Paginas(t, itensPorPagina, TotalPaginas(|t|, itensPorPagina))) == multiset(t)
  {
    var k: nat := TotalPaginas(|t|, itensPorPagina);
    PaginasPrefixo(t, itensPorPagina, k);
    assert Min(k * itensPorPagina, |t|) == |t|;
  }

  /**
    The worked example: 23 rows, 10 per page, give 3 pages; page 3 holds 3 rows
    and page 4 none; with -10 per page the count is -2 and no row is returned.
   */
  lemma Exemplo23Itens(t: seq<ProdutoInvestimento>)
    requires |t| == 23
    ensures ObterProdutosPaginados(t, 3, 10).totalPaginas == 3
    ensures |ObterProdutosPaginados(t, 3, 10).produtos| == 3
    ensures ObterProdutosPaginados(t, 4, 10).produtos == []
    ensures ObterProdutosPaginados(t, 4, 10).totalPaginas == 3
    ensures ObterProdutosPaginados(t, 1, -10).totalPaginas == -2
    ensures ObterProdutosPaginados(t, 1, -10).produtos == []
  {
    OrderByPermutacao(PorId, t);
    assert Deslocamento(3, 10) == 20 && Deslocamento(4, 10) == 30;
  }
}
