/**
  The CRUD half of `ProdutoInvestimentoRepository`: the product table held as a
  sequence of rows in store order, plus the counter behind the identity column
  that the database uses to assign `Id` on insert (`ValueGeneratedOnAdd`).
 */
module Repositorio {
  import opened Modelo

  /** Position of the first row with key `id`, or `|t|` when there is none. */
  function IndiceDe(t: seq<ProdutoInvestimento>, id: int): (k: nat)
    ensures k <= |t|
    ensures forall j :: 0 <= j < k ==> t[j].id != id
    ensures k < |t| ==> t[k].id == id
  {
    if |t| == 0 then 0
    else if t[0].id == id then 0
    else
      var k := IndiceDe(t[1..], id);
      assert forall j :: 1 <= j < |t| ==> t[j] == t[1..][j - 1];
      k + 1
  }

  /** `FirstOrDefault(p => p.Id == id)` on a table. */
  function PrimeiroComId(t: seq<ProdutoInvestimento>, id: int): (r: Option<ProdutoInvestimento>)
    ensures r.None? <==> forall i :: 0 <= i < |t| ==> t[i].id != id
    ensures r.Some? ==> (r.value.id == id &&
      exists i :: 0 <= i < |t| && t[i] == r.value && forall j :: 0 <= j < i ==> t[j].id != id)
  {
    var k := IndiceDe(t, id);
    if k < |t| then Some(t[k]) else None
  }

  /** The table without the row whose key is `id` (unchanged when there is none). */
  function Remover(t: seq<ProdutoInvestimento>, id: int): seq<ProdutoInvestimento> {
    var k := IndiceDe(t, id);
    if k < |t| then t[..k] + t[k + 1..] else t
  }

  /** Reference definition: every row whose key is not `id`, in order. */
  function SemId(t: seq<ProdutoInvestimento>, id: int): seq<ProdutoInvestimento> {
    if |t| == 0 then [] else (if t[0].id == id then [] else [t[0]]) + SemId(t[1..], id)
  }

  lemma {:induction false} SemIdAusente(t: seq<ProdutoInvestimento>, id: int)
    requires forall i :: 0 <= i < |t| ==> t[i].id != id
    ensures SemId(t, id) == t
  {
    if |t| > 0 {
      assert forall i :: 0 <= i < |t[1..]| ==> t[1..][i] == t[i + 1];
      SemIdAusente(t[1..], id);
      assert t == [t[0]] + t[1..];
    }
  }

  lemma {:induction false} SemIdConcat(a: seq<ProdutoInvestimento>, b: seq<ProdutoInvestimento>, id: int)
    ensures SemId(a + b, id) == SemId(a, id) + SemId(b, id)
  {
    if |a| > 0 {
      assert (a + b)[1..] == a[1..] + b;
      SemIdConcat(a[1..], b, id);
    } else {
      assert a + b == b;
    }
  }

  /** Dropping key `id` from rows `a`, one row `x` with that key and rows `b` leaves `a + b`. */
  lemma SemIdMeio(a: seq<ProdutoInvestimento>, x: ProdutoInvestimento, b: seq<ProdutoInvestimento>, id: int)
    requires forall i :: 0 <= i < |a| ==> a[i].id != id
    requires x.id == id
    requires forall i :: 0 <= i < |b| ==> b[i].id != id
    ensures SemId(a + [x] + b, id) == a + b
  {
    SemIdConcat(a + [x], b, id);
    SemIdConcat(a, [x], id);
    SemIdAusente(a, id);
    SemIdAusente(b, id);
    assert SemId([x], id) == [] by { assert [x][1..] == []; }
  }

  /**
    With unique keys, deleting by key removes exactly the rows with that key and
    keeps all others in their order.
   */
  lemma RemoverCorreto(t: seq<ProdutoInvestimento>, id: int)
    requires IdsUnicos(t)
    ensures Remover(t, id) == SemId(t, id)
  {
    var k := IndiceDe(t, id);
    if k < |t| {
      var antes, depois := t[..k], t[k + 1..];
      assert t == antes + [t[k]] + depois;
      forall i | 0 <= i < |depois| ensures depois[i].id != id {
        assert depois[i] == t[k + 1 + i];
      }
      SemIdMeio(antes, t[k], depois, id);
    } else {
      SemIdAusente(t, id);
    }
  }

  /** Dropping position `k`: the rows before it keep their place, the rows after it move down by one. */
  lemma SemPosicao(t: seq<ProdutoInvestimento>, k: nat, r: seq<ProdutoInvestimento>)
    requires k < |t| && r == t[..k] + t[k + 1..]
    ensures |r| == |t| - 1
    ensures forall i :: 0 <= i < k ==> r[i] == t[i]
    ensures forall i :: k <= i < |r| ==> r[i] == t[i + 1]
  {
  }

  /** Deleting keeps the keys unique. */
  lemma RemoverPreservaUnicidade(t: seq<ProdutoInvestimento>, id: int)
    requires IdsUnicos(t)
    ensures IdsUnicos(Remover(t, id))
  {
    var k := IndiceDe(t, id);
    if k < |t| {
      var r := t[..k] + t[k + 1..];
      SemPosicao(t, k, r);
      forall i, j | 0 <= i < j < |r| ensures r[i].id != r[j].id {
        var a, b := if i < k then i else i + 1, if j < k then j else j + 1;
        assert r[i] == t[a] && r[j] == t[b] && a < b;
      }
    }
  }

  lemma {:induction false} IdsConcat(a: seq<ProdutoInvestimento>, b: seq<ProdutoInvestimento>)
    ensures Ids(a + b) == Ids(a) + Ids(b)
  {
    if |a| > 0 {
      assert (a + b)[1..] == a[1..] + b;
      IdsConcat(a[1..], b);
    } else {
      assert a + b == b;
    }
  }

  /** Two tables whose rows carry the same keys position by position have the same key set. */
  lemma {:induction false} IdsMesmasChaves(a: seq<ProdutoInvestimento>, b: seq<ProdutoInvestimento>)
    requires |a| == |b| && forall i :: 0 <= i < |a| ==> a[i].id == b[i].id
    ensures Ids(a) == Ids(b)
  {
    if |a| > 0 {
      IdsMesmasChaves(a[1..], b[1..]);
    }
  }

  /** Filtering out key `id` removes exactly that key from the key set. */
  lemma {:induction false} SemIdChaves(t: seq<ProdutoInvestimento>, id: int)
    ensures Ids(SemId(t, id)) == Ids(t) - {id}
  {
    if |t| > 0 {
      var cabeca := if t[0].id == id then [] else [t[0]];
      SemIdChaves(t[1..], id);
      IdsConcat(cabeca, SemId(t[1..], id));
      assert Ids([t[0]]) == {t[0].id} by { assert [t[0]][1..] == []; }
    }
  }

  /** With unique keys, filtering out a present key drops exactly one row. */
  lemma {:induction false} SemIdTamanho(t: seq<ProdutoInvestimento>, id: int)
    requires IdsUnicos(t)
    ensures |SemId(t, id)| == if id in Ids(t) then |t| - 1 else |t|
  {
    if |t| > 0 {
      var resto := t[1..];
      assert forall i :: 0 <= i < |resto| ==> resto[i] == t[i + 1];
      if t[0].id == id {
        SemIdAusente(resto, id);
      } else {
        assert IdsUnicos(resto);
        SemIdTamanho(resto, id);
      }
    }
  }

  /** Deleting removes exactly key `id` from the key set, and one row when the key is present. */
  lemma RemoverPreservaChaves(t: seq<ProdutoInvestimento>, id: int)
    requires IdsUnicos(t)
    ensures Ids(Remover(t, id)) == Ids(t) - {id}
    ensures |Remover(t, id)| == if id in Ids(t) then |t| - 1 else |t|
  {
    RemoverCorreto(t, id);
    SemIdChaves(t, id);
    SemIdTamanho(t, id);
  }

  /** The table with the row whose key is `p.id` replaced by `p` (unchanged when there is none). */
  function Substituir(t: seq<ProdutoInvestimento>, p: ProdutoInvestimento): seq<ProdutoInvestimento> {
    var k := IndiceDe(t, p.id);
    if k < |t| then t[k := p] else t
  }

  /** An update keeps the keys, leaves every other row alone and makes `p` the row for its key. */
  lemma SubstituirCorreto(t: seq<ProdutoInvestimento>, p: ProdutoInvestimento)
    requires IdsUnicos(t) && p.id in Ids(t)
    ensures |Substituir(t, p)| == |t|
    ensures IdsUnicos(Substituir(t, p))
    ensures Ids(Substituir(t, p)) == Ids(t)
    ensures forall i :: 0 <= i < |t| ==> Substituir(t, p)[i] == if t[i].id == p.id then p else t[i]
    ensures forall i :: 0 <= i < |t| ==> Substituir(t, p)[i].id == t[i].id
    ensures PrimeiroComId(Substituir(t, p), p.id) == Some(p)
  {
    var k := IndiceDe(t, p.id);
    var r := t[k := p];
    assert Substituir(t, p) == r;
    forall i | 0 <= i < |t| ensures r[i] == if t[i].id == p.id then p else t[i] {
      if i != k { assert t[i].id != p.id; }
    }
    assert forall i :: 0 <= i < |t| ==> r[i].id == t[i].id;
    IdsMesmasChaves(r, t);
    IndiceUnico(r, p.id, k);
  }

  /** The search finds a row exactly when the key is in the table. */
  lemma IndiceDeIds(t: seq<ProdutoInvestimento>, id: int)
    ensures IndiceDe(t, id) < |t| <==> id in Ids(t)
  {
  }

  /** The first position holding key `id` is the one before which no row holds it. */
  lemma IndiceUnico(t: seq<ProdutoInvestimento>, id: int, k: nat)
    requires k < |t| && t[k].id == id
    requires forall j :: 0 <= j < k ==> t[j].id != id
    ensures IndiceDe(t, id) == k
  {
  }

  class ProdutoInvestimentoRepository {
    /** The rows of `_context.ProdutosInvestimento`, in store order. */
    var produtos: seq<ProdutoInvestimento>
    /** The next value of the identity column. */
    var proximoId: int

    /** Keys are unique and every key was handed out by the identity column. */
    ghost predicate Valid()
      reads this
    {
      && proximoId >= 1
      && IdsUnicos(produtos)
      && forall i :: 0 <= i < |produtos| ==> 1 <= produtos[i].id < proximoId
    }

    /** A repository over a table whose identity column will next hand out `proximoId`. */
    constructor (tabela: seq<ProdutoInvestimento>, proximoId: int)
      requires proximoId >= 1 && IdsUnicos(tabela)
      requires forall i :: 0 <= i < |tabela| ==> 1 <= tabela[i].id < proximoId
      ensures Valid()
      ensures produtos == tabela && this.proximoId == proximoId
    {
      produtos := tabela;
      this.proximoId := proximoId;
    }

    /** `GetAll`: every row, in store order; keys are unique. */
    function GetAll(): (r: seq<ProdutoInvestimento>)
      reads this
      requires Valid()
      ensures IdsUnicos(r)
      ensures forall i :: 0 <= i < |r| ==> 1 <= r[i].id < proximoId
      ensures r == produtos
    {
      produtos
    }

    /** `GetById`: the first row with key `id`, or null. */
    function GetById(id: int): (r: Option<ProdutoInvestimento>)
      reads this
      ensures r.None? <==> forall i :: 0 <= i < |produtos| ==> produtos[i].id != id
      ensures r.Some? ==> (r.value.id == id &&
        exists i :: 0 <= i < |produtos| && produtos[i] == r.value && forall j :: 0 <= j < i ==> produtos[j].id != id)
    {
      PrimeiroComId(produtos, id)
    }

    /**
      `Add`: inserts `produto` as a new last row; the database assigns a
      fresh key, which is returned (EF writes it back into the entity).
     */
    method Add(produto: ProdutoInvestimento) returns (id: int)
      requires Valid()
      modifies this
      ensures Valid()
      ensures id == old(proximoId) && id !in Ids(old(produtos))
      ensures produtos == old(produtos) + [produto.(id := id)]
      ensures proximoId == old(proximoId) + 1
      ensures GetById(id) == Some(produto.(id := id))
    {
      id := proximoId;
      var novo := produto.(id := id);
      assert id !in Ids(produtos);
      produtos := produtos + [novo];
      proximoId := proximoId + 1;
      IndiceUnico(produtos, id, |produtos| - 1);
    }

    /**
      `Update`: overwrites the row with key `produto.Id`. When there is no
      such row the database reports a concurrency failure: `ok` is false and
      nothing changes.
     */
    method Update(produto: ProdutoInvestimento) returns (ok: bool)
      requires Valid()
      modifies this
      ensures Valid()
      ensures ok <==> produto.id in Ids(old(produtos))
      ensures produtos == Substituir(old(produtos), produto)
      ensures !ok ==> produtos == old(produtos)
      ensures ok ==> GetById(produto.id) == Some(produto)
      ensures ok ==> forall i :: 0 <= i < |produtos| && produtos[i].id != produto.id ==> produtos[i] == old(produtos)[i]
      ensures proximoId == old(proximoId)
    {
      IndiceDeIds(produtos, produto.id);
      ok := IndiceDe(produtos, produto.id) < |produtos|;
      if ok {
        SubstituirCorreto(produtos, produto);
        var novos := Substituir(produtos, produto);
        assert forall i :: 0 <= i < |novos| ==> novos[i].id == produtos[i].id;
        produtos := novos;
      }
    }

    /** `Delete`: removes the row with key `id`; a no-op when there is none. */
    method Delete(id: int)
      requires Valid()
      modifies this
      ensures Valid()
      ensures produtos == Remover(old(produtos), id)
      ensures produtos == SemId(old(produtos), id)
      ensures Ids(produtos) == Ids(old(produtos)) - {id}
      ensures id !in Ids(old(produtos)) ==> produtos == old(produtos)
      ensures GetById(id) == None
      ensures proximoId == old(proximoId)
    {
      RemoverCorreto(produtos, id);
      RemoverPreservaUnicidade(produtos, id);
      RemoverPreservaChaves(produtos, id);
      var k := IndiceDe(produtos, id);
      if k < |produtos| {
        produtos := produtos[..k] + produtos[k + 1..];
      }
    }
  }
}
