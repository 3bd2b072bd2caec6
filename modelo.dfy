/**
  The record the repository stores (a row of the product table) and the small
  wrappers the queries return.
 */
module Modelo {

  /** A value that may be absent: C#'s `null` for a reference or a `Nullable<T>`. */
  datatype Option<T> = None | Some(value: T)

  /** The outcome of an operation that can fail. */
  datatype Result<T, E> = Success(value: T) | Failure(error: E)

  /**
    One investment product. `rentabilidadeAnual` is a C# `decimal`, modelled
    exactly as a `real`; `id` is the key the database generates on insert.
   */
  datatype ProdutoInvestimento = ProdutoInvestimento(
    id: int,
    nome: string,
    categoria: string,
    nivelRisco: string,
    rentabilidadeAnual: real)

  /** The primary-key invariant of the table: no two rows share an `id`. */
  predicate IdsUnicos(t: seq<ProdutoInvestimento>) {
    forall i, j :: 0 <= i < j < |t| ==> t[i].id != t[j].id
  }

  /** The set of keys present in a table. */
  function Ids(t: seq<ProdutoInvestimento>): (r: set<int>)
    ensures forall i :: 0 <= i < |t| ==> t[i].id in r
    ensures forall k :: k in r ==> exists i :: 0 <= i < |t| && t[i].id == k
  {
    if |t| == 0 then {}
    else
      var resto := Ids(t[1..]);
      assert forall i :: 1 <= i < |t| ==> t[i] == t[1..][i - 1];
      assert forall k :: k in resto ==> exists i :: 1 <= i < |t| && t[i].id == k by {
        forall k | k in resto ensures exists i :: 1 <= i < |t| && t[i].id == k {
          var i :| 0 <= i < |t[1..]| && t[1..][i].id == k;
          assert t[i + 1].id == k;
        }
      }
      {t[0].id} + resto
  }
}
