/**
  `ObterResumo`: the projection of every row to its id, name, category, yield
  and the upper-cased first letter of its risk level.
 */
module Resumo {
  import opened Texto
  import opened Modelo

  /** The anonymous object `ObterResumo` builds for each row. */
  datatype ResumoProduto = ResumoProduto(
    id: int,
    nome: string,
    categoria: string,
    rentabilidadeAnual: real,
    riscoSimplificado: string)

  /** `Substring(0, 1)` throws on an empty risk level; the failure names the offending row. */
  datatype ErroResumo = NivelRiscoVazio(id: int)

  /** `p.NivelRisco.Substring(0, 1).ToUpper()`, defined only for a non-empty risk level. */
  function RiscoSimplificado(nivelRisco: string): (r: string)
    requires |nivelRisco| > 0
    ensures |r| == 1
    ensures !('a' <= r[0] <= 'z')
    ensures MinusculaChar(r[0]) == MinusculaChar(nivelRisco[0])
  {
    [MaiusculaChar(nivelRisco[0])]
  }

  /** The projection of a single row. */
  predicate ResumeProduto(p: ProdutoInvestimento, s: ResumoProduto) {
    && |p.nivelRisco| > 0
    && s == ResumoProduto(p.id, p.nome, p.categoria, p.rentabilidadeAnual, RiscoSimplificado(p.nivelRisco))
  }

  /**
    `ObterResumo`: the projection of every row, in store order. The first row
    with an empty risk level makes the whole call fail, as the exception thrown
    by `Substring` does.
   */
  function ObterResumo(t: seq<ProdutoInvestimento>): (r: Result<seq<ResumoProduto>, ErroResumo>)
    ensures r.Success? <==> forall i :: 0 <= i < |t| ==> |t[i].nivelRisco| > 0
    ensures r.Success? ==> |r.value| == |t| && forall i :: 0 <= i < |t| ==> ResumeProduto(t[i], r.value[i])
    ensures r.Failure? ==> exists i :: 0 <= i < |t| && t[i].nivelRisco == [] && t[i].id == r.error.id &&
                                       forall j :: 0 <= j < i ==> |t[j].nivelRisco| > 0
  {
    if |t| == 0 then Success([])
    else if |t[0].nivelRisco| == 0 then Failure(NivelRiscoVazio(t[0].id))
    else
      var p := t[0];
      var cabeca := ResumoProduto(p.id, p.nome, p.categoria, p.rentabilidadeAnual, RiscoSimplificado(p.nivelRisco));
      assert forall i :: 1 <= i < |t| ==> t[i] == t[1..][i - 1];
      match ObterResumo(t[1..])
      case Success(resto) => Success([cabeca] + resto)
      case Failure(e) =>
        assert exists i :: 1 <= i < |t| && t[i].nivelRisco == [] && t[i].id == e.id &&
                           forall j :: 1 <= j < i ==> |t[j].nivelRisco| > 0 by {
          var k :| 0 <= k < |t[1..]| && t[1..][k].nivelRisco == [] && t[1..][k].id == e.id &&
                   forall j :: 0 <= j < k ==> |t[1..][j].nivelRisco| > 0;
          assert t[k + 1] == t[1..][k];
          assert forall j :: 1 <= j < k + 1 ==> t[j] == t[1..][j - 1];
        }
        Failure(e)
  }
}
