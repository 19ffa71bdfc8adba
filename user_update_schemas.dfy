/** The field validators of the profile-update request bodies, and the
    conversion of test results to the stored dictionary. A validator either
    hands the value back unchanged or rejects it with the source's message. */
module UserUpdateSchemas {
  import opened Common

  /** The five paths a user may select, in the order of the source's list. */
  const VALID_PATHS: seq<string> := ["Ansiedade", "Atenção Plena", "Autoimagem", "Motivação", "Relacionamentos"]

  /** The rejection message of `validate_path`: the valid paths, joined by ", ". */
  const MSG_INVALID_PATH: string :=
    "selected_path deve ser um dos seguintes: Ansiedade, Atenção Plena, Autoimagem, Motivação, Relacionamentos"
  const MSG_INVALID_SCORE: string := "Cada pontuação deve estar entre 0 e 100"
  const MSG_INVALID_SEMANA: string := "semana deve estar entre 1 e 12"
  const MSG_INVALID_DIA: string := "dia deve estar entre 1 e 7"

  /** `validate_path`: accepts exactly the five listed paths. */
  function ValidatePath(v: string): (r: Result<string, string>)
    ensures r.Success? <==> v in VALID_PATHS
    ensures r.Success? ==> r.value == v
    ensures r.Failure? ==> r.error == MSG_INVALID_PATH
  {
    if v in VALID_PATHS then Success(v) else Failure(MSG_INVALID_PATH)
  }

  /** `validate_score`: accepts a score from 0 to 100 inclusive. */
  function ValidateScore(v: int): (r: Result<int, string>)
    ensures r.Success? <==> 0 <= v <= 100
    ensures r.Success? ==> r.value == v
    ensures r.Failure? ==> r.error == MSG_INVALID_SCORE
  {
    if 0 <= v <= 100 then Success(v) else Failure(MSG_INVALID_SCORE)
  }

  /** `validate_semana`: accepts a week from 1 to 12 inclusive. */
  function ValidateSemana(v: int): (r: Result<int, string>)
    ensures r.Success? <==> 1 <= v <= 12
    ensures r.Success? ==> r.value == v
    ensures r.Failure? ==> r.error == MSG_INVALID_SEMANA
  {
    if 1 <= v <= 12 then Success(v) else Failure(MSG_INVALID_SEMANA)
  }

  /** `validate_dia`: accepts a day from 1 to 7 inclusive. */
  function ValidateDia(v: int): (r: Result<int, string>)
    ensures r.Success? <==> 1 <= v <= 7
    ensures r.Success? ==> r.value == v
    ensures r.Failure? ==> r.error == MSG_INVALID_DIA
  {
    if 1 <= v <= 7 then Success(v) else Failure(MSG_INVALID_DIA)
  }

  /** The five test scores; `atencaoPlena` is the field the source spells `Atenção_Plena`. */
  datatype TestResults = TestResults(ansiedade: int, atencaoPlena: int, autoimagem: int, motivacao: int, relacionamentos: int)

  /** `TestResultsSchema.to_dict`: one key per path name, each holding the score of that field. */
  function ToDict(t: TestResults): (d: map<string, int>)
    ensures forall k :: k in d <==> k in VALID_PATHS
    ensures |d| == 5
    ensures d["Ansiedade"] == t.ansiedade
    ensures d["Atenção Plena"] == t.atencaoPlena
    ensures d["Autoimagem"] == t.autoimagem
    ensures d["Motivação"] == t.motivacao
    ensures d["Relacionamentos"] == t.relacionamentos
  {
    map[
      "Ansiedade" := t.ansiedade,
      "Atenção Plena" := t.atencaoPlena,
      "Autoimagem" := t.autoimagem,
      "Motivação" := t.motivacao,
      "Relacionamentos" := t.relacionamentos]
  }
}
