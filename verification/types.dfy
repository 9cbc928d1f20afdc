/** The survey's data model: the records of src/types/index.ts. */
module SurveyTypes {

  /** An optional field (`?:` in the source); `None` stands for `undefined`. */
  datatype Option<+T> = None | Some(value: T)

  /** A thematic category that groups questions. */
  datatype Value = Value(id: string, name: string, description: string)

  /** A Likert-scale prompt; `valueId` names the Value it belongs to. */
  datatype Question = Question(id: string, valueId: string, text: string, order: int)

  /** One answer to one question. The capture timestamp is not modelled. */
  datatype Response = Response(questionId: string, score: int)

  /** Derived: the agree-rate of one question, as a whole percentage. */
  datatype QuestionScore = QuestionScore(
    questionId: string,
    questionText: string,
    valueId: string,
    score: int,
    totalResponses: nat)

  /** Derived: the mean of one value's question scores. */
  datatype ValueScore = ValueScore(
    valueId: string,
    valueName: string,
    score: int,
    questionScores: seq<QuestionScore>)

  /** Derived: everything the results dashboard shows. */
  datatype SurveyResults = SurveyResults(
    totalResponses: nat,
    expectedResponses: Option<int>,
    responseRate: Option<int>,
    valueScores: seq<ValueScore>,
    overallScore: int)

  /** The three screens of the application. */
  datatype ViewMode = Overview | Survey | Results
}
