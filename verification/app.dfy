/**
 * The application controller of src/App.tsx: which of the three screens is
 * shown, the latest local submission, and the corpus the results are computed
 * over, which is always the seed responses followed by that submission.
 *
 * The browser's local storage is a field holding the one stored item; what
 * `JSON.parse` makes of it is decided when the item is written into that
 * field (`Parsed` for text that parses to a list of responses,
 * `Unparseable` for any other text).
 */
module AppModel {
  import opened SurveyTypes
  import opened Calculations
  import opened MockData
  import opened Form

  /** The `survey-responses` storage slot. */
  datatype StoredItem = Missing | Unparseable | Parsed(responses: seq<Response>)

  /**
   * The screen changes the rendered buttons can cause: start and view
   * results from the overview, back from the form, completion of the form,
   * and back or reset from the results.
   */
  predicate Step(from: ViewMode, to: ViewMode) {
    || (from == Overview && to == Survey)
    || (from == Overview && to == Results)
    || (from == Survey && to == Overview)
    || (from == Survey && to == Results)
    || (from == Results && to == Overview)
  }

  class App {
    const values: seq<Value>
    const questions: seq<Question>
    /** The corpus the state starts from and is reset to: `mockResponses` (see `Mount`). */
    const seed: seq<Response>
    var currentView: ViewMode
    var userResponses: seq<Response>
    var allResponses: seq<Response>
    var storage: StoredItem

    /** The corpus is the seed responses followed by the latest submission. */
    ghost predicate Valid()
      reads this
    {
      allResponses == seed + userResponses
    }

    /** The first render over a given seed: the overview, no submission, the seed as corpus; storage is as found. */
    constructor (values: seq<Value>, questions: seq<Question>, storage: StoredItem, mock: seq<Response>)
      ensures Valid() && seed == mock
      ensures this.values == values && this.questions == questions && this.storage == storage
      ensures currentView == Overview && userResponses == [] && allResponses == seed
    {
      var s := mock;
      this.values := values;
      this.questions := questions;
      currentView := Overview;
      userResponses := [];
      this.storage := storage;
      seed := s;
      allResponses := s;
    }

    /**
     * The mount effect: a stored list that parses becomes the submission
     * and is appended to the seed corpus; a missing or unparseable item
     * leaves everything as it was.
     */
    method LoadSaved()
      requires Valid()
      modifies this`userResponses, this`allResponses
      ensures Valid()
      ensures storage.Parsed? ==> userResponses == storage.responses && allResponses == seed + storage.responses
      ensures !storage.Parsed? ==> userResponses == old(userResponses) && allResponses == old(allResponses)
    {
      if storage.Parsed? {
        var responses := storage.responses;
        userResponses := responses;
        allResponses := seed + responses;
      }
    }

    /** "Start survey" on the overview. */
    method StartSurvey()
      requires currentView == Overview
      modifies this`currentView
      ensures Step(old(currentView), currentView) && currentView == Survey
    {
      currentView := Survey;
    }

    /** "View results" on the overview. */
    method ViewResults()
      requires currentView == Overview
      modifies this`currentView
      ensures Step(old(currentView), currentView) && currentView == Results
    {
      currentView := Results;
    }

    /** "Back" on the survey form. */
    method LeaveSurvey()
      requires currentView == Survey
      modifies this`currentView
      ensures Step(old(currentView), currentView) && currentView == Overview
    {
      currentView := Overview;
    }

    /** "Back" on the results dashboard. */
    method LeaveResults()
      requires currentView == Results
      modifies this`currentView
      ensures Step(old(currentView), currentView) && currentView == Overview
    {
      currentView := Overview;
    }

    /**
     * The form's completion callback: the submission replaces any earlier
     * one (it is not accumulated), is stored, and the results are shown.
     */
    method HandleSurveyComplete(responses: seq<Response>)
      requires Valid() && currentView == Survey
      modifies this`userResponses, this`allResponses, this`storage, this`currentView
      ensures Valid()
      ensures userResponses == responses && allResponses == seed + responses
      ensures storage == Parsed(responses)
      ensures Step(old(currentView), currentView) && currentView == Results
    {
      userResponses := responses;
      storage := Parsed(responses);
      allResponses := seed + responses;
      currentView := Results;
    }

    /**
     * "Reset" on the results dashboard: whatever happened before, the corpus
     * is the seed corpus again, the stored copy is gone and the overview is shown.
     */
    method HandleReset()
      requires currentView == Results
      modifies this`userResponses, this`allResponses, this`storage, this`currentView
      ensures Valid()
      ensures userResponses == [] && allResponses == seed && storage == Missing
      ensures Step(old(currentView), currentView) && currentView == Overview
    {
      userResponses := [];
      allResponses := seed;
      storage := Missing;
      currentView := Overview;
    }

    /**
     * What the dashboard is given: the results over the current corpus with
     * no expected head-count, so no response rate is ever computed.
     */
    function CurrentResults(): (r: SurveyResults)
      reads this
      ensures r.expectedResponses == None && r.responseRate == None
      ensures |r.valueScores| == |values|
      ensures forall i :: 0 <= i < |values| ==> r.valueScores[i].valueId == values[i].id
      ensures 0 <= r.overallScore <= 100
      ensures r.totalResponses <= |allResponses|
    {
      TotalResponsesAtMostCorpus(values, questions, allResponses, None);
      CalculateSurveyResults(values, questions, allResponses, None)
    }
  }

  /**
   * The first render of the application: the state cells start as the
   * overview, an empty submission and the imported `mockResponses`.
   */
  method Mount(values: seq<Value>, questions: seq<Question>, storage: StoredItem) returns (app: App)
    ensures fresh(app) && app.Valid() && app.seed == MockResponses()
    ensures app.values == values && app.questions == questions && app.storage == storage
    ensures app.currentView == Overview && app.userResponses == [] && app.allResponses == MockResponses()
  {
    app := new App(values, questions, storage, MockResponses());
  }

  /**
   * Completing a form over questions with distinct ids adds exactly one
   * response to every question's count, on top of the seed corpus.
   */
  lemma SubmissionAddsOnePerQuestion(questions: seq<Question>, answers: seq<FormResponse>)
    requires DistinctQuestionIds(questions) && AnswersDistinct(answers)
    requires AnsweredIds(answers) <= QuestionIds(questions)
    requires |answers| == |questions|
    ensures forall i :: 0 <= i < |questions| ==>
      |ResponsesFor(questions[i].id, MockResponses() + ToResponses(answers))|
        == |ResponsesFor(questions[i].id, MockResponses())| + 1
  {
    SubmissionOnePerQuestion(questions, answers);
    forall i | 0 <= i < |questions|
      ensures |ResponsesFor(questions[i].id, MockResponses() + ToResponses(answers))|
        == |ResponsesFor(questions[i].id, MockResponses())| + 1
    {
      ResponsesForAppend(questions[i].id, MockResponses(), ToResponses(answers));
    }
  }

  /**
   * A mock question answered in a submission holds one answer more than its
   * seed block: the sum of its rounded buckets (25 for most rows, 26 for
   * `gro3` and `tra1`), plus one.
   */
  lemma SubmissionCountOnMockQuestion(k: nat, answers: seq<FormResponse>)
    requires k < |MockTable| && AnswersDistinct(answers)
    requires MockTable[k].0 in AnsweredIds(answers)
    ensures |ResponsesFor(MockTable[k].0, MockResponses() + ToResponses(answers))| ==
      TotalBucketSize(MockCount, MockTable[k].1) + 1
  {
    var id := MockTable[k].0;
    MockResponsesPerQuestion(k);
    GeneratedShape(id, MockCount, MockTable[k].1);
    ResponsesForAppend(id, MockResponses(), ToResponses(answers));
    SubmissionCountFor(id, answers);
  }
}
