/**
 * The answer-capture state machine of src/components/SurveyForm.tsx: a
 * current question index, the answers recorded so far (at most one per
 * question) and a submitting flag, changed step by step by the handlers.
 * The 600 ms auto-advance and the 1000 ms submission delay are taken as
 * instant steps.
 */
module Form {
  import opened SurveyTypes
  import opened Calculations

  /** An answer held by the form before submission. */
  datatype FormResponse = FormResponse(questionId: string, score: int)

  /** The scores the five answer buttons offer, Strongly Disagree to Strongly Agree. */
  const ScoreOptions: seq<int> := [1, 2, 3, 4, 5]

  /** No two answers are for the same question. */
  predicate AnswersDistinct(rs: seq<FormResponse>) {
    forall i, j :: 0 <= i < j < |rs| ==> rs[i].questionId != rs[j].questionId
  }

  /** The ids of the questions that have an answer. */
  function AnsweredIds(rs: seq<FormResponse>): set<string> {
    set i | 0 <= i < |rs| :: rs[i].questionId
  }

  /** The ids of a list of questions. */
  function QuestionIds(qs: seq<Question>): set<string> {
    set i | 0 <= i < |qs| :: qs[i].id
  }

  /**
   * `responses.filter(r => r.questionId !== questionId)`: every answer except
   * the one for the given question, in recorded order.
   */
  function Without(rs: seq<FormResponse>, questionId: string): (r: seq<FormResponse>)
    ensures |r| <= |rs|
    ensures forall i :: 0 <= i < |r| ==> r[i].questionId != questionId && r[i] in rs
    ensures AnswersDistinct(rs) ==> AnswersDistinct(r)
  {
    if rs == [] then []
    else
      var rest := Without(rs[1..], questionId);
      if rs[0].questionId != questionId then
        assert forall i :: 0 <= i < |rest| ==> rest[i] in rs[1..];
        [rs[0]] + rest
      else rest
  }

  /** Removing one question's answer keeps every other answer, as often as it occurs. */
  lemma {:induction false} WithoutContents(rs: seq<FormResponse>, questionId: string)
    ensures forall x :: multiset(Without(rs, questionId))[x] ==
                        if x.questionId == questionId then 0 else multiset(rs)[x]
  {
    if rs != [] {
      assert rs == [rs[0]] + rs[1..];
      WithoutContents(rs[1..], questionId);
    }
  }

  /** The answered ids of a non-empty list: the first answer's id and those of the rest. */
  lemma AnsweredIdsCons(rs: seq<FormResponse>)
    requires rs != []
    ensures AnsweredIds(rs) == {rs[0].questionId} + AnsweredIds(rs[1..])
  {
  }

  /** With no answer for the question there is nothing to remove. */
  lemma {:induction false} WithoutUnanswered(rs: seq<FormResponse>, questionId: string)
    requires questionId !in AnsweredIds(rs)
    ensures Without(rs, questionId) == rs
  {
    if rs != [] {
      AnsweredIdsCons(rs);
      assert rs[0].questionId != questionId;
      WithoutUnanswered(rs[1..], questionId);
      calc {
        Without(rs, questionId);
        [rs[0]] + Without(rs[1..], questionId);
        [rs[0]] + rs[1..];
        rs;
      }
    }
  }

  /** Distinct answers have as many answered ids as answers. */
  lemma {:induction false} AnsweredIdsCount(rs: seq<FormResponse>)
    requires AnswersDistinct(rs)
    ensures |AnsweredIds(rs)| == |rs|
  {
    if rs != [] {
      var n := |rs| - 1;
      var front := rs[..n];
      assert AnswersDistinct(front);
      AnsweredIdsCount(front);
      assert AnsweredIds(rs) == AnsweredIds(front) + {rs[n].questionId} by {
        forall id | id in AnsweredIds(rs) ensures id in AnsweredIds(front) + {rs[n].questionId} {
          var i :| 0 <= i < |rs| && rs[i].questionId == id;
          if i < n { assert front[i].questionId == id; }
        }
      }
      assert rs[n].questionId !in AnsweredIds(front);
    }
  }

  /** Questions with distinct ids have as many ids as questions. */
  lemma {:induction false} QuestionIdsCount(qs: seq<Question>)
    requires DistinctQuestionIds(qs)
    ensures |QuestionIds(qs)| == |qs|
  {
    if qs != [] {
      var n := |qs| - 1;
      var front := qs[..n];
      assert DistinctQuestionIds(front);
      QuestionIdsCount(front);
      assert QuestionIds(qs) == QuestionIds(front) + {qs[n].id} by {
        forall id | id in QuestionIds(qs) ensures id in QuestionIds(front) + {qs[n].id} {
          var i :| 0 <= i < |qs| && qs[i].id == id;
          if i < n { assert front[i].id == id; }
        }
      }
      assert qs[n].id !in QuestionIds(front);
    }
  }

  /**
   * When answers are distinct and only for listed questions (with distinct
   * ids), there are at most as many answers as questions, and exactly as
   * many precisely when every question has an answer.
   */
  lemma AnswerCount(questions: seq<Question>, responses: seq<FormResponse>)
    requires DistinctQuestionIds(questions) && AnswersDistinct(responses)
    requires AnsweredIds(responses) <= QuestionIds(questions)
    ensures |responses| <= |questions|
    ensures |responses| == |questions| <==> QuestionIds(questions) <= AnsweredIds(responses)
  {
    var answered, all := AnsweredIds(responses), QuestionIds(questions);
    AnsweredIdsCount(responses);
    QuestionIdsCount(questions);
    assert all == (all - answered) + answered;
    assert |all| == |all - answered| + |answered|;
    if |responses| == |questions| {
      assert all - answered == {};
    }
  }

  /** The submission step of handleSubmit: each recorded answer becomes a Response with the same question and score. */
  function ToResponses(rs: seq<FormResponse>): (r: seq<Response>)
    ensures |r| == |rs|
    ensures forall i :: 0 <= i < |rs| ==> r[i] == Response(rs[i].questionId, rs[i].score)
  {
    if rs == [] then [] else [Response(rs[0].questionId, rs[0].score)] + ToResponses(rs[1..])
  }

  /** A submission of distinct answers holds one response for each answered question and none for others. */
  lemma {:induction false} SubmissionCountFor(questionId: string, rs: seq<FormResponse>)
    requires AnswersDistinct(rs)
    ensures |ResponsesFor(questionId, ToResponses(rs))| == if questionId in AnsweredIds(rs) then 1 else 0
  {
    if rs != [] {
      var out := ToResponses(rs);
      assert out[1..] == ToResponses(rs[1..]);
      assert AnswersDistinct(rs[1..]);
      SubmissionCountFor(questionId, rs[1..]);
      AnsweredIdsCons(rs);
      if rs[0].questionId == questionId {
        assert questionId !in AnsweredIds(rs[1..]);
      }
    }
  }

  /**
   * A complete form over questions with distinct ids submits exactly one
   * response for every question.
   */
  lemma SubmissionOnePerQuestion(questions: seq<Question>, responses: seq<FormResponse>)
    requires DistinctQuestionIds(questions) && AnswersDistinct(responses)
    requires AnsweredIds(responses) <= QuestionIds(questions)
    requires |responses| == |questions|
    ensures forall i :: 0 <= i < |questions| ==> |ResponsesFor(questions[i].id, ToResponses(responses))| == 1
  {
    AnswerCount(questions, responses);
    forall i | 0 <= i < |questions|
      ensures |ResponsesFor(questions[i].id, ToResponses(responses))| == 1
    {
      assert questions[i].id in QuestionIds(questions);
      SubmissionCountFor(questions[i].id, responses);
    }
  }

  /** The first recorded answer for a question, if there is one. */
  function FindAnswer(rs: seq<FormResponse>, questionId: string): (r: Option<FormResponse>)
    ensures r.Some? ==> r.value in rs && r.value.questionId == questionId
    ensures r.None? <==> questionId !in AnsweredIds(rs)
  {
    if rs == [] then None
    else if rs[0].questionId == questionId then Some(rs[0])
    else
      AnsweredIdsCons(rs);
      FindAnswer(rs[1..], questionId)
  }

  class SurveyForm {
    const questions: seq<Question>
    var currentQuestionIndex: nat
    var responses: seq<FormResponse>
    var isSubmitting: bool

    /**
     * The index names a question, every answer is for a listed question and
     * holds an offered score, and no question has two answers.
     */
    ghost predicate Valid()
      reads this
    {
      && 0 < |questions|
      && currentQuestionIndex < |questions|
      && AnswersDistinct(responses)
      && AnsweredIds(responses) <= QuestionIds(questions)
      && forall i :: 0 <= i < |responses| ==> responses[i].score in ScoreOptions
    }

    /** A fresh form: first question, no answers, not submitting. */
    constructor (questions: seq<Question>)
      requires |questions| > 0
      ensures Valid()
      ensures this.questions == questions
      ensures currentQuestionIndex == 0 && responses == [] && !isSubmitting
    {
      this.questions := questions;
      currentQuestionIndex := 0;
      responses := [];
      isSubmitting := false;
    }

    /** The answer recorded for the question on screen, if any. */
    function CurrentResponse(): (r: Option<FormResponse>)
      reads this
      requires Valid()
      ensures r.Some? ==> r.value in responses && r.value.questionId == questions[currentQuestionIndex].id
      ensures r.None? <==> questions[currentQuestionIndex].id !in AnsweredIds(responses)
    {
      FindAnswer(responses, questions[currentQuestionIndex].id)
    }

    /** Every question has an answer, by count. */
    predicate IsComplete()
      reads this
    {
      |responses| == |questions|
    }

    /** The question on screen has an answer. */
    predicate CanProceed()
      reads this
      requires Valid()
      ensures CanProceed() <==> questions[currentQuestionIndex].id in AnsweredIds(responses)
    {
      CurrentResponse().Some?
    }

    /**
     * The Next button is shown only while the form is incomplete and is
     * enabled only when the question on screen has an answer and is not the
     * last one. The guard lives on the button, not in HandleNext.
     */
    predicate NextEnabled()
      reads this
      requires Valid()
      ensures NextEnabled() ==> currentQuestionIndex < |questions| - 1
      ensures NextEnabled() ==> questions[currentQuestionIndex].id in AnsweredIds(responses)
    {
      !IsComplete() && CanProceed() && currentQuestionIndex != |questions| - 1
    }

    /** Records `score` for the question on screen, replacing any earlier answer, then advances unless on the last question. */
    method HandleResponse(score: int)
      requires Valid() && score in ScoreOptions
      modifies this
      ensures Valid()
      ensures var id := questions[old(currentQuestionIndex)].id;
        responses == Without(old(responses), id) + [FormResponse(id, score)]
      ensures currentQuestionIndex ==
        if old(currentQuestionIndex) < |questions| - 1 then old(currentQuestionIndex) + 1
        else old(currentQuestionIndex)
      ensures isSubmitting == old(isSubmitting)
    {
      var id := questions[currentQuestionIndex].id;
      var newResponses := Without(responses, id);
      ghost var kept := newResponses;
      newResponses := newResponses + [FormResponse(id, score)];
      responses := newResponses;
      assert AnsweredIds(responses) <= QuestionIds(questions) by {
        forall a | a in AnsweredIds(responses) ensures a in QuestionIds(questions) {
          var i :| 0 <= i < |responses| && responses[i].questionId == a;
          if i < |kept| {
            assert kept[i] in old(responses);
            var j :| 0 <= j < |old(responses)| && old(responses)[j] == kept[i];
            assert a in old(AnsweredIds(responses));
          } else {
            assert a == questions[currentQuestionIndex].id;
          }
        }
      }
      assert forall i :: 0 <= i < |kept| ==> kept[i].score in ScoreOptions by {
        forall i | 0 <= i < |kept| ensures kept[i].score in ScoreOptions {
          assert kept[i] in old(responses);
        }
      }
      // The auto-advance timer, taken as an instant step.
      if currentQuestionIndex < |questions| - 1 {
        currentQuestionIndex := currentQuestionIndex + 1;
      }
    }

    /** Moves back one question unless on the first. */
    method HandlePrevious()
      requires Valid()
      modifies this`currentQuestionIndex
      ensures Valid()
      ensures currentQuestionIndex ==
        if old(currentQuestionIndex) > 0 then old(currentQuestionIndex) - 1 else old(currentQuestionIndex)
    {
      if currentQuestionIndex > 0 {
        currentQuestionIndex := currentQuestionIndex - 1;
      }
    }

    /** Moves on one question unless on the last; it does not check for an answer. */
    method HandleNext()
      requires Valid()
      modifies this`currentQuestionIndex
      ensures Valid()
      ensures currentQuestionIndex ==
        if old(currentQuestionIndex) < |questions| - 1 then old(currentQuestionIndex) + 1
        else old(currentQuestionIndex)
    {
      if currentQuestionIndex < |questions| - 1 {
        currentQuestionIndex := currentQuestionIndex + 1;
      }
    }

    /**
     * Does nothing unless every question is answered by count; otherwise
     * sets the submitting flag and emits one Response per recorded answer,
     * in recorded order.
     */
    method HandleSubmit() returns (submitted: Option<seq<Response>>)
      requires Valid()
      modifies this`isSubmitting
      ensures Valid()
      ensures old(IsComplete()) ==> isSubmitting && submitted == Some(ToResponses(responses))
      ensures !old(IsComplete()) ==> isSubmitting == old(isSubmitting) && submitted == None
    {
      if |responses| == |questions| {
        isSubmitting := true;
        var surveyResponses := ToResponses(responses);
        // The delayed call to onComplete, taken as an instant step.
        submitted := Some(surveyResponses);
      } else {
        submitted := None;
      }
    }
  }

  /**
   * On a valid form over questions with distinct ids, the form is complete
   * exactly when every question has an answer, and a submission then holds
   * one response per question.
   */
  lemma CompleteFormSubmitsEveryQuestion(form: SurveyForm)
    requires form.Valid() && DistinctQuestionIds(form.questions)
    ensures |form.responses| <= |form.questions|
    ensures form.IsComplete() <==> forall i :: 0 <= i < |form.questions| ==> form.questions[i].id in AnsweredIds(form.responses)
    ensures form.IsComplete() ==>
      forall i :: 0 <= i < |form.questions| ==> |ResponsesFor(form.questions[i].id, ToResponses(form.responses))| == 1
  {
    AnswerCount(form.questions, form.responses);
    if form.IsComplete() {
      SubmissionOnePerQuestion(form.questions, form.responses);
    }
  }
}
