/**
 * The scoring engine of src/utils/calculations.ts: per-question agree-rates,
 * per-value means and the survey-wide summary. Every function is total; the
 * two divisions by a possibly empty count are guarded by the source's
 * zero policy.
 */
module Calculations {
  import opened SurveyTypes

  // ---------------------------------------------------------------------
  // Rounding
  // ---------------------------------------------------------------------

  /** `Math.round(num / den)` over exact rationals (see RoundHalfUpNearest). */
  function RoundHalfUp(num: int, den: int): (r: int)
    requires den > 0
    ensures num >= 0 ==> r >= 0
  {
    (2 * num + den) / (2 * den)
  }

  /**
   * RoundHalfUp gives the integer nearest to num/den, a half rounded towards
   * +infinity, which is what `Math.round` does.
   */
  lemma RoundHalfUpNearest(num: int, den: int)
    requires den > 0
    ensures var r := RoundHalfUp(num, den); 2 * num - den < 2 * den * r <= 2 * num + den
  {
  }

  /** Multiplying by a positive number preserves strict order, and reflects it. */
  lemma MulPositiveLess(d: int, a: int, b: int)
    requires d > 0 && d * a < d * b
    ensures a < b
  {
  }

  /** A rounded quotient of a numerator in [0, hi * den] lies in [0, hi]. */
  lemma RoundHalfUpWithin(num: int, den: int, hi: int)
    requires den > 0 && 0 <= num <= hi * den
    ensures 0 <= RoundHalfUp(num, den) <= hi
  {
    var r := RoundHalfUp(num, den);
    RoundHalfUpNearest(num, den);
    MulPositiveLess(2 * den, -1, r);
    assert 2 * den * (hi + 1) == 2 * (hi * den) + 2 * den;
    MulPositiveLess(2 * den, r, hi + 1);
  }

  // ---------------------------------------------------------------------
  // Question score (calculateQuestionScore)
  // ---------------------------------------------------------------------

  /** The responses to one question, in corpus order: `responses.filter(...)`. */
  function ResponsesFor(questionId: string, responses: seq<Response>): (r: seq<Response>)
    ensures |r| <= |responses|
    ensures forall i :: 0 <= i < |r| ==> r[i].questionId == questionId
  {
    if responses == [] then []
    else
      (if responses[0].questionId == questionId then [responses[0]] else [])
      + ResponsesFor(questionId, responses[1..])
  }

  /** The filter keeps every response to the question, as often as it occurs, and nothing else. */
  lemma {:induction false} ResponsesForContents(questionId: string, responses: seq<Response>)
    ensures forall x :: multiset(ResponsesFor(questionId, responses))[x] ==
                        if x.questionId == questionId then multiset(responses)[x] else 0
  {
    if responses != [] {
      assert responses == [responses[0]] + responses[1..];
      ResponsesForContents(questionId, responses[1..]);
    }
  }

  /** Filtering distributes over concatenation: it keeps the corpus order. */
  lemma {:induction false} ResponsesForAppend(questionId: string, a: seq<Response>, b: seq<Response>)
    ensures ResponsesFor(questionId, a + b) == ResponsesFor(questionId, a) + ResponsesFor(questionId, b)
  {
    if a == [] {
      assert a + b == b;
    } else {
      assert (a + b)[1..] == a[1..] + b;
      ResponsesForAppend(questionId, a[1..], b);
    }
  }

  /** The number of agreeing answers (score 4 or more). */
  function PositiveCount(responses: seq<Response>): (n: nat)
    ensures n <= |responses|
    ensures n == 0 <==> forall i :: 0 <= i < |responses| ==> responses[i].score < 4
    ensures n == |responses| <==> forall i :: 0 <= i < |responses| ==> responses[i].score >= 4
  {
    if responses == [] then 0
    else (if responses[0].score >= 4 then 1 else 0) + PositiveCount(responses[1..])
  }

  /**
   * The agree-rate of one question. With no responses the score is 0 by
   * policy; otherwise it is 100 * agreeing / total rounded half up. Text and
   * value id are left empty for the caller to fill in.
   */
  function CalculateQuestionScore(questionId: string, responses: seq<Response>): (q: QuestionScore)
    ensures q.questionId == questionId && q.questionText == "" && q.valueId == ""
    ensures q.totalResponses == |ResponsesFor(questionId, responses)|
    ensures 0 <= q.score <= 100
    ensures q.totalResponses == 0 ==> q.score == 0
    ensures q.totalResponses > 0 ==>
      q.score == RoundHalfUp(100 * PositiveCount(ResponsesFor(questionId, responses)), q.totalResponses)
  {
    var questionResponses := ResponsesFor(questionId, responses);
    var totalResponses := |questionResponses|;
    if totalResponses == 0 then
      QuestionScore(questionId, "", "", 0, 0)
    else
      var positiveResponses := PositiveCount(questionResponses);
      RoundHalfUpWithin(100 * positiveResponses, totalResponses, 100);
      var score := RoundHalfUp(100 * positiveResponses, totalResponses);
      QuestionScore(questionId, "", "", score, totalResponses)
  }

  /** A corpus with no response for a question has nothing to filter. */
  lemma {:induction false} ResponsesForNone(questionId: string, others: seq<Response>)
    requires forall x :: x in others ==> x.questionId != questionId
    ensures ResponsesFor(questionId, others) == []
  {
    if others != [] {
      ResponsesForNone(questionId, others[1..]);
    }
  }

  /**
   * Responses to other questions do not affect a question's score, whether
   * they come before or after its own responses in the corpus.
   */
  lemma QuestionScoreIgnoresOtherQuestions(questionId: string, responses: seq<Response>, others: seq<Response>)
    requires forall x :: x in others ==> x.questionId != questionId
    ensures CalculateQuestionScore(questionId, responses + others) == CalculateQuestionScore(questionId, responses)
    ensures CalculateQuestionScore(questionId, others + responses) == CalculateQuestionScore(questionId, responses)
  {
    ResponsesForNone(questionId, others);
    ResponsesForAppend(questionId, responses, others);
    ResponsesForAppend(questionId, others, responses);
    assert ResponsesFor(questionId, responses) + [] == ResponsesFor(questionId, responses);
    assert [] + ResponsesFor(questionId, responses) == ResponsesFor(questionId, responses);
  }

  // ---------------------------------------------------------------------
  // Value score (calculateValueScore)
  // ---------------------------------------------------------------------

  /** The questions of one value, in question order: `questions.filter(...)`. */
  function ValueQuestions(valueId: string, questions: seq<Question>): (r: seq<Question>)
    ensures |r| <= |questions|
    ensures forall i :: 0 <= i < |r| ==> r[i].valueId == valueId
  {
    if questions == [] then []
    else
      (if questions[0].valueId == valueId then [questions[0]] else [])
      + ValueQuestions(valueId, questions[1..])
  }

  /** The selection keeps every question of the value, as often as it occurs, and nothing else. */
  lemma {:induction false} ValueQuestionsContents(valueId: string, questions: seq<Question>)
    ensures forall q :: multiset(ValueQuestions(valueId, questions))[q] ==
                        if q.valueId == valueId then multiset(questions)[q] else 0
  {
    if questions != [] {
      assert questions == [questions[0]] + questions[1..];
      ValueQuestionsContents(valueId, questions[1..]);
    }
  }

  /** Selecting a value's questions distributes over concatenation. */
  lemma {:induction false} ValueQuestionsAppend(valueId: string, a: seq<Question>, b: seq<Question>)
    ensures ValueQuestions(valueId, a + b) == ValueQuestions(valueId, a) + ValueQuestions(valueId, b)
  {
    if a == [] {
      assert a + b == b;
    } else {
      assert (a + b)[1..] == a[1..] + b;
      ValueQuestionsAppend(valueId, a[1..], b);
    }
  }

  /** No two questions share an id. */
  predicate DistinctQuestionIds(questions: seq<Question>) {
    forall i, j :: 0 <= i < j < |questions| ==> questions[i].id != questions[j].id
  }

  /** Selecting a value's questions keeps their ids distinct. */
  lemma {:induction false} ValueQuestionsDistinct(valueId: string, questions: seq<Question>)
    requires DistinctQuestionIds(questions)
    ensures DistinctQuestionIds(ValueQuestions(valueId, questions))
  {
    if questions != [] {
      var tail := ValueQuestions(valueId, questions[1..]);
      ValueQuestionsDistinct(valueId, questions[1..]);
      if questions[0].valueId == valueId {
        ValueQuestionsContents(valueId, questions[1..]);
        forall j | 0 <= j < |tail|
          ensures tail[j].id != questions[0].id
        {
          assert multiset(tail)[tail[j]] > 0;
          assert tail[j] in questions[1..];
        }
      }
    }
  }

  /** `valueQuestions.find(q => q.id === id)`: the first question with that id. */
  function FindQuestion(questions: seq<Question>, id: string): (r: Option<Question>)
    ensures r.None? <==> forall i :: 0 <= i < |questions| ==> questions[i].id != id
    ensures r.Some? ==> exists i :: 0 <= i < |questions| && questions[i] == r.value && r.value.id == id
                                  && forall j :: 0 <= j < i ==> questions[j].id != id
  {
    if questions == [] then None
    else if questions[0].id == id then Some(questions[0])
    else
      var r := FindQuestion(questions[1..], id);
      if r.Some? then
        var i :| 0 <= i < |questions[1..]| && questions[1..][i] == r.value && r.value.id == id
                 && forall j :: 0 <= j < i ==> questions[1..][j].id != id;
        assert questions[i + 1] == r.value;
        r
      else r
  }

  /**
   * The fill-in step of calculateValueScore: a score record whose question is
   * found among the value's questions gets that question's text and the value id.
   */
  function FillIn(qs: QuestionScore, valueQuestions: seq<Question>, valueId: string): (r: QuestionScore)
    ensures r.questionId == qs.questionId && r.score == qs.score && r.totalResponses == qs.totalResponses
    ensures (exists k :: 0 <= k < |valueQuestions| && valueQuestions[k].id == qs.questionId) ==> r.valueId == valueId
  {
    match FindQuestion(valueQuestions, qs.questionId)
    case Some(q) => qs.(questionText := q.text, valueId := valueId)
    case None => qs
  }

  /**
   * The per-question scoring of calculateValueScore: one filled-in question
   * score per question of the value, in order.
   */
  function ScoreQuestions(valueQuestions: seq<Question>, valueId: string, responses: seq<Response>): (qs: seq<QuestionScore>)
    ensures |qs| == |valueQuestions|
    ensures forall i :: 0 <= i < |qs| ==>
      qs[i] == FillIn(CalculateQuestionScore(valueQuestions[i].id, responses), valueQuestions, valueId)
    ensures forall i :: 0 <= i < |qs| ==>
      var s := CalculateQuestionScore(valueQuestions[i].id, responses);
      && qs[i].questionId == valueQuestions[i].id
      && qs[i].valueId == valueId
      && qs[i].score == s.score
      && qs[i].totalResponses == s.totalResponses
      && 0 <= qs[i].score <= 100
  {
    var qs := seq(|valueQuestions|, i requires 0 <= i < |valueQuestions| =>
      FillIn(CalculateQuestionScore(valueQuestions[i].id, responses), valueQuestions, valueId));
    qs
  }

  /** The sum of the question scores, which calculateValueScore averages. */
  function SumQuestionScores(qs: seq<QuestionScore>): (s: int)
    ensures (forall i :: 0 <= i < |qs| ==> 0 <= qs[i].score <= 100) ==> 0 <= s <= 100 * |qs|
  {
    if qs == [] then 0 else qs[0].score + SumQuestionScores(qs[1..])
  }

  /**
   * The score of one value: one question score per question of that value,
   * in question order, each with that question's text and the value id, and
   * their mean rounded half up (0 when the value has no question).
   */
  function CalculateValueScore(valueId: string, questions: seq<Question>, responses: seq<Response>): (v: ValueScore)
    ensures v.valueId == valueId && v.valueName == ""
    ensures |v.questionScores| == |ValueQuestions(valueId, questions)|
    ensures forall i :: 0 <= i < |v.questionScores| ==>
      var q := ValueQuestions(valueId, questions)[i];
      var s := CalculateQuestionScore(q.id, responses);
      && v.questionScores[i].questionId == q.id
      && v.questionScores[i].valueId == valueId
      && v.questionScores[i].score == s.score
      && v.questionScores[i].totalResponses == s.totalResponses
    ensures 0 <= v.score <= 100
    ensures v.questionScores == [] ==> v.score == 0
    ensures v.questionScores != [] ==>
      v.score == RoundHalfUp(SumQuestionScores(v.questionScores), |v.questionScores|)
  {
    var questionScores := ScoreQuestions(ValueQuestions(valueId, questions), valueId, responses);
    var avgScore :=
      if |questionScores| > 0 then
        RoundHalfUpWithin(SumQuestionScores(questionScores), |questionScores|, 100);
        RoundHalfUp(SumQuestionScores(questionScores), |questionScores|)
      else 0;
    ValueScore(valueId, "", avgScore, questionScores)
  }

  /**
   * Every score record of a value carries the text of a question of that
   * value with the same id (the first such question, as `find` returns).
   */
  lemma ValueScoreTextsResolved(valueId: string, questions: seq<Question>, responses: seq<Response>)
    ensures var v := CalculateValueScore(valueId, questions, responses);
      forall i :: 0 <= i < |v.questionScores| ==>
        exists j :: 0 <= j < |questions| && questions[j].id == v.questionScores[i].questionId
                 && questions[j].valueId == valueId && v.questionScores[i].questionText == questions[j].text
  {
    var v := CalculateValueScore(valueId, questions, responses);
    forall i | 0 <= i < |v.questionScores|
      ensures exists j :: 0 <= j < |questions| && questions[j].id == v.questionScores[i].questionId
                       && questions[j].valueId == valueId && v.questionScores[i].questionText == questions[j].text
    {
      ValueScoreTextResolved(valueId, questions, responses, i);
    }
  }

  /** One record of `ValueScoreTextsResolved`. */
  lemma ValueScoreTextResolved(valueId: string, questions: seq<Question>, responses: seq<Response>, i: nat)
    requires i < |ValueQuestions(valueId, questions)|
    ensures var v := CalculateValueScore(valueId, questions, responses);
      exists j :: 0 <= j < |questions| && questions[j].id == v.questionScores[i].questionId
               && questions[j].valueId == valueId && v.questionScores[i].questionText == questions[j].text
  {
    var v := CalculateValueScore(valueId, questions, responses);
    var vq := ValueQuestions(valueId, questions);
    var found := FindQuestion(vq, vq[i].id);
    assert v.questionScores == ScoreQuestions(vq, valueId, responses);
    assert v.questionScores[i] == FillIn(CalculateQuestionScore(vq[i].id, responses), vq, valueId);
    var k :| 0 <= k < |vq| && vq[k] == found.value && found.value.id == vq[i].id;
    ValueQuestionsContents(valueId, questions);
    assert multiset(vq)[vq[k]] > 0;
    assert vq[k] in questions;
    var j :| 0 <= j < |questions| && questions[j] == vq[k];
  }

  /**
   * With distinct question ids, each score record carries exactly the text of
   * the question it was computed for.
   */
  lemma ValueScoreTexts(valueId: string, questions: seq<Question>, responses: seq<Response>)
    requires DistinctQuestionIds(questions)
    ensures var v := CalculateValueScore(valueId, questions, responses);
      var vq := ValueQuestions(valueId, questions);
      forall i :: 0 <= i < |vq| ==> v.questionScores[i].questionText == vq[i].text
  {
    var vq := ValueQuestions(valueId, questions);
    ValueQuestionsDistinct(valueId, questions);
    var v := CalculateValueScore(valueId, questions, responses);
    forall i | 0 <= i < |vq|
      ensures v.questionScores[i].questionText == vq[i].text
    {
      var found := FindQuestion(vq, vq[i].id);
      var k :| 0 <= k < |vq| && vq[k] == found.value && found.value.id == vq[i].id
               && forall j :: 0 <= j < k ==> vq[j].id != vq[i].id;
      assert k == i;
    }
  }

  // ---------------------------------------------------------------------
  // Survey results (calculateSurveyResults)
  // ---------------------------------------------------------------------

  /** The value scores of calculateSurveyResults: one per value, in value order, named after its value. */
  function ScoreValues(values: seq<Value>, questions: seq<Question>, responses: seq<Response>): (vs: seq<ValueScore>)
    ensures |vs| == |values|
    ensures forall i :: 0 <= i < |values| ==>
      var v := CalculateValueScore(values[i].id, questions, responses);
      && vs[i].valueId == values[i].id
      && vs[i].valueName == values[i].name
      && vs[i].score == v.score
      && vs[i].questionScores == v.questionScores
  {
    if values == [] then []
    else
      [CalculateValueScore(values[0].id, questions, responses).(valueName := values[0].name)]
      + ScoreValues(values[1..], questions, responses)
  }

  /**
   * The response rate of calculateSurveyResults: it exists only for a positive expected count,
   * and is then the rounded percentage of it that responded.
   */
  function ResponseRate(totalResponses: nat, expectedResponses: Option<int>): (rate: Option<int>)
    ensures rate.Some? <==> expectedResponses.Some? && expectedResponses.value > 0
    ensures rate.Some? ==>
      && rate.value >= 0
      && rate.value == RoundHalfUp(100 * totalResponses, expectedResponses.value)
  {
    if expectedResponses.Some? && expectedResponses.value > 0 then
      Some(RoundHalfUp(100 * totalResponses, expectedResponses.value))
    else None
  }

  /** The largest response count among one value's question scores, or 0 when there are none. */
  function MaxQuestionTotal(qs: seq<QuestionScore>): (m: nat)
    ensures forall i :: 0 <= i < |qs| ==> qs[i].totalResponses <= m
    ensures m == 0 || exists i :: 0 <= i < |qs| && qs[i].totalResponses == m
  {
    if qs == [] then 0
    else
      var rest := MaxQuestionTotal(qs[1..]);
      if qs[0].totalResponses >= rest then qs[0].totalResponses else rest
  }

  /** The largest response count among all question scores of all values, or 0 when there are none. */
  function MaxValueTotal(vs: seq<ValueScore>): (m: nat)
    ensures forall i, j :: 0 <= i < |vs| && 0 <= j < |vs[i].questionScores| ==>
      vs[i].questionScores[j].totalResponses <= m
    ensures m == 0 || (exists i, j :: 0 <= i < |vs| && 0 <= j < |vs[i].questionScores| &&
                                      vs[i].questionScores[j].totalResponses == m)
  {
    if vs == [] then 0
    else
      var here := MaxQuestionTotal(vs[0].questionScores);
      var rest := MaxValueTotal(vs[1..]);
      if here >= rest then here
      else
        var i, j :| 0 <= i < |vs[1..]| && 0 <= j < |vs[1..][i].questionScores| &&
          vs[1..][i].questionScores[j].totalResponses == rest;
        assert vs[i + 1].questionScores[j].totalResponses == rest;
        rest
  }

  /** The sum of the value scores, which calculateSurveyResults averages. */
  function SumValueScores(vs: seq<ValueScore>): (s: int)
    ensures (forall i :: 0 <= i < |vs| ==> 0 <= vs[i].score <= 100) ==> 0 <= s <= 100 * |vs|
  {
    if vs == [] then 0 else vs[0].score + SumValueScores(vs[1..])
  }

  /**
   * The whole result: one value score per value in the given order, the
   * largest per-question response count as the respondent count, the
   * rounded mean of the value scores, and a response rate only when a
   * positive expected count is given.
   */
  function CalculateSurveyResults(
    values: seq<Value>,
    questions: seq<Question>,
    responses: seq<Response>,
    expectedResponses: Option<int>): (r: SurveyResults)
    ensures |r.valueScores| == |values|
    ensures forall i :: 0 <= i < |values| ==>
      var v := CalculateValueScore(values[i].id, questions, responses);
      && r.valueScores[i].valueId == values[i].id
      && r.valueScores[i].valueName == values[i].name
      && r.valueScores[i].score == v.score
      && r.valueScores[i].questionScores == v.questionScores
    ensures forall i, j :: 0 <= i < |r.valueScores| && 0 <= j < |r.valueScores[i].questionScores| ==>
      r.valueScores[i].questionScores[j].totalResponses <= r.totalResponses
    ensures r.totalResponses == 0 || (exists i, j :: 0 <= i < |r.valueScores| && 0 <= j < |r.valueScores[i].questionScores| &&
                                                    r.valueScores[i].questionScores[j].totalResponses == r.totalResponses)
    ensures 0 <= r.overallScore <= 100
    ensures values == [] ==> r.overallScore == 0
    ensures values != [] ==>
      r.overallScore == RoundHalfUp(SumValueScores(r.valueScores), |values|)
    ensures r.expectedResponses == expectedResponses
    ensures r.responseRate.Some? <==> expectedResponses.Some? && expectedResponses.value > 0
    ensures r.responseRate.Some? ==>
      && r.responseRate.value >= 0
      && r.responseRate.value == RoundHalfUp(100 * r.totalResponses, expectedResponses.value)
  {
    var valueScores := ScoreValues(values, questions, responses);
    var totalResponses := MaxValueTotal(valueScores);
    var overallScore :=
      if |valueScores| > 0 then
        RoundHalfUpWithin(SumValueScores(valueScores), |valueScores|, 100);
        RoundHalfUp(SumValueScores(valueScores), |valueScores|)
      else 0;
    var responseRate := ResponseRate(totalResponses, expectedResponses);
    SurveyResults(totalResponses, expectedResponses, responseRate, valueScores, overallScore)
  }

  /** The respondent count never exceeds the size of the corpus. */
  lemma TotalResponsesAtMostCorpus(values: seq<Value>, questions: seq<Question>, responses: seq<Response>, expectedResponses: Option<int>)
    ensures CalculateSurveyResults(values, questions, responses, expectedResponses).totalResponses <= |responses|
  {
  }

  /**
   * The respondent count is at least the number of responses to any question
   * that belongs to one of the scored values.
   */
  lemma RespondentsAtLeast(values: seq<Value>, questions: seq<Question>, responses: seq<Response>,
                           expectedResponses: Option<int>, i: nat, j: nat)
    requires i < |values| && j < |questions| && questions[j].valueId == values[i].id
    ensures |ResponsesFor(questions[j].id, responses)| <=
      CalculateSurveyResults(values, questions, responses, expectedResponses).totalResponses
  {
    var r := CalculateSurveyResults(values, questions, responses, expectedResponses);
    var vq := ValueQuestions(values[i].id, questions);
    ValueQuestionsContents(values[i].id, questions);
    assert questions[j] in multiset(questions);
    assert questions[j] in multiset(vq);
    var t :| 0 <= t < |vq| && vq[t] == questions[j];
    assert r.valueScores[i].questionScores[t].totalResponses == |ResponsesFor(vq[t].id, responses)|;
  }

  /** A sum of zero scores is zero. */
  lemma {:induction false} SumOfZeroQuestionScores(qs: seq<QuestionScore>)
    requires forall i :: 0 <= i < |qs| ==> qs[i].score == 0
    ensures SumQuestionScores(qs) == 0
  {
    if qs != [] {
      SumOfZeroQuestionScores(qs[1..]);
    }
  }

  /** A sum of zero value scores is zero. */
  lemma {:induction false} SumOfZeroValueScores(vs: seq<ValueScore>)
    requires forall i :: 0 <= i < |vs| ==> vs[i].score == 0
    ensures SumValueScores(vs) == 0
  {
    if vs != [] {
      SumOfZeroValueScores(vs[1..]);
    }
  }

  /** Every value of an empty corpus scores 0. */
  lemma ValueScoreOfEmptyCorpus(valueId: string, questions: seq<Question>)
    ensures CalculateValueScore(valueId, questions, []).score == 0
  {
    var v := CalculateValueScore(valueId, questions, []);
    forall i | 0 <= i < |v.questionScores|
      ensures v.questionScores[i].score == 0
    {
      var q := ValueQuestions(valueId, questions)[i];
      assert ResponsesFor(q.id, []) == [];
    }
    SumOfZeroQuestionScores(v.questionScores);
    if v.questionScores != [] {
      RoundHalfUpWithin(0, |v.questionScores|, 0);
    }
  }

  /**
   * With no responses at all every score is 0, the respondent count is 0,
   * and a response rate, when one is computed, is 0.
   */
  lemma NoResponsesScoreZero(values: seq<Value>, questions: seq<Question>, expectedResponses: Option<int>)
    ensures var r := CalculateSurveyResults(values, questions, [], expectedResponses);
      && r.totalResponses == 0
      && r.overallScore == 0
      && (forall i :: 0 <= i < |r.valueScores| ==> r.valueScores[i].score == 0)
      && (r.responseRate.Some? ==> r.responseRate.value == 0)
  {
    var r := CalculateSurveyResults(values, questions, [], expectedResponses);
    TotalResponsesAtMostCorpus(values, questions, [], expectedResponses);
    forall i | 0 <= i < |r.valueScores|
      ensures r.valueScores[i].score == 0
    {
      ValueScoreOfEmptyCorpus(values[i].id, questions);
    }
    SumOfZeroValueScores(r.valueScores);
    if values != [] {
      RoundHalfUpWithin(0, |values|, 0);
    }
    if r.responseRate.Some? {
      RoundHalfUpWithin(0, expectedResponses.value, 0);
    }
  }
}
