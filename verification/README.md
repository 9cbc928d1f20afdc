# Engagement survey: a verified model of its logic

The application is a single-page React app for an employee-engagement survey. Employees rate Likert statements from 1 (strongly disagree) to 5 (strongly agree). Each statement belongs to one of the company's values. A dashboard then shows:
- each statement's agree-rate: the percentage of answers that are 4 or 5;
- each value's rounded mean of those rates;
- an overall score;
- the best and worst values.

This project models in Dafny the parts of the app that hold logic, and proves what they promise:

- **`Calculations`** (`calculations.dfy`) is the scoring engine of `src/utils/calculations.ts`. It consists of total functions over sequences. The zero-division policies are explicit, and rounding is exact round-half-up (`Math.round` over exact rationals).
- **`Form`** (`survey_form.dfy`) is the answer-capture state machine of `src/components/SurveyForm.tsx`. It is a class with the current index, the recorded answers and the submitting flag, plus one method per handler. The invariant `Valid` holds across all handlers:
  - the index names a question;
  - every answer is for a listed question, with a score from 1 to 5;
  - no question has two answers.
- **`AppModel`** (`app.dfy`) is the controller of `src/App.tsx`. It is a class with the current view, the latest submission, the corpus and the stored item. The invariant "the corpus is the seed responses followed by the latest submission" holds in every state. Every view change is one of the five transitions the rendered buttons allow.
- **`Dashboard`** (`dashboard.dfy`) is the logic of `src/components/ResultsDashboard.tsx`:
  - colour bands, captions and the participation block;
  - the stable descending sort of the value scores, with the top two and bottom two;
  - the in-place sort of each value's question scores on an `array`, proved ordered and a permutation.
- **`MockData`** (`mock_responses.dfy`) is the seed corpus of `src/data/mockResponses.ts`. `generateResponses` is a method with its two nested loops, proved against a specification function. The twenty-row table is proved to hold, for each mock question, exactly that question's generated block. Although the data announces 25 participants, rounding gives the `gro3` and `tra1` questions 26 answers each. A survey scored over the seed data alone therefore reports at least 26 respondents.
- **`SurveyTypes`** (`types.dfy`) holds the records of `src/types/index.ts`.

## Model

| member | source | states |
|---|---|---|
| Calculations.RoundHalfUp | src/utils/calculations.ts:18 | `Math.round(num / den)` over exact rationals; a non-negative quotient rounds to a non-negative result. Characterized by RoundHalfUpNearest |
| Calculations.RoundHalfUpNearest | src/utils/calculations.ts:18 | the rounded value r satisfies num/den - 1/2 < r <= num/den + 1/2, which is `Math.round`'s nearest-integer-halves-up rule |
| Calculations.RoundHalfUpWithin | src/utils/calculations.ts:42-44 | a rounded mean of numbers in [0, hi] lies in [0, hi] |
| Calculations.ResponsesFor | src/utils/calculations.ts:4 | the filtered list is no longer than the corpus, and each of its entries is for the question |
| Calculations.ResponsesForContents | src/utils/calculations.ts:4 | the filter keeps every response to the question with its multiplicity and drops every other response |
| Calculations.ResponsesForAppend | src/utils/calculations.ts:4 | filtering a concatenation is the concatenation of the filtered parts, so corpus order is kept |
| Calculations.ResponsesForNone | src/utils/calculations.ts:4-7 | a corpus with no response to the question filters to the empty list |
| Calculations.PositiveCount | src/utils/calculations.ts:17 | the agree count is at most the total; it is 0 iff no score is 4 or more, and it equals the total iff every score is |
| Calculations.CalculateQuestionScore | src/utils/calculations.ts:3-27 | `totalResponses` is the number of responses to the question. With none, the score is 0 and nothing is divided. Otherwise the score is 100·agree/total rounded half up, in [0,100]. Text and value id are left empty |
| Calculations.QuestionScoreIgnoresOtherQuestions | src/utils/calculations.ts:4-18 | adding responses to other questions, before or after, does not change a question's score record |
| Calculations.ValueQuestions | src/utils/calculations.ts:30 | the selected questions all belong to the value |
| Calculations.ValueQuestionsContents | src/utils/calculations.ts:30 | the filter keeps exactly the value's questions, with their multiplicity |
| Calculations.ValueQuestionsAppend | src/utils/calculations.ts:30 | selection distributes over concatenation, so question order is kept |
| Calculations.ValueQuestionsDistinct | src/utils/calculations.ts:30 | selecting from questions with distinct ids gives questions with distinct ids |
| Calculations.FindQuestion | src/utils/calculations.ts:35 | `find` gives nothing iff no question has the id; otherwise it gives the first question with that id |
| Calculations.FillIn | src/utils/calculations.ts:34-40 | filling in keeps id, score and count; when the id is among the value's questions, the value id is attached |
| Calculations.ScoreQuestions | src/utils/calculations.ts:31-40 | one record per value question in order, each carrying that question's id, score and count, the value id, and a score in [0,100] |
| Calculations.SumQuestionScores | src/utils/calculations.ts:43 | a sum of n scores in [0,100] lies in [0, 100·n] |
| Calculations.CalculateValueScore | src/utils/calculations.ts:29-52 | one question score per question of the value, in question order, each with that question's id, count, score and the value id. The value score is the rounded mean of those scores, 0 when there are none, and in [0,100]. The name is left empty |
| Calculations.ValueScoreTextsResolved | src/utils/calculations.ts:34-40 | every record carries the text of a question of that value with the same id |
| Calculations.ValueScoreTextResolved | src/utils/calculations.ts:34-40 | the same, for one record |
| Calculations.ValueScoreTexts | src/utils/calculations.ts:34-40 | with distinct question ids, record i carries exactly the text of question i of the value |
| Calculations.ScoreValues | src/utils/calculations.ts:60-64 | one value score per value, in value order, named after its value |
| Calculations.ResponseRate | src/utils/calculations.ts:74-76 | a rate exists iff a positive expected count is given, and it is then round(100·total/expected) |
| Calculations.MaxQuestionTotal | src/utils/calculations.ts:67 | the result bounds every count and is one of them, or 0 |
| Calculations.MaxValueTotal | src/utils/calculations.ts:66-68 | the result bounds every question count of every value and is one of them, or 0 |
| Calculations.SumValueScores | src/utils/calculations.ts:71 | a sum of n scores in [0,100] lies in [0, 100·n] |
| Calculations.CalculateSurveyResults | src/utils/calculations.ts:54-85 | value scores as above. `totalResponses` is the largest per-question count, or 0. `overallScore` is the rounded mean of the value scores, or 0 with no values, and in [0,100]. `expectedResponses` is passed through. The rate exists iff expected > 0 and is then the rounded percentage |
| Calculations.TotalResponsesAtMostCorpus | src/utils/calculations.ts:66-68 | the respondent count never exceeds the number of responses in the corpus |
| Calculations.RespondentsAtLeast | src/utils/calculations.ts:66-68 | the respondent count is at least the response count of every question of a scored value |
| Calculations.SumOfZeroQuestionScores | src/utils/calculations.ts:43 | a sum of zero scores is zero |
| Calculations.SumOfZeroValueScores | src/utils/calculations.ts:71 | a sum of zero value scores is zero |
| Calculations.ValueScoreOfEmptyCorpus | src/utils/calculations.ts:42-44 | with no responses, every value scores 0 |
| Calculations.NoResponsesScoreZero | src/utils/calculations.ts:66-76 | with no responses, the respondent count, every value score, the overall score and any rate are 0 |
| Form.Without | src/components/SurveyForm.tsx:25 | removing a question's answer leaves no answer for it, and only answers that were there; it keeps answers distinct |
| Form.WithoutContents | src/components/SurveyForm.tsx:25 | every other answer is kept, with its multiplicity |
| Form.WithoutUnanswered | src/components/SurveyForm.tsx:25 | removing an answer that is not there changes nothing |
| Form.AnsweredIdsCount | src/components/SurveyForm.tsx:65 | distinct answers have as many answered ids as answers |
| Form.QuestionIdsCount | src/components/SurveyForm.tsx:65 | questions with distinct ids have as many ids as questions |
| Form.AnswerCount | src/components/SurveyForm.tsx:65 | with answers only for listed questions with distinct ids, `responses.length <= questions.length`, with equality iff every question is answered |
| Form.ToResponses | src/components/SurveyForm.tsx:52-56 | one Response per recorded answer, in recorded order, with the same question id and score |
| Form.SubmissionCountFor | src/components/SurveyForm.tsx:52-56 | a submission of distinct answers holds one response for each answered question and none for any other |
| Form.SubmissionOnePerQuestion | src/components/SurveyForm.tsx:49-56 | a complete submission holds exactly one response for every question |
| Form.FindAnswer | src/components/SurveyForm.tsx:22 | `find` gives an answer for the question that is among the answers, and gives nothing iff the question is unanswered |
| Form.SurveyForm.constructor | src/components/SurveyForm.tsx:16-18 | first question, no answers, not submitting; the invariant holds |
| Form.SurveyForm.CurrentResponse | src/components/SurveyForm.tsx:22 | the current answer is a recorded answer for the question on screen, and is absent iff that question is unanswered |
| Form.SurveyForm.IsComplete | src/components/SurveyForm.tsx:65 | `isComplete`: as many answers as questions; characterized by CompleteFormSubmitsEveryQuestion |
| Form.SurveyForm.CanProceed | src/components/SurveyForm.tsx:66 | `canProceed` iff the question on screen has an answer |
| Form.SurveyForm.NextEnabled | src/components/SurveyForm.tsx:192-195 | an enabled Next button implies the question on screen is answered and is not the last one |
| Form.SurveyForm.HandleResponse | src/components/SurveyForm.tsx:24-35 | the answers become the old answers without this question's answer, followed by the new one. The index advances by one unless on the last question. The invariant is kept, so the index stays in range and no question has two answers |
| Form.SurveyForm.HandlePrevious | src/components/SurveyForm.tsx:37-41 | the index decreases by one only when above 0, and the invariant is kept |
| Form.SurveyForm.HandleNext | src/components/SurveyForm.tsx:43-47 | the index increases by one only when below the last, and no answer check is made |
| Form.SurveyForm.HandleSubmit | src/components/SurveyForm.tsx:49-63 | with fewer answers than questions nothing happens. Otherwise the form is marked submitting and one Response per recorded answer is emitted, in order |
| Form.CompleteFormSubmitsEveryQuestion | src/components/SurveyForm.tsx:65 | on a valid form with distinct question ids, `isComplete` iff every question is answered, and a complete submission holds one response per question |
| AppModel.App.constructor | src/App.tsx:12-14 | overview, no submission, corpus = seed; the storage is as found |
| AppModel.Mount | src/App.tsx:12-14 | the first render: overview, no submission, corpus exactly `mockResponses` |
| AppModel.App.LoadSaved | src/App.tsx:17-29 | a stored list that parses becomes the submission and the corpus becomes `mockResponses` followed by it; a missing or unparseable item changes nothing |
| AppModel.App.StartSurvey | src/App.tsx:60 | overview → survey, an allowed step |
| AppModel.App.ViewResults | src/App.tsx:61 | overview → results, an allowed step |
| AppModel.App.LeaveSurvey | src/App.tsx:69 | survey → overview, an allowed step |
| AppModel.App.LeaveResults | src/App.tsx:76 | results → overview, an allowed step |
| AppModel.App.HandleSurveyComplete | src/App.tsx:31-39 | the submission replaces any earlier one. The corpus becomes exactly `mockResponses` followed by it, it is stored, and the results are shown |
| AppModel.App.HandleReset | src/App.tsx:41-46 | whatever came before: no submission, corpus exactly `mockResponses`, stored copy removed, overview shown |
| AppModel.App.CurrentResults | src/App.tsx:48-52 | results over the current corpus with no expected count. There is therefore no rate, one score per survey value in order, an overall score in [0,100], and a respondent count no larger than the corpus |
| AppModel.SubmissionAddsOnePerQuestion | src/App.tsx:36 | after a complete submission, every question has exactly one more response in the corpus than in `mockResponses` |
| AppModel.SubmissionCountOnMockQuestion | src/App.tsx:36 | a mock question answered in the submission has the sum of its rounded buckets plus one responses in the corpus (26 for most rows, 27 for `gro3` and `tra1`) |
| Dashboard.ScoreColor | src/components/ResultsDashboard.tsx:12-16 | `getScoreColor`, with its exact class strings; characterized by ScoreColorBands |
| Dashboard.BarColor | src/components/ResultsDashboard.tsx:18-22 | `getBarColor`, with its exact class strings; characterized by BarColorBands |
| Dashboard.ScoreVerdict | src/components/ResultsDashboard.tsx:97-99 | the overall caption with its emoji; characterized by ScoreVerdictBands |
| Dashboard.ScoreColorBands | src/components/ResultsDashboard.tsx:12-16 | two scores get the same badge classes iff they are in the same band |
| Dashboard.BarColorBands | src/components/ResultsDashboard.tsx:18-22 | two scores get the same bar colour iff they are in the same band, so bar and badge partition scores alike |
| Dashboard.ScoreVerdictBands | src/components/ResultsDashboard.tsx:97-99 | the overall caption changes exactly at the same band edges |
| Dashboard.ParticipationBadge | src/components/ResultsDashboard.tsx:48-52 | the header badge classes for a rate; characterized by ParticipationBadgeBands |
| Dashboard.ParticipationCard | src/components/ResultsDashboard.tsx:106-110 | the response-rate card classes; characterized by ParticipationCardBands |
| Dashboard.ParticipationNote | src/components/ResultsDashboard.tsx:118-120 | the card caption with its emoji; characterized by ParticipationNoteBands |
| Dashboard.ParticipationShown | src/components/ResultsDashboard.tsx:105 | the guard `expectedResponses && responseRate` under JavaScript truthiness; characterized by ParticipationShownIff |
| Dashboard.ParticipationBadgeBands | src/components/ResultsDashboard.tsx:48-52 | two rates get the same header badge iff they are in the same participation band |
| Dashboard.ParticipationCardBands | src/components/ResultsDashboard.tsx:106-110 | two rates get the same card colour iff they are in the same participation band |
| Dashboard.ParticipationNoteBands | src/components/ResultsDashboard.tsx:118-120 | two rates get the same card caption iff they are in the same participation band |
| Dashboard.RoundHalfUpZero | src/utils/calculations.ts:75 | a rounded percentage is 0 iff the fraction is below one half |
| Dashboard.ParticipationShownIff | src/components/ResultsDashboard.tsx:105 | for computed results, the participation block shows iff a positive expected count is given and at least half a percent of it responded; a rate of 0 hides it |
| Dashboard.ParticipationNeverShownWithoutExpected | src/components/ResultsDashboard.tsx:44 | results computed without an expected count, as the app computes them, never show it |
| Dashboard.Insert | src/components/ResultsDashboard.tsx:24 | one insertion step of the stable sort, one element longer; characterized by InsertPermutation, InsertOrdered and InsertStable |
| Dashboard.SortDescending | src/components/ResultsDashboard.tsx:24 | the copy sort keeps the length; characterized by SortPermutation, SortOrdered and SortStable |
| Dashboard.SortPermutation | src/components/ResultsDashboard.tsx:24 | the sorted copy is a permutation of the value scores |
| Dashboard.SortOrdered | src/components/ResultsDashboard.tsx:24 | the sorted copy is non-increasing by score |
| Dashboard.SortStable | src/components/ResultsDashboard.tsx:24 | values with equal scores keep their relative order, as in JavaScript's stable sort |
| Dashboard.InsertPermutation | src/components/ResultsDashboard.tsx:24 | one insertion step adds exactly the inserted element |
| Dashboard.InsertOrdered | src/components/ResultsDashboard.tsx:24 | one insertion step keeps the order |
| Dashboard.InsertStable | src/components/ResultsDashboard.tsx:24 | one insertion step keeps the order among equal keys |
| Dashboard.SortedValues | src/components/ResultsDashboard.tsx:24 | the sorted copy has as many values as the results |
| Dashboard.TopValues | src/components/ResultsDashboard.tsx:25 | min(2, n) values |
| Dashboard.TopValuesAreBest | src/components/ResultsDashboard.tsx:25 | the top values are values of the results, with multiplicity, and none scores below any value left out |
| Dashboard.TopValueIsMaximum | src/components/ResultsDashboard.tsx:25 | the first top value has the highest score of all |
| Dashboard.Reverse | src/components/ResultsDashboard.tsx:26 | element i of the reversal is element n-1-i of the input |
| Dashboard.ReversePermutation | src/components/ResultsDashboard.tsx:26 | reversal is a permutation |
| Dashboard.BottomValues | src/components/ResultsDashboard.tsx:26 | min(2, n) values |
| Dashboard.BottomValuesFromResults | src/components/ResultsDashboard.tsx:26 | the bottom values are values of the results, with multiplicity, and the rest are exactly the sorted values before the last two |
| Dashboard.BottomValuesAscending | src/components/ResultsDashboard.tsx:26 | the bottom values are listed lowest first |
| Dashboard.BottomValuesAreWorst | src/components/ResultsDashboard.tsx:26 | no bottom value scores above any value left out |
| Dashboard.BottomValueIsMinimum | src/components/ResultsDashboard.tsx:26 | the first bottom value has the lowest score of all |
| Dashboard.SinkInto | src/components/ResultsDashboard.tsx:190-191 | one insertion pass: the prefix up to i becomes ordered, and the array stays a permutation of what it was |
| Dashboard.SortQuestionScores | src/components/ResultsDashboard.tsx:190-191 | the question scores, sorted in place, are non-increasing by score and a permutation of the original array |
| MockData.BucketSize | src/data/mockResponses.ts:42 | the response count of one bucket, `Math.round(count * percentage)`; characterized by BucketSizeNearest |
| MockData.BucketSizeNearest | src/data/mockResponses.ts:42 | a bucket is the whole number nearest to count·percentage, a half rounded up |
| MockData.Generated | src/data/mockResponses.ts:37-53 | the block generateResponses returns, bucket after bucket; characterized by GenerateResponses, GeneratedShape, GeneratedGrouped and GeneratedContents |
| MockData.Repeat | src/data/mockResponses.ts:43-49 | n copies of the response |
| MockData.RepeatContents | src/data/mockResponses.ts:43-49 | the run holds that response n times and nothing else |
| MockData.GenerateResponses | src/data/mockResponses.ts:37-53 | the loops build exactly the generated block: the bucket for score 1, then score 2, and so on |
| MockData.GeneratedShape | src/data/mockResponses.ts:41-46 | every generated response is for the given question and scores between 1 and the number of buckets; the block's length is the sum of the bucket sizes |
| MockData.GeneratedGrouped | src/data/mockResponses.ts:41-50 | scores never decrease along the block |
| MockData.GeneratedContents | src/data/mockResponses.ts:42-43 | score k+1 occurs exactly round(count·distribution[k]) times, and nothing else occurs |
| MockData.ResponsesForOwnBlock | src/data/mockResponses.ts:44-46 | a block for one question passes that question's filter whole |
| MockData.CorpusShape | src/data/mockResponses.ts:5-35 | every response of a corpus of five-bucket rows is for a row's question and scores 1 to 5 |
| MockData.MockResponsesShape | src/data/mockResponses.ts:5-35 | every seed response is for one of the twenty mock questions and scores 1 to 5 |
| MockData.CorpusResponsesFor | src/data/mockResponses.ts:5-35 | with distinct row ids, a row's question's responses are exactly its generated block |
| MockData.CorpusWithout | src/data/mockResponses.ts:5-35 | a corpus without rows for a question has no responses to it |
| MockData.Corpus | src/data/mockResponses.ts:5-35 | one generated block per table row, in table order; characterized by CorpusShape, CorpusResponsesFor and CorpusWithout |
| MockData.MockResponses | src/data/mockResponses.ts:5-35 | `mockResponses`, the corpus of the twenty-row `MockTable` constant (lines 7-34) generated with count 25; characterized by MockResponsesShape and MockResponsesPerQuestion |
| MockData.MockResponsesPerQuestion | src/data/mockResponses.ts:7-34 | there are twenty rows, and each mock question's responses are exactly its block generated with count 25 |
| MockData.MockQuestionCount | src/data/mockResponses.ts:7-34 | a mock question has as many seed answers as its rounded buckets add up to |
| MockData.TotalBucketSizeFive | src/data/mockResponses.ts:41-43 | a five-bucket block is as long as its five rounded buckets together |
| MockData.Gro3RowHasTwentySix | src/data/mockResponses.ts:21 | the `gro3` row generates 26 answers, not 25 |
| MockData.Tra1RowHasTwentySix | src/data/mockResponses.ts:25 | the `tra1` row generates 26 answers, not 25 |
| MockData.SeedRespondentsExceedParticipants | src/data/mockResponses.ts:3-35 | over the seed corpus alone, a survey scoring the `gro3` question reports at least 26 respondents, although the data announces 25 participants |

## Left out

- Timestamps are not modelled. `Response` has no `timestamp`, so the `new Date()` of a submission and the `Math.random()` offsets of the seed data are dropped.
- Rounding uses exact rationals rather than floating point. `Math.round` over float division is modelled as exact round-half-up. Bucket sizes use percentages in hundredths, so 5 stands for 0.05. For the twenty mock rows the float products round to the same counts. Elsewhere the two can differ by 1 where a ratio lands on a half:
  - with 23 agreeing answers out of 40, the app computes `Math.round((23 / 40) * 100)` on the float 57.49999999999999 and shows 57;
  - `RoundHalfUp(2300, 40)` gives 58;
  - with 25 to 28 answers per question, the totals of the seed data plus one submission, no percentage lands on a half.
- `expectedResponses` is an optional integer. Non-integer, `NaN` and infinite numbers are not modelled.
- The 600 ms auto-advance and the 1000 ms submission delay are taken as instant steps. The stale index a delayed callback captures is not modelled. The app's `onComplete` call is the `HandleSurveyComplete` method applied to what `HandleSubmit` returns.
- Local storage and `JSON.parse` are modelled as the `storage` field holding one `StoredItem`:
  - an empty string, which is falsy, counts as `Missing`;
  - a value that parses but is not a list of responses counts as `Unparseable`, and `LoadSaved` then leaves the state unchanged;
  - the source differs there, and none of the following is modelled:
    - for a value that cannot be iterated (a number, `true`, `null`, a plain object), the spread at `src/App.tsx:23` throws inside the `try`, after the submission has already been set;
    - a JSON string or array does not throw: its elements are appended to the corpus, so `"abc"` adds the characters `'a'`, `'b'` and `'c'`;
    - a `null` element, as in `[null]`, makes the results computation throw on `r.questionId`, so the app fails to render.
- The component tree is abstracted:
  - the props `survey.values` and `survey.questions` become constructor parameters;
  - the seed corpus reaches the `App` class through `Mount`, and the class itself takes any seed;
  - `src/data/questions.ts`, `src/data/values.ts` and `src/data/survey.ts` are not part of this model. They are constant data.
- Form.SurveyForm.constructor requires at least one question. With none, the source reads `questions[0].id` and throws on first render.
- AppModel.App.HandleSurveyComplete requires the survey view: it is only reachable from the form.
- Pure presentation is not part of this model: JSX markup, `SurveyOverview.tsx`, `ViewTransition.tsx` and the progress-bar percentage.
- Dashboard.SortQuestionScores: stability is not stated for the in-place sort, although the copy sort proves it. The array it sorts stands alone. The model does not capture that the source sorts the arrays held inside the results object during rendering.
- The copy sort leaving the results' own order untouched needs no separate statement: `SortedValues` is a function over values, which nothing can change.
