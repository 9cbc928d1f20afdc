/**
 * The logic inside src/components/ResultsDashboard.tsx: the colour bands of
 * scores and of the participation rate, when the participation block is
 * shown, the stable descending sort of the value scores with the two best
 * and two worst values, and the in-place sort of one value's question
 * scores. The markup around them is not modelled.
 */
module Dashboard {
  import opened SurveyTypes
  import opened Calculations

  /** The three bands the dashboard colours a percentage with. */
  datatype Band = High | Medium | Low

  /** The engagement band of a score: 80 and up, 60 to 79, below 60. */
  function ScoreBand(score: int): Band {
    if score >= 80 then High else if score >= 60 then Medium else Low
  }

  /** `getScoreColor`: the badge classes for a score. */
  function ScoreColor(score: int): string {
    if score >= 80 then "text-green-600 bg-green-50 border-green-200"
    else if score >= 60 then "text-yellow-600 bg-yellow-50 border-yellow-200"
    else "text-red-600 bg-red-50 border-red-200"
  }

  /** `getBarColor`: the progress-bar class for a score. */
  function BarColor(score: int): string {
    if score >= 80 then "bg-green-500"
    else if score >= 60 then "bg-yellow-500"
    else "bg-red-500"
  }

  /** The caption under the overall score, with its leading emoji. */
  function ScoreVerdict(score: int): string {
    if score >= 80 then "\U{1F389} Excellent engagement levels"
    else if score >= 60 then "\U{1F44D} Good engagement"
    else "\U{26A0}\U{FE0F} Needs attention"
  }

  /** Two scores get the same badge exactly when they are in the same band. */
  lemma ScoreColorBands(a: int, b: int)
    ensures ScoreColor(a) == ScoreColor(b) <==> ScoreBand(a) == ScoreBand(b)
  {
  }

  /** Two scores get the same bar colour exactly when they are in the same band. */
  lemma BarColorBands(a: int, b: int)
    ensures BarColor(a) == BarColor(b) <==> ScoreBand(a) == ScoreBand(b)
  {
  }

  /** Two scores get the same caption exactly when they are in the same band. */
  lemma ScoreVerdictBands(a: int, b: int)
    ensures ScoreVerdict(a) == ScoreVerdict(b) <==> ScoreBand(a) == ScoreBand(b)
  {
  }

  /** The participation band of a response rate: 70 and up, 50 to 69, below 50. */
  function ParticipationBand(rate: int): Band {
    if rate >= 70 then High else if rate >= 50 then Medium else Low
  }

  /** The participation badge classes (the header badge). */
  function ParticipationBadge(rate: int): string {
    if rate >= 70 then "bg-green-100 text-green-800"
    else if rate >= 50 then "bg-yellow-100 text-yellow-800"
    else "bg-red-100 text-red-800"
  }

  /** The response-rate card classes. */
  function ParticipationCard(rate: int): string {
    if rate >= 70 then "text-green-600 bg-green-50 border-green-200"
    else if rate >= 50 then "text-yellow-600 bg-yellow-50 border-yellow-200"
    else "text-red-600 bg-red-50 border-red-200"
  }

  /** The caption on the response-rate card, with its leading emoji. */
  function ParticipationNote(rate: int): string {
    if rate >= 70 then "\U{2705} Great participation"
    else if rate >= 50 then "\U{26A0}\U{FE0F} Moderate participation"
    else "\U{274C} Low participation - results may not be representative"
  }

  /** Two rates get the same header badge exactly when they are in the same participation band. */
  lemma ParticipationBadgeBands(a: int, b: int)
    ensures ParticipationBadge(a) == ParticipationBadge(b) <==> ParticipationBand(a) == ParticipationBand(b)
  {
  }

  /** Two rates get the same card colour exactly when they are in the same participation band. */
  lemma ParticipationCardBands(a: int, b: int)
    ensures ParticipationCard(a) == ParticipationCard(b) <==> ParticipationBand(a) == ParticipationBand(b)
  {
  }

  /** Two rates get the same card caption exactly when they are in the same participation band. */
  lemma ParticipationNoteBands(a: int, b: int)
    ensures ParticipationNote(a) == ParticipationNote(b) <==> ParticipationBand(a) == ParticipationBand(b)
  {
  }

  /** JavaScript truthiness of an optional number: present and not zero. */
  predicate Truthy(n: Option<int>) {
    n.Some? && n.value != 0
  }

  /** Whether the participation block is rendered: both the expected count and the rate are truthy. */
  predicate ParticipationShown(results: SurveyResults) {
    Truthy(results.expectedResponses) && Truthy(results.responseRate)
  }

  /** A rounded percentage is 0 exactly when the fraction is below one half. */
  lemma RoundHalfUpZero(num: int, den: int)
    requires den > 0 && num >= 0
    ensures RoundHalfUp(num, den) == 0 <==> 2 * num < den
  {
  }

  /**
   * For computed results, the participation block is shown exactly when a
   * positive expected count was given and at least half a percent of it
   * responded: a rate that rounds to 0 hides the block.
   */
  lemma ParticipationShownIff(values: seq<Value>, questions: seq<Question>, responses: seq<Response>, expectedResponses: Option<int>)
    ensures var r := CalculateSurveyResults(values, questions, responses, expectedResponses);
      ParticipationShown(r) <==>
        && expectedResponses.Some? && expectedResponses.value > 0
        && 200 * r.totalResponses >= expectedResponses.value
  {
    var r := CalculateSurveyResults(values, questions, responses, expectedResponses);
    if expectedResponses.Some? && expectedResponses.value > 0 {
      RoundHalfUpZero(100 * r.totalResponses, expectedResponses.value);
    }
  }

  /** Results computed without an expected count (as the application does) never show the block. */
  lemma ParticipationNeverShownWithoutExpected(values: seq<Value>, questions: seq<Question>, responses: seq<Response>)
    ensures !ParticipationShown(CalculateSurveyResults(values, questions, responses, None))
  {
  }

  // ----- Stable descending sort -----

  /** Keys never increase along `s`. */
  ghost predicate NonIncreasing<T>(s: seq<T>, key: T -> int) {
    forall i, j :: 0 <= i < j < |s| ==> key(s[i]) >= key(s[j])
  }

  /** The elements of `s` whose key is `k`, in their order in `s`. */
  function WithKey<T>(s: seq<T>, key: T -> int, k: int): (r: seq<T>)
    ensures |r| <= |s|
    ensures forall i :: 0 <= i < |r| ==> key(r[i]) == k
  {
    if s == [] then []
    else (if key(s[0]) == k then [s[0]] else []) + WithKey(s[1..], key, k)
  }

  lemma {:induction false} WithKeyAppend<T>(a: seq<T>, b: seq<T>, key: T -> int, k: int)
    ensures WithKey(a + b, key, k) == WithKey(a, key, k) + WithKey(b, key, k)
  {
    if a == [] {
      assert a + b == b;
    } else {
      assert (a + b)[1..] == a[1..] + b;
      WithKeyAppend(a[1..], b, key, k);
    }
  }

  /** Puts `x` in front of the first element whose key is not larger. */
  function Insert<T>(x: T, t: seq<T>, key: T -> int): (r: seq<T>)
    ensures |r| == |t| + 1
  {
    if t == [] || key(t[0]) <= key(x) then [x] + t
    else [t[0]] + Insert(x, t[1..], key)
  }

  /**
   * A sorted copy of `s`, largest key first, made by a stable sort: elements
   * with equal keys keep their relative order.
   */
  function SortDescending<T>(s: seq<T>, key: T -> int): (r: seq<T>)
    ensures |r| == |s|
  {
    if s == [] then [] else Insert(s[0], SortDescending(s[1..], key), key)
  }

  lemma {:induction false} InsertPermutation<T>(x: T, t: seq<T>, key: T -> int)
    ensures multiset(Insert(x, t, key)) == multiset(t) + multiset{x}
  {
    if !(t == [] || key(t[0]) <= key(x)) {
      InsertPermutation(x, t[1..], key);
      assert t == [t[0]] + t[1..];
    }
  }

  lemma {:induction false} InsertOrdered<T>(x: T, t: seq<T>, key: T -> int)
    requires NonIncreasing(t, key)
    ensures NonIncreasing(Insert(x, t, key), key)
  {
    if !(t == [] || key(t[0]) <= key(x)) {
      InsertOrdered(x, t[1..], key);
      InsertPermutation(x, t[1..], key);
      var r := Insert(x, t[1..], key);
      forall i | 0 <= i < |r| ensures key(t[0]) >= key(r[i]) {
        assert r[i] in multiset(r);
        assert r[i] == x || r[i] in multiset(t[1..]);
      }
    }
  }

  lemma {:induction false} InsertStable<T>(x: T, t: seq<T>, key: T -> int, k: int)
    ensures WithKey(Insert(x, t, key), key, k) == (if key(x) == k then [x] else []) + WithKey(t, key, k)
  {
    if t == [] || key(t[0]) <= key(x) {
      WithKeyAppend([x], t, key, k);
    } else {
      var rest := Insert(x, t[1..], key);
      assert Insert(x, t, key) == [t[0]] + rest;
      InsertStable(x, t[1..], key, k);
      WithKeyAppend([t[0]], rest, key, k);
      WithKeyAppend([t[0]], t[1..], key, k);
      assert t == [t[0]] + t[1..];
      if key(t[0]) == k {
        assert key(x) != k;
      }
    }
  }

  /** The sorted copy holds exactly the elements of the original. */
  lemma {:induction false} SortPermutation<T>(s: seq<T>, key: T -> int)
    ensures multiset(SortDescending(s, key)) == multiset(s)
  {
    if s != [] {
      SortPermutation(s[1..], key);
      InsertPermutation(s[0], SortDescending(s[1..], key), key);
      assert s == [s[0]] + s[1..];
    }
  }

  /** The sorted copy is ordered by key, largest first. */
  lemma {:induction false} SortOrdered<T>(s: seq<T>, key: T -> int)
    ensures NonIncreasing(SortDescending(s, key), key)
  {
    if s != [] {
      SortOrdered(s[1..], key);
      InsertOrdered(s[0], SortDescending(s[1..], key), key);
    }
  }

  /** Elements with equal keys appear in the sorted copy in their original order. */
  lemma {:induction false} SortStable<T>(s: seq<T>, key: T -> int, k: int)
    ensures WithKey(SortDescending(s, key), key, k) == WithKey(s, key, k)
  {
    if s != [] {
      SortStable(s[1..], key, k);
      InsertStable(s[0], SortDescending(s[1..], key), key, k);
    }
  }

  // ----- Top and bottom values -----

  /** The key the value cards are sorted by. */
  function ValueKey(v: ValueScore): int {
    v.score
  }

  /** The value scores sorted best first, as a copy; the results' own order is left as it is. */
  function SortedValues(valueScores: seq<ValueScore>): (r: seq<ValueScore>)
    ensures |r| == |valueScores|
  {
    SortDescending(valueScores, ValueKey)
  }

  function Reverse<T>(s: seq<T>): (r: seq<T>)
    ensures |r| == |s|
    ensures forall i {:trigger r[i]} :: 0 <= i < |s| ==> r[i] == s[|s| - 1 - i]
  {
    if s == [] then [] else Reverse(s[1..]) + [s[0]]
  }

  /** The two best values, taken from the front of the sorted copy, or fewer when there are fewer. */
  function TopValues(valueScores: seq<ValueScore>): (r: seq<ValueScore>)
    ensures |r| == if |valueScores| < 2 then |valueScores| else 2
  {
    var sorted := SortedValues(valueScores);
    sorted[..if |sorted| < 2 then |sorted| else 2]
  }

  /** The two worst values, taken from the back of the sorted copy and listed lowest first, or fewer when there are fewer. */
  function BottomValues(valueScores: seq<ValueScore>): (r: seq<ValueScore>)
    ensures |r| == if |valueScores| < 2 then |valueScores| else 2
  {
    var sorted := SortedValues(valueScores);
    Reverse(sorted[if |sorted| < 2 then 0 else |sorted| - 2..])
  }

  /** In an ordered sequence, the first `n` elements outrank every element after them. */
  lemma PrefixDominates<T>(s: seq<T>, key: T -> int, n: nat)
    requires NonIncreasing(s, key) && n <= |s|
    ensures forall i, v :: 0 <= i < n && v in multiset(s) - multiset(s[..n]) ==> key(s[i]) >= key(v)
  {
    assert s == s[..n] + s[n..];
    assert multiset(s) - multiset(s[..n]) == multiset(s[n..]);
    forall i, v | 0 <= i < n && v in multiset(s[n..]) ensures key(s[i]) >= key(v) {
      var j :| 0 <= j < |s[n..]| && s[n..][j] == v;
      assert s[n + j] == v;
    }
  }

  /**
   * The top values are values of the results (with multiplicity), and none
   * of them scores below any value left out of the top.
   */
  lemma TopValuesAreBest(valueScores: seq<ValueScore>)
    ensures multiset(TopValues(valueScores)) <= multiset(valueScores)
    ensures forall i, v :: 0 <= i < |TopValues(valueScores)| && v in multiset(valueScores) - multiset(TopValues(valueScores)) ==>
      TopValues(valueScores)[i].score >= v.score
  {
    var sorted := SortedValues(valueScores);
    var n := if |sorted| < 2 then |sorted| else 2;
    SortPermutation(valueScores, ValueKey);
    SortOrdered(valueScores, ValueKey);
    PrefixDominates(sorted, ValueKey, n);
    assert sorted == sorted[..n] + sorted[n..];
  }

  /** The first top value is a best value of all. */
  lemma TopValueIsMaximum(valueScores: seq<ValueScore>)
    requires |valueScores| > 0
    ensures forall v :: v in valueScores ==> TopValues(valueScores)[0].score >= v.score
  {
    var sorted := SortedValues(valueScores);
    SortPermutation(valueScores, ValueKey);
    SortOrdered(valueScores, ValueKey);
    forall v | v in valueScores ensures TopValues(valueScores)[0].score >= v.score {
      assert v in multiset(sorted);
      var j :| 0 <= j < |sorted| && sorted[j] == v;
      assert ValueKey(sorted[0]) >= ValueKey(sorted[j]);
    }
  }

  /** Reversing the last elements of an ordered sequence lists them lowest first. */
  lemma ReversedSuffixAscending<T>(s: seq<T>, key: T -> int, m: nat)
    requires NonIncreasing(s, key) && m <= |s|
    ensures forall i, j :: 0 <= i < j < |Reverse(s[m..])| ==> key(Reverse(s[m..])[i]) <= key(Reverse(s[m..])[j])
  {
  }

  /** The reversed last elements of an ordered sequence are outranked by every element before them. */
  lemma ReversedSuffixOutranked<T>(s: seq<T>, key: T -> int, m: nat)
    requires NonIncreasing(s, key) && m <= |s|
    ensures forall i, v :: 0 <= i < |Reverse(s[m..])| && v in multiset(s[..m]) ==> key(Reverse(s[m..])[i]) <= key(v)
  {
  }

  /** The bottom values are values of the results, with multiplicity. */
  lemma BottomValuesFromResults(valueScores: seq<ValueScore>)
    ensures multiset(BottomValues(valueScores)) <= multiset(valueScores)
    ensures multiset(valueScores) - multiset(BottomValues(valueScores)) ==
      multiset(SortedValues(valueScores)[..if |valueScores| < 2 then 0 else |valueScores| - 2])
  {
    var sorted := SortedValues(valueScores);
    var m := if |sorted| < 2 then 0 else |sorted| - 2;
    SortPermutation(valueScores, ValueKey);
    ReversePermutation(sorted[m..]);
    assert sorted == sorted[..m] + sorted[m..];
  }

  /** The bottom values are listed lowest first. */
  lemma BottomValuesAscending(valueScores: seq<ValueScore>)
    ensures forall i, j :: 0 <= i < j < |BottomValues(valueScores)| ==>
      BottomValues(valueScores)[i].score <= BottomValues(valueScores)[j].score
  {
    var sorted := SortedValues(valueScores);
    var m := if |sorted| < 2 then 0 else |sorted| - 2;
    SortOrdered(valueScores, ValueKey);
    ReversedSuffixAscending(sorted, ValueKey, m);
    var bottom := BottomValues(valueScores);
    forall i, j | 0 <= i < j < |bottom| ensures bottom[i].score <= bottom[j].score {
      assert ValueKey(bottom[i]) <= ValueKey(bottom[j]);
    }
  }

  /** No bottom value scores above any value left out of the bottom. */
  lemma BottomValuesAreWorst(valueScores: seq<ValueScore>)
    ensures forall i, v :: 0 <= i < |BottomValues(valueScores)| && v in multiset(valueScores) - multiset(BottomValues(valueScores)) ==>
      BottomValues(valueScores)[i].score <= v.score
  {
    var sorted := SortedValues(valueScores);
    var m := if |sorted| < 2 then 0 else |sorted| - 2;
    var bottom := BottomValues(valueScores);
    assert bottom == Reverse(sorted[m..]);
    SortOrdered(valueScores, ValueKey);
    BottomValuesFromResults(valueScores);
    ReversedSuffixOutranked(sorted, ValueKey, m);
    forall i, v | 0 <= i < |bottom| && v in multiset(valueScores) - multiset(bottom) ensures bottom[i].score <= v.score {
      assert v in multiset(sorted[..m]);
      assert ValueKey(bottom[i]) <= ValueKey(v);
    }
  }

  /** The first bottom value is a worst value of all. */
  lemma BottomValueIsMinimum(valueScores: seq<ValueScore>)
    requires |valueScores| > 0
    ensures forall v :: v in valueScores ==> BottomValues(valueScores)[0].score <= v.score
  {
    var sorted := SortedValues(valueScores);
    SortPermutation(valueScores, ValueKey);
    SortOrdered(valueScores, ValueKey);
    forall v | v in valueScores ensures BottomValues(valueScores)[0].score <= v.score {
      assert v in multiset(sorted);
      var j :| 0 <= j < |sorted| && sorted[j] == v;
      assert ValueKey(sorted[j]) >= ValueKey(sorted[|sorted| - 1]);
    }
  }

  lemma {:induction false} ReversePermutation<T>(s: seq<T>)
    ensures multiset(Reverse(s)) == multiset(s)
  {
    if s != [] {
      ReversePermutation(s[1..]);
      assert s == [s[0]] + s[1..];
    }
  }

  // ----- In-place sort of one value's question scores -----

  /** The key the question rows are sorted by. */
  function QuestionKey(q: QuestionScore): int {
    q.score
  }

  /** Exchanging two positions keeps the same elements. */
  lemma SwapPermutation<T>(s: seq<T>, t: seq<T>, p: nat, q: nat)
    requires p < q < |s| == |t|
    requires t[p] == s[q] && t[q] == s[p]
    requires forall k :: 0 <= k < |s| && k != p && k != q ==> t[k] == s[k]
    ensures multiset(t) == multiset(s)
  {
    assert t == s[..p] + [s[q]] + s[p + 1..q] + [s[p]] + s[q + 1..];
    assert s == s[..p] + [s[p]] + s[p + 1..q] + [s[q]] + s[q + 1..];
  }

  /**
   * While the element that started at `i` sinks, it sits at `j`: the first
   * `i + 1` elements are ordered apart from it, and it beats everything it
   * has passed.
   */
  ghost predicate Sinking(s: seq<QuestionScore>, i: nat, j: nat) {
    && j <= i < |s|
    && (forall p, q :: 0 <= p < q <= i && p != j && q != j ==> s[p].score >= s[q].score)
    && (forall q :: j < q <= i ==> s[j].score > s[q].score)
  }

  /** Exchanging the sinking element with a lower neighbour keeps the elements and the state. */
  lemma SinkStep(s: seq<QuestionScore>, i: nat, j: nat)
    requires Sinking(s, i, j) && 0 < j && s[j - 1].score < s[j].score
    ensures Sinking(s[j - 1 := s[j]][j := s[j - 1]], i, j - 1)
    ensures multiset(s[j - 1 := s[j]][j := s[j - 1]]) == multiset(s)
  {
  }

  /** When the sinking element stops, the first `i + 1` elements are ordered. */
  lemma SinkDone(s: seq<QuestionScore>, i: nat, j: nat)
    requires Sinking(s, i, j) && (j == 0 || s[j - 1].score >= s[j].score)
    ensures forall p, q :: 0 <= p < q <= i ==> s[p].score >= s[q].score
  {
  }

  /**
   * One step of the in-place sort: the element at `i` moves left past every
   * element with a lower score, so the first `i + 1` elements are ordered.
   */
  method SinkInto(a: array<QuestionScore>, i: nat)
    requires i < a.Length
    requires forall p, q :: 0 <= p < q < i ==> a[p].score >= a[q].score
    modifies a
    ensures forall p, q :: 0 <= p < q <= i ==> a[p].score >= a[q].score
    ensures multiset(a[..]) == multiset(old(a[..]))
  {
    var j: nat := i;
    while j > 0 && a[j - 1].score < a[j].score
      invariant Sinking(a[..], i, j)
      invariant multiset(a[..]) == multiset(old(a[..]))
    {
      ghost var before := a[..];
      SinkStep(before, i, j);
      a[j - 1], a[j] := a[j], a[j - 1];
      assert a[..] == before[j - 1 := before[j]][j := before[j - 1]];
      j := j - 1;
    }
    SinkDone(a[..], i, j);
  }

  /**
   * The sort of one value's question scores before they are listed: it
   * reorders the array itself, highest score first, keeping the same elements.
   */
  method SortQuestionScores(a: array<QuestionScore>)
    modifies a
    ensures NonIncreasing(a[..], QuestionKey)
    ensures multiset(a[..]) == multiset(old(a[..]))
  {
    for i := 0 to a.Length
      invariant forall p, q :: 0 <= p < q < i ==> a[p].score >= a[q].score
      invariant multiset(a[..]) == multiset(old(a[..]))
    {
      SinkInto(a, i);
    }
  }
}
