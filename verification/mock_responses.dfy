/**
 * The seed corpus of src/data/mockResponses.ts: `generateResponses` builds,
 * for one question, a block of responses grouped by score, and the corpus
 * is one such block per question of the demo survey. Distributions are
 * written in hundredths (5 for 0.05); the random timestamps are not
 * modelled.
 */
module MockData {
  import opened SurveyTypes
  import opened Calculations

  /**
   * How many responses one score gets: the share `percent` (in hundredths)
   * of `count`, rounded to a whole number of responses (see BucketSizeNearest).
   */
  function BucketSize(count: nat, percent: nat): nat {
    RoundHalfUp(count * percent, 100)
  }

  /** A bucket is the whole number nearest to count · percent / 100, a half rounded up. */
  lemma BucketSizeNearest(count: nat, percent: nat)
    ensures var n := BucketSize(count, percent);
      2 * (count * percent) - 100 < 200 * n <= 2 * (count * percent) + 100
  {
    RoundHalfUpNearest(count * percent, 100);
  }

  /** `n` copies of one response. */
  function Repeat(r: Response, n: nat): (s: seq<Response>)
    ensures |s| == n
    ensures forall i :: 0 <= i < n ==> s[i] == r
  {
    if n == 0 then [] else Repeat(r, n - 1) + [r]
  }

  /** A run of copies holds that response `n` times and nothing else. */
  lemma {:induction false} RepeatContents(r: Response, n: nat)
    ensures forall x :: multiset(Repeat(r, n))[x] == if x == r then n else 0
  {
    if n > 0 {
      RepeatContents(r, n - 1);
    }
  }

  /** The sum of all bucket sizes: the length of a generated block. */
  function TotalBucketSize(count: nat, distribution: seq<nat>): nat {
    if distribution == [] then 0
    else TotalBucketSize(count, distribution[..|distribution| - 1]) + BucketSize(count, distribution[|distribution| - 1])
  }

  /** The block `generateResponses` returns: the bucket for score 1, then score 2, and so on. */
  function Generated(questionId: string, count: nat, distribution: seq<nat>): seq<Response> {
    if distribution == [] then []
    else
      var k := |distribution| - 1;
      Generated(questionId, count, distribution[..k])
      + Repeat(Response(questionId, k + 1), BucketSize(count, distribution[k]))
  }

  /**
   * generateResponses: the loop over the buckets and, inside it, the counted
   * loop that pushes one bucket's responses.
   */
  method GenerateResponses(questionId: string, count: nat, distribution: seq<nat>) returns (responses: seq<Response>)
    ensures responses == Generated(questionId, count, distribution)
  {
    responses := [];
    for scoreIndex := 0 to |distribution|
      invariant responses == Generated(questionId, count, distribution[..scoreIndex])
    {
      var responseCount := BucketSize(count, distribution[scoreIndex]);
      for i := 0 to responseCount
        invariant responses == Generated(questionId, count, distribution[..scoreIndex])
                               + Repeat(Response(questionId, scoreIndex + 1), i)
      {
        responses := responses + [Response(questionId, scoreIndex + 1)];
      }
      assert distribution[..scoreIndex + 1][..scoreIndex] == distribution[..scoreIndex];
    }
    assert distribution[..|distribution|] == distribution;
  }

  /**
   * Every generated response is for the given question and scores between 1
   * and the number of buckets, and the block is as long as all buckets together.
   */
  lemma {:induction false} GeneratedShape(questionId: string, count: nat, distribution: seq<nat>)
    ensures var g := Generated(questionId, count, distribution);
      && |g| == TotalBucketSize(count, distribution)
      && forall i :: 0 <= i < |g| ==> g[i].questionId == questionId && 1 <= g[i].score <= |distribution|
  {
    if distribution != [] {
      var k := |distribution| - 1;
      GeneratedShape(questionId, count, distribution[..k]);
    }
  }

  /** Buckets are appended in score order, so scores never decrease along the block. */
  lemma {:induction false} GeneratedGrouped(questionId: string, count: nat, distribution: seq<nat>)
    ensures var g := Generated(questionId, count, distribution);
      forall i, j :: 0 <= i <= j < |g| ==> g[i].score <= g[j].score
  {
    if distribution != [] {
      var k := |distribution| - 1;
      GeneratedGrouped(questionId, count, distribution[..k]);
      GeneratedShape(questionId, count, distribution[..k]);
    }
  }

  /**
   * Score s + 1 occurs exactly `round(count * distribution[s])` times, and
   * nothing else occurs.
   */
  lemma {:induction false} GeneratedContents(questionId: string, count: nat, distribution: seq<nat>)
    ensures forall x :: multiset(Generated(questionId, count, distribution))[x] ==
                        if x.questionId == questionId && 1 <= x.score <= |distribution|
                        then BucketSize(count, distribution[x.score - 1]) else 0
  {
    if distribution != [] {
      var k := |distribution| - 1;
      GeneratedContents(questionId, count, distribution[..k]);
      RepeatContents(Response(questionId, k + 1), BucketSize(count, distribution[k]));
    }
  }

  /** Every response of a single-question block passes that question's filter. */
  lemma {:induction false} ResponsesForOwnBlock(questionId: string, block: seq<Response>)
    requires forall i :: 0 <= i < |block| ==> block[i].questionId == questionId
    ensures ResponsesFor(questionId, block) == block
  {
    if block != [] {
      ResponsesForOwnBlock(questionId, block[1..]);
      assert block == [block[0]] + block[1..];
    }
  }

  /** The number of responses every mock question is generated with. */
  const MockCount: nat := 25

  /** The rows of the seed data: each mock question's id and its score distribution, in hundredths. */
  const MockTable: seq<(string, seq<nat>)> := [
    ("col1", [5, 5, 20, 40, 30]),
    ("col2", [8, 12, 25, 35, 20]),
    ("col3", [4, 8, 28, 40, 20]),
    ("col4", [4, 4, 22, 45, 25]),
    ("cus1", [12, 16, 32, 28, 12]),
    ("cus2", [8, 12, 40, 28, 12]),
    ("cus3", [4, 8, 28, 35, 25]),
    ("cus4", [8, 8, 24, 40, 20]),
    ("gro1", [16, 20, 32, 24, 8]),
    ("gro2", [12, 16, 36, 28, 8]),
    ("gro3", [8, 12, 35, 30, 15]),
    ("gro4", [20, 16, 28, 24, 12]),
    ("tra1", [4, 8, 20, 38, 30]),
    ("tra2", [8, 8, 24, 35, 25]),
    ("tra3", [4, 12, 24, 40, 20]),
    ("tra4", [12, 8, 20, 35, 25]),
    ("wel1", [24, 20, 28, 20, 8]),
    ("wel2", [20, 24, 32, 16, 8]),
    ("wel3", [16, 20, 36, 20, 8]),
    ("wel4", [28, 16, 28, 20, 8])
  ]

  /** The concatenation of one generated block per table row, in table order. */
  function Corpus(table: seq<(string, seq<nat>)>): seq<Response> {
    if table == [] then []
    else Generated(table[0].0, MockCount, table[0].1) + Corpus(table[1..])
  }

  /** The seed corpus the application starts from: one block per mock question, in table order. */
  function MockResponses(): seq<Response> {
    Corpus(MockTable)
  }

  /** Every response of a corpus of five-bucket rows is for a row's question and scores 1 to 5. */
  lemma {:induction false} CorpusShape(table: seq<(string, seq<nat>)>)
    requires forall i :: 0 <= i < |table| ==> |table[i].1| == 5
    ensures forall x :: x in Corpus(table) ==>
      1 <= x.score <= 5 && exists i :: 0 <= i < |table| && table[i].0 == x.questionId
  {
    if table != [] {
      var head := Generated(table[0].0, MockCount, table[0].1);
      GeneratedShape(table[0].0, MockCount, table[0].1);
      CorpusShape(table[1..]);
      forall x | x in Corpus(table)
        ensures 1 <= x.score <= 5 && exists i :: 0 <= i < |table| && table[i].0 == x.questionId
      {
        if x in head {
          var j :| 0 <= j < |head| && head[j] == x;
        } else {
          assert x in Corpus(table[1..]);
          var i :| 0 <= i < |table[1..]| && table[1..][i].0 == x.questionId;
          assert table[i + 1].0 == x.questionId;
        }
      }
    }
  }

  /** Every seed response is for one of the twenty mock questions and scores 1 to 5. */
  lemma MockResponsesShape()
    ensures forall x :: x in MockResponses() ==>
      1 <= x.score <= 5 && exists i :: 0 <= i < |MockTable| && MockTable[i].0 == x.questionId
  {
    CorpusShape(MockTable);
  }

  /** No two rows of a table are for the same question. */
  predicate DistinctRows(table: seq<(string, seq<nat>)>) {
    forall i, j :: 0 <= i < j < |table| ==> table[i].0 != table[j].0
  }

  /**
   * In a corpus built from rows with distinct ids, the responses to a row's
   * question are exactly that row's generated block.
   */
  lemma {:induction false} CorpusResponsesFor(table: seq<(string, seq<nat>)>, k: nat)
    requires DistinctRows(table) && k < |table|
    ensures ResponsesFor(table[k].0, Corpus(table)) == Generated(table[k].0, MockCount, table[k].1)
  {
    var id := table[k].0;
    var head := Generated(table[0].0, MockCount, table[0].1);
    GeneratedShape(table[0].0, MockCount, table[0].1);
    ResponsesForAppend(id, head, Corpus(table[1..]));
    if k == 0 {
      ResponsesForOwnBlock(id, head);
      CorpusWithout(table[1..], id);
    } else {
      ResponsesForNone(id, head);
      CorpusResponsesFor(table[1..], k - 1);
    }
  }

  /** A corpus whose rows are all for other questions has no response to `id`. */
  lemma {:induction false} CorpusWithout(table: seq<(string, seq<nat>)>, id: string)
    requires forall i :: 0 <= i < |table| ==> table[i].0 != id
    ensures ResponsesFor(id, Corpus(table)) == []
  {
    if table != [] {
      var head := Generated(table[0].0, MockCount, table[0].1);
      GeneratedShape(table[0].0, MockCount, table[0].1);
      ResponsesForAppend(id, head, Corpus(table[1..]));
      ResponsesForNone(id, head);
      CorpusWithout(table[1..], id);
    }
  }

  /**
   * Each of the twenty mock questions has exactly its own block in the seed
   * corpus, generated with a count of 25.
   */
  lemma MockResponsesPerQuestion(k: nat)
    requires k < |MockTable|
    ensures |MockTable| == 20
    ensures ResponsesFor(MockTable[k].0, MockResponses()) == Generated(MockTable[k].0, 25, MockTable[k].1)
  {
    assert DistinctRows(MockTable);
    CorpusResponsesFor(MockTable, k);
  }

  /**
   * A mock question has as many seed answers as its rounded buckets add up
   * to, which is not always the count of 25 the block is generated with.
   */
  lemma MockQuestionCount(k: nat)
    requires k < |MockTable|
    ensures |ResponsesFor(MockTable[k].0, MockResponses())| == TotalBucketSize(MockCount, MockTable[k].1)
  {
    MockResponsesPerQuestion(k);
    GeneratedShape(MockTable[k].0, MockCount, MockTable[k].1);
  }

  /** The size of a five-bucket block, written out bucket by bucket. */
  lemma TotalBucketSizeFive(count: nat, d: seq<nat>)
    requires |d| == 5
    ensures TotalBucketSize(count, d) ==
      BucketSize(count, d[0]) + BucketSize(count, d[1]) + BucketSize(count, d[2]) + BucketSize(count, d[3]) + BucketSize(count, d[4])
  {
    assert d[..4][..3] == d[..3] && d[..4][3] == d[3];
    assert d[..3][..2] == d[..2] && d[..3][2] == d[2];
    assert d[..2][..1] == d[..1] && d[..2][1] == d[1];
    assert d[..1][..0] == d[..0] == [] && d[..1][0] == d[0];
    calc {
      TotalBucketSize(count, d);
      TotalBucketSize(count, d[..4]) + BucketSize(count, d[4]);
      TotalBucketSize(count, d[..3]) + BucketSize(count, d[3]) + BucketSize(count, d[4]);
      TotalBucketSize(count, d[..2]) + BucketSize(count, d[2]) + BucketSize(count, d[3]) + BucketSize(count, d[4]);
      TotalBucketSize(count, d[..1]) + BucketSize(count, d[1]) + BucketSize(count, d[2]) + BucketSize(count, d[3]) + BucketSize(count, d[4]);
      TotalBucketSize(count, d[..0]) + BucketSize(count, d[0]) + BucketSize(count, d[1]) + BucketSize(count, d[2]) + BucketSize(count, d[3]) + BucketSize(count, d[4]);
    }
  }

  /** The `gro3` row rounds to 2 + 3 + 9 + 8 + 4 = 26 answers, one more than its count. */
  lemma Gro3RowHasTwentySix()
    ensures MockTable[10].0 == "gro3" && TotalBucketSize(MockCount, MockTable[10].1) == 26
  {
    TotalBucketSizeFive(MockCount, MockTable[10].1);
  }

  /** The `tra1` row rounds to 1 + 2 + 5 + 10 + 8 = 26 answers, one more than its count. */
  lemma Tra1RowHasTwentySix()
    ensures MockTable[12].0 == "tra1" && TotalBucketSize(MockCount, MockTable[12].1) == 26
  {
    TotalBucketSizeFive(MockCount, MockTable[12].1);
  }

  /**
   * The seed data announces 25 participants, yet scored over the seed corpus
   * alone, any survey whose values include the `gro3` question reports at
   * least 26 respondents.
   */
  lemma SeedRespondentsExceedParticipants(values: seq<Value>, questions: seq<Question>,
                                          expectedResponses: Option<int>, i: nat, j: nat)
    requires i < |values| && j < |questions|
    requires questions[j].id == "gro3" && questions[j].valueId == values[i].id
    ensures CalculateSurveyResults(values, questions, MockResponses(), expectedResponses).totalResponses >= 26
  {
    MockQuestionCount(10);
    Gro3RowHasTwentySix();
    RespondentsAtLeast(values, questions, MockResponses(), expectedResponses, i, j);
  }
}
