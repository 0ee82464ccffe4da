/**
 * The evaluation harness as the script runs it: one pass collects the judge's
 * verdicts into a results list, filters that list, and accumulates the per-dimension
 * shares into a score table; the entry point runs two passes with the answer sets
 * swapped and averages them crosswise. Each method is proved against the functions
 * of module Scoring.
 */
module QualEval {
  import opened Wrappers
  import opened Scoring

  /**
   * The collection loop: for each positional triple of `zip(queries, answers1, answers2)`,
   * ask the judge and append a record when its verdict parses.
   */
  method Collect(qs: seq<string>, as1: seq<string>, as2: seq<string>, judge: Judge) returns (results: seq<Record>)
    ensures results == Judged(Zip3(qs, as1, as2), judge)
  {
    var triples := Zip3(qs, as1, as2);
    results := [];
    var i := 0;
    while i < |triples|
      invariant 0 <= i <= |triples|
      invariant results == Judged(triples[..i], judge)
    {
      var t := triples[i];
      assert triples[..i + 1][..i] == triples[..i];
      match judge(t) {
        case Some(v) =>
          results := results + [Record(t.question, t.answer1, t.answer2, v)];
        case None =>
      }
      i := i + 1;
    }
    assert triples[..i] == triples;
  }

  /**
   * The loop over the verdict's keys that reads every entry's "Winner": the first
   * entry without one raises, and the record is then dropped.
   */
  method WinnersReadable(v: Verdict) returns (ok: bool)
    ensures ok <==> Readable(v)
  {
    var todo := v.Keys;
    while todo != {}
      invariant todo <= v.Keys
      invariant forall k :: k in v.Keys - todo ==> v[k].Some?
      decreases todo
    {
      var k :| k in todo;
      if v[k].None? {
        return false;
      }
      todo := todo - {k};
    }
    return true;
  }

  /** The filter loop: keep the records whose every entry is readable and that carry all five keys. */
  method KeepWellFormed(results: seq<Record>) returns (kept: seq<Record>)
    ensures kept == Kept(results)
  {
    kept := [];
    var i := 0;
    while i < |results|
      invariant 0 <= i <= |results|
      invariant kept == Kept(results[..i])
    {
      var r := results[i];
      assert results[..i + 1][..i] == results[..i];
      var readable := WinnersReadable(r.evaluation);
      if readable && DimensionSet <= r.evaluation.Keys {
        kept := kept + [r];
      }
      i := i + 1;
    }
    assert results[..i] == results;
  }

  /** The table in which every dimension starts at 0.0 to 0.0. */
  function ZeroTable(): (z: ScoreTable)
    ensures z.Keys == DimensionSet
    ensures forall d :: d in z ==> z[d] == Shares(0.0, 0.0)
  {
    map d | d in DimensionSet :: Shares(0.0, 0.0)
  }

  /**
   * The inner scoring loop, over the keys of one kept verdict: each key adds 1/n to
   * the share of the answer its "Winner" names, and to nothing when it names neither
   * (a key outside the five is then skipped).
   */
  method AddVerdict(scores: ScoreTable, v: Verdict, n: nat) returns (updated: ScoreTable)
    requires n > 0
    requires scores.Keys == DimensionSet
    requires Readable(v) && NoStrayVote(v)
    ensures updated.Keys == DimensionSet
    ensures forall d :: d in DimensionSet ==>
      updated[d] == Shares(scores[d].answer1 + Credit(v, d, Answer1, n), scores[d].answer2 + Credit(v, d, Answer2, n))
  {
    updated := scores;
    var todo := v.Keys;
    while todo != {}
      invariant todo <= v.Keys
      invariant updated.Keys == DimensionSet
      invariant forall d :: d in DimensionSet && d !in v.Keys - todo ==> updated[d] == scores[d]
      invariant forall d :: d in DimensionSet && d in v.Keys - todo ==>
        updated[d] == Shares(scores[d].answer1 + Credit(v, d, Answer1, n), scores[d].answer2 + Credit(v, d, Answer2, n))
      decreases todo
    {
      var k :| k in todo;
      var w := v[k].value;
      if w == Answer1 {
        updated := updated[k := Shares(updated[k].answer1 + 1.0 / (n as real), updated[k].answer2)];
      } else if w == Answer2 {
        updated := updated[k := Shares(updated[k].answer1, updated[k].answer2 + 1.0 / (n as real))];
      }
      todo := todo - {k};
    }
  }

  /**
   * The scoring loop: every kept record adds 1/N to the winner's share of each of its
   * keys, where N is the number of kept records. It requires what keeps the loop
   * from raising: every entry has a "Winner", and no key outside the five names an answer.
   */
  method Score(rs: seq<Record>) returns (scores: ScoreTable)
    requires forall r :: r in rs ==> Readable(r.evaluation) && NoStrayVote(r.evaluation)
    ensures scores == Table(rs)
  {
    var n := |rs|;
    scores := ZeroTable();
    var i := 0;
    while i < n
      invariant 0 <= i <= n
      invariant scores.Keys == DimensionSet
      invariant forall d :: d in DimensionSet ==>
        scores[d] == Shares(Share(WinCount(rs[..i], d, Answer1), n), Share(WinCount(rs[..i], d, Answer2), n))
    {
      assert rs[i] in rs;
      var next := AddVerdict(scores, rs[i].evaluation, n);
      forall d | d in DimensionSet
        ensures next[d] == Shares(Share(WinCount(rs[..i + 1], d, Answer1), n), Share(WinCount(rs[..i + 1], d, Answer2), n))
      {
        ShareStep(rs, i, d, Answer1);
        ShareStep(rs, i, d, Answer2);
      }
      scores := next;
      i := i + 1;
    }
    assert rs[..i] == rs;
    forall d | d in DimensionSet
      ensures scores[d] == Table(rs)[d]
    {
      assert Table(rs)[d] == DimensionScore(rs, d);
    }
    assert scores.Keys == Table(rs).Keys;
  }

  /** One run of `batch_eval`: collect, filter, score. */
  method BatchEval(qs: seq<string>, as1: seq<string>, as2: seq<string>, judge: Judge) returns (scores: ScoreTable)
    requires forall r :: r in Retained(qs, as1, as2, judge) ==> NoStrayVote(r.evaluation)
    ensures scores == Table(Retained(qs, as1, as2, judge))
  {
    var results := Collect(qs, as1, as2, judge);
    var kept := KeepWellFormed(results);
    forall r | r in kept
      ensures Readable(r.evaluation)
    {
      KeptMembership(results, r);
    }
    scores := Score(kept);
  }

  /**
   * The crosswise average of the entry point: answer set 1's final share is its pass-1
   * share averaged with its pass-2 share, where it stood in second position.
   */
  method SwapAverage(score1: ScoreTable, score2: ScoreTable) returns (final: ScoreTable)
    requires DimensionSet <= score1.Keys && DimensionSet <= score2.Keys
    ensures final.Keys == DimensionSet
    ensures forall d :: d in DimensionSet ==> final[d] == Averaged(score1[d], score2[d])
  {
    final := ZeroTable();
    for j := 0 to |Dimensions|
      invariant final.Keys == DimensionSet
      invariant forall d :: d in DimensionSet && d in Dimensions[..j] ==> final[d] == Averaged(score1[d], score2[d])
    {
      var key := Dimensions[j];
      assert Dimensions[..j + 1] == Dimensions[..j] + [key];
      final := final[key := Shares((score1[key].answer1 + score2[key].answer2) / 2.0,
                                   (score1[key].answer2 + score2[key].answer1) / 2.0)];
    }
    assert Dimensions[..|Dimensions|] == Dimensions;
  }

  /** The entry point: pass 1 with the answer sets in given order, pass 2 swapped, then the average. */
  method Evaluate(qs: seq<string>, as1: seq<string>, as2: seq<string>, judge: Judge) returns (final: ScoreTable)
    requires forall r :: r in Retained(qs, as1, as2, judge) ==> NoStrayVote(r.evaluation)
    requires forall r :: r in Retained(qs, as2, as1, judge) ==> NoStrayVote(r.evaluation)
    ensures final.Keys == DimensionSet
    ensures forall d :: d in DimensionSet ==>
      final[d] == Averaged(Table(Retained(qs, as1, as2, judge))[d], Table(Retained(qs, as2, as1, judge))[d])
  {
    var score1 := BatchEval(qs, as1, as2, judge);
    var score2 := BatchEval(qs, as2, as1, judge);
    final := SwapAverage(score1, score2);
  }
}
