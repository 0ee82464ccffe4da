/**
 * The data model of the LLM-as-judge evaluation harness and the functions that
 * specify each of its stages: positional pairing of questions with the two answer
 * lists, parse-or-drop of the judge's verdicts, the well-formedness filter, and the
 * per-dimension win-rate table, plus the crosswise average of two passes.
 * The lemmas state what each stage promises.
 */
module Scoring {
  import opened Wrappers

  /** The rubric dimensions of the judge's response schema, in schema order. */
  const Dimensions: seq<string> := ["Factuality", "Comprehensiveness", "Diversity", "Empowerment", "Overall Winner"]
  const DimensionSet: set<string> := set d | d in Dimensions

  /** The two values of the schema's `Winner` enum. */
  const Answer1: string := "Answer 1"
  const Answer2: string := "Answer 2"

  /**
   * A parsed verdict: for each key of the judge's JSON object, the value of that
   * entry's "Winner" field, or None when `evaluation[key]["Winner"]` cannot be read.
   */
  type Verdict = map<string, Option<string>>

  /** One question with the answer from each of the two systems. */
  datatype Triple = Triple(question: string, answer1: string, answer2: string)

  /** A record of the results list: a triple with the judge's parsed verdict. */
  datatype Record = Record(question: string, answer1: string, answer2: string, evaluation: Verdict)

  /** The `{"Answer1": .., "Answer2": ..}` pair of one dimension, as exact reals. */
  datatype Shares = Shares(answer1: real, answer2: real)

  /** The score table: dimension name to its pair of shares. */
  type ScoreTable = map<string, Shares>

  /** The judge: one LLM call followed by `json.loads`; None when the text does not parse. */
  type Judge = Triple -> Option<Verdict>

  function Min(a: nat, b: nat): nat { if a <= b then a else b }

  function RecordOf(t: Triple, v: Verdict): Record {
    Record(t.question, t.answer1, t.answer2, v)
  }

  // ---------------------------------------------------------------------------
  // Pairing: zip(queries, answers1, answers2)

  /** Positional pairing of three lists, truncated to the shortest one. */
  function Zip3(qs: seq<string>, as1: seq<string>, as2: seq<string>): (t: seq<Triple>)
    ensures |t| == Min(Min(|qs|, |as1|), |as2|)
    ensures forall i :: 0 <= i < |t| ==> t[i] == Triple(qs[i], as1[i], as2[i])
  {
    if |qs| == 0 || |as1| == 0 || |as2| == 0 then []
    else [Triple(qs[0], as1[0], as2[0])] + Zip3(qs[1..], as1[1..], as2[1..])
  }

  // ---------------------------------------------------------------------------
  // Parse-or-drop: the results list built by the collection loop

  /** The records appended for the triples `t`, in order; unparsed verdicts add nothing. */
  function Judged(t: seq<Triple>, judge: Judge): (rs: seq<Record>)
    ensures |rs| <= |t|
  {
    if t == [] then []
    else
      var last := t[|t| - 1];
      Judged(t[..|t| - 1], judge) + (match judge(last) case None => [] case Some(v) => [RecordOf(last, v)])
  }

  lemma {:induction false} JudgedAppend(t1: seq<Triple>, t2: seq<Triple>, judge: Judge)
    ensures Judged(t1 + t2, judge) == Judged(t1, judge) + Judged(t2, judge)
    decreases |t2|
  {
    if t2 == [] {
      assert t1 + t2 == t1;
    } else {
      var init := t2[..|t2| - 1];
      assert (t1 + t2)[..|t1 + t2| - 1] == t1 + init;
      assert (t1 + t2)[|t1 + t2| - 1] == t2[|t2| - 1];
      JudgedAppend(t1, init, judge);
    }
  }

  /** A triple whose verdict does not parse contributes no record, wherever it stands. */
  lemma UnparsedAddsNothing(t1: seq<Triple>, x: Triple, t2: seq<Triple>, judge: Judge)
    requires judge(x) == None
    ensures Judged(t1 + [x] + t2, judge) == Judged(t1 + t2, judge)
  {
    JudgedAppend(t1 + [x], t2, judge);
    JudgedAppend(t1, [x], judge);
    JudgedAppend(t1, t2, judge);
    assert [x][..0] == [];
  }

  /** A record is in the results exactly when some triple's verdict parsed to it. */
  lemma {:induction false} JudgedMembership(t: seq<Triple>, judge: Judge, r: Record)
    ensures r in Judged(t, judge) <==>
      exists i :: 0 <= i < |t| && judge(t[i]).Some? && r == RecordOf(t[i], judge(t[i]).value)
    decreases |t|
  {
    if t != [] {
      var init := t[..|t| - 1];
      JudgedMembership(init, judge, r);
      if r in Judged(init, judge) {
        var i :| 0 <= i < |init| && judge(init[i]).Some? && r == RecordOf(init[i], judge(init[i]).value);
        assert t[i] == init[i];
      }
      if exists i :: 0 <= i < |t| && judge(t[i]).Some? && r == RecordOf(t[i], judge(t[i]).value) {
        var i :| 0 <= i < |t| && judge(t[i]).Some? && r == RecordOf(t[i], judge(t[i]).value);
        if i < |init| {
          assert init[i] == t[i];
        }
      }
    }
  }

  // ---------------------------------------------------------------------------
  // The well-formedness filter (temp_results)

  /** Every entry supports the `["Winner"]` lookup. */
  predicate Readable(v: Verdict) {
    forall k :: k in v ==> v[k].Some?
  }

  /** All five rubric keys are present. */
  predicate HasAllDimensions(v: Verdict) {
    DimensionSet <= v.Keys
  }

  /**
   * No key outside the five rubric keys names "Answer 1" or "Answer 2": only such a key
   * makes the scoring loop look up a dimension that the table lacks. Other stray keys
   * are skipped.
   */
  predicate NoStrayVote(v: Verdict) {
    forall k :: k in v && k !in DimensionSet ==> v[k] != Some(Answer1) && v[k] != Some(Answer2)
  }

  predicate WellFormed(r: Record) {
    Readable(r.evaluation) && HasAllDimensions(r.evaluation)
  }

  /** The records that survive the filter, in their original order. */
  function Kept(rs: seq<Record>): (k: seq<Record>)
    ensures |k| <= |rs|
  {
    if rs == [] then []
    else Kept(rs[..|rs| - 1]) + (if WellFormed(rs[|rs| - 1]) then [rs[|rs| - 1]] else [])
  }

  lemma {:induction false} KeptAppend(a: seq<Record>, b: seq<Record>)
    ensures Kept(a + b) == Kept(a) + Kept(b)
    decreases |b|
  {
    if b == [] {
      assert a + b == a;
    } else {
      var init := b[..|b| - 1];
      assert (a + b)[..|a + b| - 1] == a + init;
      assert (a + b)[|a + b| - 1] == b[|b| - 1];
      KeptAppend(a, init);
    }
  }

  /** The filter keeps exactly the well-formed records and adds none. */
  lemma {:induction false} KeptMembership(rs: seq<Record>, r: Record)
    ensures r in Kept(rs) <==> r in rs && WellFormed(r)
    decreases |rs|
  {
    if rs != [] {
      var init := rs[..|rs| - 1];
      KeptMembership(init, r);
      assert rs == init + [rs[|rs| - 1]];
    }
  }

  /**
   * A malformed record is dropped from the kept list entirely, so it is not part of
   * the denominator of any dimension.
   */
  lemma MalformedLeavesDenominator(a: seq<Record>, x: Record, b: seq<Record>)
    requires !WellFormed(x)
    ensures Kept(a + [x] + b) == Kept(a + b)
    ensures |Kept(a + [x] + b)| == |Kept(a + b)|
  {
    KeptAppend(a + [x], b);
    KeptAppend(a, [x]);
    KeptAppend(a, b);
    assert [x][..0] == [];
  }

  // ---------------------------------------------------------------------------
  // Win counts and the score table

  /** The verdict names `winner` as the winner of dimension `key`. */
  predicate Names(v: Verdict, key: string, winner: string) {
    key in v && v[key] == Some(winner)
  }

  /** The number of records whose verdict names `winner` for `key`. */
  function WinCount(rs: seq<Record>, key: string, winner: string): (c: nat)
    ensures c <= |rs|
  {
    if rs == [] then 0
    else WinCount(rs[..|rs| - 1], key, winner) + (if Names(rs[|rs| - 1].evaluation, key, winner) then 1 else 0)
  }

  /** Extending a prefix by one record adds that record's vote. */
  lemma WinCountStep(rs: seq<Record>, i: nat, key: string, winner: string)
    requires i < |rs|
    ensures WinCount(rs[..i + 1], key, winner) ==
      WinCount(rs[..i], key, winner) + (if Names(rs[i].evaluation, key, winner) then 1 else 0)
  {
    assert rs[..i + 1][..i] == rs[..i];
  }

  /** What one verdict adds to the share of `winner` in dimension `d`, over `n` kept records. */
  function Credit(v: Verdict, d: string, winner: string, n: nat): real {
    if Names(v, d, winner) then Share(1, n) else 0.0
  }

  /** Extending a prefix by one record adds that record's credit to the share. */
  lemma ShareStep(rs: seq<Record>, i: nat, key: string, winner: string)
    requires i < |rs|
    ensures Share(WinCount(rs[..i + 1], key, winner), |rs|) ==
      Share(WinCount(rs[..i], key, winner), |rs|) + Credit(rs[i].evaluation, key, winner, |rs|)
  {
    WinCountStep(rs, i, key, winner);
    ShareAdd(WinCount(rs[..i], key, winner), 1, |rs|);
  }

  /** A count over `n` records as an exact share; zero when there is nothing to count. */
  function Share(c: nat, n: nat): real {
    if n == 0 then 0.0 else (c as real) / (n as real)
  }

  /** The pair of shares of one dimension over the kept records `rs`. */
  function DimensionScore(rs: seq<Record>, d: string): Shares {
    Shares(Share(WinCount(rs, d, Answer1), |rs|), Share(WinCount(rs, d, Answer2), |rs|))
  }

  /** The score table of a list of kept records. */
  function Table(rs: seq<Record>): ScoreTable {
    map d | d in DimensionSet :: DimensionScore(rs, d)
  }

  /** The two labels are never counted together: the counts add up to at most the total. */
  lemma {:induction false} WinCountsDisjoint(rs: seq<Record>, key: string)
    ensures WinCount(rs, key, Answer1) + WinCount(rs, key, Answer2) <= |rs|
    decreases |rs|
  {
    if rs != [] {
      WinCountsDisjoint(rs[..|rs| - 1], key);
    }
  }

  /** When every record names one of the two labels for `key`, the counts add up to the total. */
  lemma {:induction false} WinCountsExhaustive(rs: seq<Record>, key: string)
    requires forall r :: r in rs ==> Names(r.evaluation, key, Answer1) || Names(r.evaluation, key, Answer2)
    ensures WinCount(rs, key, Answer1) + WinCount(rs, key, Answer2) == |rs|
    decreases |rs|
  {
    if rs != [] {
      var init := rs[..|rs| - 1];
      assert forall r :: r in init ==> r in rs;
      assert rs[|rs| - 1] in rs;
      WinCountsExhaustive(init, key);
    }
  }

  /** When every record names `winner` for `key`, the count is the total. */
  lemma {:induction false} WinCountUnanimous(rs: seq<Record>, key: string, winner: string)
    requires forall r :: r in rs ==> Names(r.evaluation, key, winner)
    ensures WinCount(rs, key, winner) == |rs|
    decreases |rs|
  {
    if rs != [] {
      var init := rs[..|rs| - 1];
      assert forall r :: r in init ==> r in rs;
      assert rs[|rs| - 1] in rs;
      WinCountUnanimous(init, key, winner);
    }
  }

  lemma ShareBounds(c: nat, n: nat)
    requires c <= n
    ensures 0.0 <= Share(c, n) <= 1.0
  {
    if n > 0 {
      assert (c as real) / (n as real) <= (n as real) / (n as real);
    }
  }

  lemma ShareAdd(a: nat, b: nat, n: nat)
    ensures Share(a, n) + Share(b, n) == Share(a + b, n)
  {
  }

  lemma ShareOfAll(n: nat)
    requires n > 0
    ensures Share(n, n) == 1.0
  {
  }

  /**
   * Each dimension's shares lie in [0, 1] and add up to at most 1; with no kept
   * record every share stays 0.
   */
  lemma TableBounds(rs: seq<Record>, d: string)
    requires d in DimensionSet
    ensures d in Table(rs)
    ensures 0.0 <= Table(rs)[d].answer1 <= 1.0 && 0.0 <= Table(rs)[d].answer2 <= 1.0
    ensures Table(rs)[d].answer1 + Table(rs)[d].answer2 <= 1.0
    ensures rs == [] ==> Table(rs)[d] == Shares(0.0, 0.0)
  {
    assert Table(rs)[d] == DimensionScore(rs, d);
    var c1, c2 := WinCount(rs, d, Answer1), WinCount(rs, d, Answer2);
    WinCountsDisjoint(rs, d);
    ShareBounds(c1, |rs|);
    ShareBounds(c2, |rs|);
    ShareAdd(c1, c2, |rs|);
    ShareBounds(c1 + c2, |rs|);
  }

  /** With at least one kept record, each naming Answer 1 or Answer 2 for `d`, the shares add up to 1. */
  lemma TableSumsToOne(rs: seq<Record>, d: string)
    requires d in DimensionSet && rs != []
    requires forall r :: r in rs ==> Names(r.evaluation, d, Answer1) || Names(r.evaluation, d, Answer2)
    ensures Table(rs)[d].answer1 + Table(rs)[d].answer2 == 1.0
  {
    assert Table(rs)[d] == DimensionScore(rs, d);
    WinCountsExhaustive(rs, d);
    ShareAdd(WinCount(rs, d, Answer1), WinCount(rs, d, Answer2), |rs|);
    ShareOfAll(|rs|);
  }

  /** When every kept verdict names Answer 1 for every dimension, the table is 1 to 0 everywhere. */
  lemma TableUnanimous(rs: seq<Record>)
    requires rs != []
    requires forall r, d :: r in rs && d in DimensionSet ==> Names(r.evaluation, d, Answer1)
    ensures Table(rs).Keys == DimensionSet
    ensures forall d :: d in DimensionSet ==> Table(rs)[d] == Shares(1.0, 0.0)
  {
    forall d | d in DimensionSet
      ensures Table(rs)[d] == Shares(1.0, 0.0)
    {
      assert Table(rs)[d] == DimensionScore(rs, d);
      WinCountUnanimous(rs, d, Answer1);
      WinCountsDisjoint(rs, d);
      ShareOfAll(|rs|);
    }
  }

  // ---------------------------------------------------------------------------
  // The whole of one pass, and the crosswise average of two passes

  /** The records one pass keeps: parsed, then filtered. */
  function Retained(qs: seq<string>, as1: seq<string>, as2: seq<string>, judge: Judge): seq<Record> {
    Kept(Judged(Zip3(qs, as1, as2), judge))
  }

  /** Answer set 1's share from pass 1 is averaged with its share from the swapped pass 2. */
  function Averaged(s1: Shares, s2: Shares): Shares {
    Shares((s1.answer1 + s2.answer2) / 2.0, (s1.answer2 + s2.answer1) / 2.0)
  }

  /** Averaging keeps shares in [0, 1], keeps their sum at most 1, and preserves a sum of exactly 1. */
  lemma AveragedBounds(s1: Shares, s2: Shares)
    requires 0.0 <= s1.answer1 && 0.0 <= s1.answer2 && s1.answer1 + s1.answer2 <= 1.0
    requires 0.0 <= s2.answer1 && 0.0 <= s2.answer2 && s2.answer1 + s2.answer2 <= 1.0
    ensures 0.0 <= Averaged(s1, s2).answer1 <= 1.0 && 0.0 <= Averaged(s1, s2).answer2 <= 1.0
    ensures Averaged(s1, s2).answer1 + Averaged(s1, s2).answer2 <= 1.0
    ensures s1.answer1 + s1.answer2 == 1.0 && s2.answer1 + s2.answer2 == 1.0 ==>
      Averaged(s1, s2).answer1 + Averaged(s1, s2).answer2 == 1.0
  {
  }

  // ---------------------------------------------------------------------------
  // Position bias: what the swapped pass sees of a judge that is consistent

  /** The winner label as seen with the two answers in swapped positions. */
  function SwapWinner(w: string): string {
    if w == Answer1 then Answer2 else if w == Answer2 then Answer1 else w
  }

  function MirrorVerdict(v: Verdict): Verdict {
    map k | k in v :: match v[k] case None => None case Some(w) => Some(SwapWinner(w))
  }

  function MirrorOption(o: Option<Verdict>): Option<Verdict> {
    match o case None => None case Some(v) => Some(MirrorVerdict(v))
  }

  function SwapTriple(t: Triple): Triple {
    Triple(t.question, t.answer2, t.answer1)
  }

  function MirrorRecord(r: Record): Record {
    Record(r.question, r.answer2, r.answer1, MirrorVerdict(r.evaluation))
  }

  function SwapAll(t: seq<Triple>): seq<Triple> {
    seq(|t|, i requires 0 <= i < |t| => SwapTriple(t[i]))
  }

  function MirrorAll(rs: seq<Record>): seq<Record> {
    seq(|rs|, i requires 0 <= i < |rs| => MirrorRecord(rs[i]))
  }

  /**
   * A judge without position bias: asked with the answers swapped, it parses (or
   * fails to parse) alike and names the same answer, under its other label.
   */
  ghost predicate PositionConsistent(judge: Judge) {
    forall t :: judge(SwapTriple(t)) == MirrorOption(judge(t))
  }

  lemma {:induction false} JudgedSwapped(t: seq<Triple>, judge: Judge)
    requires PositionConsistent(judge)
    ensures Judged(SwapAll(t), judge) == MirrorAll(Judged(t, judge))
    decreases |t|
  {
    if t != [] {
      var init := t[..|t| - 1];
      assert SwapAll(t)[..|t| - 1] == SwapAll(init);
      JudgedSwapped(init, judge);
      var last := t[|t| - 1];
      assert judge(SwapTriple(last)) == MirrorOption(judge(last));
      var prev := Judged(init, judge);
      match judge(last) {
        case None =>
        case Some(v) =>
          assert MirrorAll(prev + [RecordOf(last, v)]) == MirrorAll(prev) + [MirrorRecord(RecordOf(last, v))];
      }
    }
  }

  lemma MirrorKeepsWellFormed(r: Record)
    ensures WellFormed(MirrorRecord(r)) == WellFormed(r)
  {
    assert MirrorRecord(r).evaluation.Keys == r.evaluation.Keys;
  }

  lemma {:induction false} KeptMirrored(rs: seq<Record>)
    ensures Kept(MirrorAll(rs)) == MirrorAll(Kept(rs))
    decreases |rs|
  {
    if rs != [] {
      var init := rs[..|rs| - 1];
      assert MirrorAll(rs)[..|rs| - 1] == MirrorAll(init);
      KeptMirrored(init);
      MirrorKeepsWellFormed(rs[|rs| - 1]);
      if WellFormed(rs[|rs| - 1]) {
        assert MirrorAll(Kept(init) + [rs[|rs| - 1]]) == MirrorAll(Kept(init)) + [MirrorRecord(rs[|rs| - 1])];
      }
    }
  }

  lemma MirrorNames(v: Verdict, d: string)
    ensures Names(MirrorVerdict(v), d, Answer1) == Names(v, d, Answer2)
    ensures Names(MirrorVerdict(v), d, Answer2) == Names(v, d, Answer1)
  {
  }

  lemma {:induction false} WinCountMirrored(rs: seq<Record>, d: string)
    ensures WinCount(MirrorAll(rs), d, Answer1) == WinCount(rs, d, Answer2)
    ensures WinCount(MirrorAll(rs), d, Answer2) == WinCount(rs, d, Answer1)
    decreases |rs|
  {
    if rs != [] {
      var init := rs[..|rs| - 1];
      assert MirrorAll(rs)[..|rs| - 1] == MirrorAll(init);
      WinCountMirrored(init, d);
      MirrorNames(rs[|rs| - 1].evaluation, d);
    }
  }

  /**
   * With a judge free of position bias, the pass with the answer sets swapped scores
   * each dimension as the mirror of the first pass: its Answer1 share is the first
   * pass's Answer2 share and the other way round. The crosswise average then equals
   * the first pass.
   */
  lemma SwappedPassMirrors(qs: seq<string>, as1: seq<string>, as2: seq<string>, judge: Judge, d: string)
    requires PositionConsistent(judge)
    requires d in DimensionSet
    ensures Table(Retained(qs, as2, as1, judge))[d].answer1 == Table(Retained(qs, as1, as2, judge))[d].answer2
    ensures Table(Retained(qs, as2, as1, judge))[d].answer2 == Table(Retained(qs, as1, as2, judge))[d].answer1
    ensures Averaged(Table(Retained(qs, as1, as2, judge))[d], Table(Retained(qs, as2, as1, judge))[d])
      == Table(Retained(qs, as1, as2, judge))[d]
  {
    var t := Zip3(qs, as1, as2);
    assert Zip3(qs, as2, as1) == SwapAll(t);
    JudgedSwapped(t, judge);
    var kept := Kept(Judged(t, judge));
    KeptMirrored(Judged(t, judge));
    assert Retained(qs, as2, as1, judge) == MirrorAll(kept);
    WinCountMirrored(kept, d);
    assert Table(kept)[d] == DimensionScore(kept, d);
    assert Table(MirrorAll(kept))[d] == DimensionScore(MirrorAll(kept), d);
  }
}
