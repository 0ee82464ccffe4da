/**
 * The ingestion driver's bounded retry around the indexer's `insert`: the counter
 * `retries` counts failed attempts, every failure logs a retry line and sleeps, a
 * success ends the loop, and a terminal message is logged only when the counter has
 * reached the maximum. The indexer is an oracle telling, for each attempt number,
 * whether that call returns normally or raises; the log lines and sleeps are
 * recorded as events.
 */
module Insertion {

  const MaxRetries: nat := 10
  const SleepSeconds: nat := 10

  /** What the driver does that can be observed from outside. */
  datatype Event =
    | InsertCall                  // one call of `rag.insert`
    | RetryLog(retries: nat)      // "Insertion failed, retrying (retries/max_retries) ..."
    | Sleep(seconds: nat)         // time.sleep(seconds)
    | GiveUp                      // "Insertion failed after exceeding the maximum number of retries"

  /** `succeeds(j)` tells whether attempt number j (counting from 0) returns without raising. */
  type Indexer = nat -> bool

  /** The value of the counter when the loop stops, starting from counter value r. */
  function RetriesFrom(succeeds: Indexer, r: nat): (n: nat)
    requires r <= MaxRetries
    ensures r <= n <= MaxRetries
    decreases MaxRetries - r
  {
    if r == MaxRetries then r
    else if succeeds(r) then r
    else RetriesFrom(succeeds, r + 1)
  }

  /** The value of the counter when `insert_text` finishes. */
  function FinalRetries(succeeds: Indexer): nat {
    RetriesFrom(succeeds, 0)
  }

  /** The log of `n` failed rounds: a call, the retry line with the new counter, the sleep. */
  function FailedRounds(n: nat): seq<Event> {
    if n == 0 then []
    else FailedRounds(n - 1) + [InsertCall, RetryLog(n), Sleep(SleepSeconds)]
  }

  /** The whole log of a run that stopped with counter value n. */
  function Trace(n: nat): seq<Event> {
    FailedRounds(n) + if n < MaxRetries then [InsertCall] else [GiveUp]
  }

  /** Number of events of the log that satisfy p. */
  function CountWhere(log: seq<Event>, p: Event -> bool): (c: nat)
    ensures c <= |log|
  {
    if log == [] then 0
    else CountWhere(log[..|log| - 1], p) + (if p(log[|log| - 1]) then 1 else 0)
  }

  predicate IsCall(e: Event) { e.InsertCall? }
  predicate IsRetryLog(e: Event) { e.RetryLog? }
  predicate IsSleep(e: Event) { e == Sleep(SleepSeconds) }

  /**
   * `insert_text` after the corpus is loaded. Every exception of `insert` is caught;
   * the loop ends on the first success or after MaxRetries failures.
   */
  method InsertText(succeeds: Indexer) returns (retries: nat, log: seq<Event>)
    ensures retries == FinalRetries(succeeds)
    ensures log == Trace(retries)
  {
    retries := 0;
    log := [];
    while retries < MaxRetries
      invariant retries <= MaxRetries
      invariant RetriesFrom(succeeds, retries) == FinalRetries(succeeds)
      invariant log == FailedRounds(retries)
      decreases MaxRetries - retries
    {
      log := log + [InsertCall];
      if succeeds(retries) {
        break;
      }
      retries := retries + 1;
      log := log + [RetryLog(retries), Sleep(SleepSeconds)];
    }
    if retries == MaxRetries {
      log := log + [GiveUp];
    }
  }

  lemma {:induction false} RetriesFromCharacterized(succeeds: Indexer, r: nat)
    requires r <= MaxRetries
    ensures forall j :: r <= j < RetriesFrom(succeeds, r) ==> !succeeds(j)
    ensures RetriesFrom(succeeds, r) < MaxRetries ==> succeeds(RetriesFrom(succeeds, r))
    decreases MaxRetries - r
  {
    if r < MaxRetries && !succeeds(r) {
      RetriesFromCharacterized(succeeds, r + 1);
    }
  }

  /**
   * The counter at exit counts failed attempts: every attempt before it failed, and if
   * it is below the maximum the next attempt succeeded. These two facts determine it.
   */
  lemma FinalRetriesCharacterized(succeeds: Indexer, n: nat)
    ensures n == FinalRetries(succeeds) <==>
      n <= MaxRetries && (forall j :: 0 <= j < n ==> !succeeds(j)) && (n < MaxRetries ==> succeeds(n))
  {
    RetriesFromCharacterized(succeeds, 0);
    var f := FinalRetries(succeeds);
    if n <= MaxRetries && (forall j :: 0 <= j < n ==> !succeeds(j)) && (n < MaxRetries ==> succeeds(n)) {
      assert n < f ==> !succeeds(n);
    }
  }

  /** The first K < MaxRetries attempts fail and attempt K + 1 succeeds: the counter ends at K. */
  lemma SucceedsAfterFailures(succeeds: Indexer, k: nat)
    requires k < MaxRetries
    requires forall j :: 0 <= j < k ==> !succeeds(j)
    requires succeeds(k)
    ensures FinalRetries(succeeds) == k
  {
    FinalRetriesCharacterized(succeeds, k);
  }

  /** Every attempt fails: the counter ends at the maximum. */
  lemma AlwaysFails(succeeds: Indexer)
    requires forall j :: 0 <= j < MaxRetries ==> !succeeds(j)
    ensures FinalRetries(succeeds) == MaxRetries
  {
    FinalRetriesCharacterized(succeeds, MaxRetries);
  }

  lemma CountWhereAppend(a: seq<Event>, b: seq<Event>, p: Event -> bool)
    ensures CountWhere(a + b, p) == CountWhere(a, p) + CountWhere(b, p)
    decreases |b|
  {
    if b == [] {
      assert a + b == a;
    } else {
      assert (a + b)[..|a + b| - 1] == a + b[..|b| - 1];
      CountWhereAppend(a, b[..|b| - 1], p);
    }
  }

  /** One failed round holds one call, one retry line and one sleep. */
  lemma RoundCounts(n: nat, p: Event -> bool)
    ensures CountWhere([InsertCall, RetryLog(n), Sleep(SleepSeconds)], p) ==
      (if p(InsertCall) then 1 else 0) + (if p(RetryLog(n)) then 1 else 0) + (if p(Sleep(SleepSeconds)) then 1 else 0)
  {
    var round := [InsertCall, RetryLog(n), Sleep(SleepSeconds)];
    assert round[..2] == [InsertCall, RetryLog(n)];
    assert round[..2][..1] == [InsertCall];
    assert [InsertCall][..0] == [];
    assert CountWhere([InsertCall], p) == if p(InsertCall) then 1 else 0;
    assert CountWhere(round[..2], p) == CountWhere([InsertCall], p) + if p(RetryLog(n)) then 1 else 0;
  }

  /** n failed rounds hold n calls, n retry lines and n sleeps, and no terminal message. */
  lemma {:induction false} FailedRoundsCounts(n: nat)
    ensures CountWhere(FailedRounds(n), IsCall) == n
    ensures CountWhere(FailedRounds(n), IsRetryLog) == n
    ensures CountWhere(FailedRounds(n), IsSleep) == n
    ensures GiveUp !in FailedRounds(n)
  {
    if n > 0 {
      FailedRoundsCounts(n - 1);
      var round := [InsertCall, RetryLog(n), Sleep(SleepSeconds)];
      CountWhereAppend(FailedRounds(n - 1), round, IsCall);
      CountWhereAppend(FailedRounds(n - 1), round, IsRetryLog);
      CountWhereAppend(FailedRounds(n - 1), round, IsSleep);
      RoundCounts(n, IsCall);
      RoundCounts(n, IsRetryLog);
      RoundCounts(n, IsSleep);
    }
  }

  /**
   * What a run with final counter n shows: `insert` is called n + 1 times when the run
   * ended in success and MaxRetries times otherwise, there is one retry line and one
   * sleep per failure, and the terminal message appears exactly when n is the maximum.
   */
  lemma TraceCounts(n: nat)
    requires n <= MaxRetries
    ensures CountWhere(Trace(n), IsCall) == if n < MaxRetries then n + 1 else MaxRetries
    ensures CountWhere(Trace(n), IsCall) <= MaxRetries
    ensures CountWhere(Trace(n), IsRetryLog) == n
    ensures CountWhere(Trace(n), IsSleep) == n
    ensures GiveUp in Trace(n) <==> n == MaxRetries
  {
    FailedRoundsCounts(n);
    var tail: seq<Event> := if n < MaxRetries then [InsertCall] else [GiveUp];
    CountWhereAppend(FailedRounds(n), tail, IsCall);
    CountWhereAppend(FailedRounds(n), tail, IsRetryLog);
    CountWhereAppend(FailedRounds(n), tail, IsSleep);
    assert tail[..0] == [];
  }

  /**
   * The terminal message is logged exactly when all MaxRetries attempts failed; a
   * success on the last allowed attempt logs none.
   */
  lemma GiveUpIffAllFailed(succeeds: Indexer)
    ensures GiveUp in Trace(FinalRetries(succeeds)) <==> forall j :: 0 <= j < MaxRetries ==> !succeeds(j)
  {
    var f := FinalRetries(succeeds);
    FinalRetriesCharacterized(succeeds, f);
    TraceCounts(f);
  }
}
