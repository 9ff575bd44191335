/** The two loops that wait between attempts: the HTTP client's retries and the watcher's restarts. */
module Backoff {
  import opened Base
  import opened Api
  import opened Ingestion

  // ---------------------------------------------------------------------------------------------
  // doWithRetry
  // ---------------------------------------------------------------------------------------------

  /** What one round trip gives: no response at all, or one with a status code. */
  datatype Attempt = NoResponse | Response(status: int)

  datatype Verdict =
    | Answer(status: int, bodyOpen: bool)
    | LastError
    | Cancelled
    | Exhausted

  predicate Final(a: Attempt) {
    a.Response? && a.status < 500
  }

  function CappedPow2(i: nat, cap: nat): nat {
    Min(Pow2(i), cap)
  }

  function Doubled(backoff: Time, max: Time): Time {
    if backoff * 2 > max then max else backoff * 2
  }

  /** Doubling under a cap, from a power of two under that cap, is the next one. */
  lemma DoublingIsCapped(k: nat, cap: nat)
    requires cap >= 1
    ensures Doubled(CappedPow2(k, cap) * SECOND, cap * SECOND) == CappedPow2(k + 1, cap) * SECOND
  {
    assert Pow2(k + 1) == 2 * Pow2(k);
  }

  /** The pauses before attempts 1, 2, ..., n. */
  function Pauses(n: nat): (waits: seq<Time>)
    ensures |waits| == n
  {
    seq(n, i requires 0 <= i < n => CappedPow2(i, 16) * SECOND)
  }

  function Total(waits: seq<Time>): Time {
    if waits == [] then 0 else Total(waits[..|waits| - 1]) + waits[|waits| - 1]
  }

  /** The seconds spent pausing when all of `n` retries are needed. */
  function WorstPause(n: nat): Time {
    (if n <= 5 then Pow2(n) - 1 else 31 + 16 * (n - 5)) * SECOND
  }

  /** 1 + 2 + 4 + 8 + 16 + 16 + ... in closed form. */
  lemma {:induction false} PausesTotal(n: nat)
    ensures Total(Pauses(n)) == WorstPause(n)
  {
    if n > 0 {
      PausesTotal(n - 1);
      assert Pauses(n)[..n - 1] == Pauses(n - 1);
      CapReached(n - 1);
    }
  }

  lemma {:induction false} CapReached(i: nat)
    ensures i <= 4 ==> Pow2(i) <= 16
    ensures i == 5 ==> Pow2(i) == 32
    ensures i >= 4 ==> Pow2(i) >= 16
  {
    if i > 0 {
      CapReached(i - 1);
    }
  }

  /** 1, 2, 4, 8, 16, and 32 where the cap allows, then the cap. */
  lemma {:induction false} CappedPowers(i: nat)
    ensures CappedPow2(i, 16) == if i < 4 then Pow2(i) else 16
    ensures CappedPow2(i, 60) == if i <= 5 then Pow2(i) else 60
    ensures Pow2(0) == 1 && Pow2(1) == 2 && Pow2(2) == 4 && Pow2(3) == 8 && Pow2(4) == 16 && Pow2(5) == 32
    ensures i >= 6 ==> Pow2(i) >= 64
  {
    if i > 0 {
      CappedPowers(i - 1);
      CapReached(i);
    }
  }

  /** The pauses are 1, 2, 4 and 8 seconds, then 16 each time. */
  lemma PausesAre(n: nat, i: nat)
    requires i < n
    ensures Pauses(n)[i] == (if i < 4 then [1, 2, 4, 8][i] else 16) * SECOND
  {
    CappedPowers(i);
  }

  lemma {:induction false} PausesMonotone(n: nat, m: nat)
    requires n <= m
    ensures Total(Pauses(n)) <= Total(Pauses(m))
  {
    if n < m {
      PausesMonotone(n, m - 1);
      assert Pauses(m)[..m - 1] == Pauses(m - 1);
    }
  }

  lemma PausesBounded(n: nat, maxRetries: nat)
    requires n <= maxRetries
    ensures Total(Pauses(n)) <= WorstPause(maxRetries)
  {
    PausesMonotone(n, maxRetries);
    PausesTotal(maxRetries);
  }

  /** Attempt `n` is the last one: the first to be answered below 500, to use up the retries, or to be
      followed by a cancelled pause. */
  ghost predicate StopsAt(outcomes: nat -> Attempt, cancelled: nat -> bool, maxRetries: nat, n: nat) {
    && n <= maxRetries
    && (forall i :: 0 <= i < n ==> !Final(outcomes(i)) && !cancelled(i))
    && (Final(outcomes(n)) || n == maxRetries || cancelled(n))
  }

  /** `outcomes(i)` is the answer to attempt `i`; `cancelled(i)` says that the context ended during
      the pause after it. */
  method DoWithRetry(maxRetries: int, outcomes: nat -> Attempt, cancelled: nat -> bool)
    returns (verdict: Verdict, attempts: nat, waits: seq<Time>)
    ensures maxRetries < 0 <==> verdict == Exhausted
    ensures maxRetries < 0 ==> attempts == 0 && waits == []
    ensures maxRetries >= 0 ==>
              1 <= attempts <= maxRetries + 1 && StopsAt(outcomes, cancelled, maxRetries, attempts - 1)
    ensures forall i :: 0 <= i < attempts - 1 ==> outcomes(i).NoResponse? || outcomes(i).status >= 500
    ensures maxRetries >= 0 ==> waits == Pauses(attempts - 1)
    ensures maxRetries >= 0 ==>
              var last := outcomes(attempts - 1);
              verdict ==
              if last.Response? && last.status < 500 then Answer(last.status, true)
              else if attempts == maxRetries + 1 then
                if last.Response? then Answer(last.status, false) else LastError
              else Cancelled
    ensures maxRetries >= 0 ==> Total(waits) <= WorstPause(maxRetries)
  {
    var backoff := 1 * SECOND;
    var maxBackoff := 16 * SECOND;
    attempts, waits := 0, [];
    while attempts <= maxRetries
      invariant 0 <= attempts && (maxRetries >= 0 ==> attempts <= maxRetries) && (maxRetries < 0 ==> attempts == 0)
      invariant backoff == CappedPow2(attempts, 16) * SECOND
      invariant waits == Pauses(attempts)
      invariant forall i :: 0 <= i < attempts ==> !Final(outcomes(i)) && !cancelled(i)
      decreases maxRetries - attempts
    {
      var attempt, now := attempts, outcomes(attempts);
      PausesBounded(attempts, maxRetries);
      attempts := attempts + 1;
      if now.Response? && now.status < 500 {
        return Answer(now.status, true), attempts, waits;
      }
      if attempt == maxRetries {
        if now.NoResponse? {
          return LastError, attempts, waits;
        }
        return Answer(now.status, false), attempts, waits;
      }
      if cancelled(attempt) {
        return Cancelled, attempts, waits;
      }
      waits := waits + [backoff];
      DoublingIsCapped(attempt, 16);
      backoff := backoff * 2;
      if backoff > maxBackoff {
        backoff := maxBackoff;
      }
    }
    return Exhausted, attempts, waits;
  }

  // ---------------------------------------------------------------------------------------------
  // The watcher's main loop
  // ---------------------------------------------------------------------------------------------

  /** One round of the loop: the watch could not be opened, or it ran until its channel closed. */
  datatype Round = WatchFailed | Watched(deliveries: seq<Delivery>)

  function Deliveries(rounds: seq<Round>): seq<Delivery> {
    if rounds == [] then []
    else
      var last := rounds[|rounds| - 1];
      Deliveries(rounds[..|rounds| - 1]) + if last.Watched? then last.deliveries else []
  }

  /** Failures in a row just before round `i`. */
  function FailuresBefore(rounds: seq<Round>, i: nat): (k: nat)
    requires i <= |rounds|
    ensures k <= i && forall j :: i - k <= j < i ==> rounds[j].WatchFailed?
    ensures k < i ==> rounds[i - k - 1].Watched?
  {
    if i == 0 || rounds[i - 1].Watched? then 0 else 1 + FailuresBefore(rounds, i - 1)
  }

  function DelayAfter(rounds: seq<Round>, i: nat): Time
    requires i < |rounds|
  {
    if rounds[i].Watched? then SECOND else CappedPow2(FailuresBefore(rounds, i), 60) * SECOND
  }

  /** A watch that ran is followed by one second; the failure that follows `k` others in a row, since the
      last watch that ran or the start, by 1, 2, 4, 8, 16 or 32 seconds, and by 60 from the seventh on. */
  lemma DelaysAre(rounds: seq<Round>, i: nat, k: nat)
    requires i < |rounds| && k <= i && forall j :: i - k <= j < i ==> rounds[j].WatchFailed?
    requires k < i ==> rounds[i - k - 1].Watched?
    ensures DelayAfter(rounds, i)
         == (if rounds[i].Watched? then 1 else if k < 6 then [1, 2, 4, 8, 16, 32][k] else 60) * SECOND
  {
    assert FailuresBefore(rounds, i) == k;
    CappedPowers(k);
  }

  /** The loop until the context ends, after `rounds`. */
  method Start(w: Watcher, enabled: bool, server: Server, rounds: seq<Round>)
    returns (delays: seq<Time>, failureCount: nat)
    modifies server
    ensures !enabled ==> delays == [] && server.store == old(server.store)
    ensures enabled ==> server.store == w.WatchAll(old(server.store), Deliveries(rounds))
    ensures enabled ==> failureCount == FailuresBefore(rounds, |rounds|)
    ensures enabled ==> |delays| == |rounds| && forall i :: 0 <= i < |rounds| ==> delays[i] == DelayAfter(rounds, i)
  {
    delays, failureCount := [], 0;
    if !enabled {
      return;
    }
    var backoff := 1 * SECOND;
    var maxBackoff := 60 * SECOND;
    for i := 0 to |rounds|
      invariant server.store == w.WatchAll(old(server.store), Deliveries(rounds[..i]))
      invariant failureCount == FailuresBefore(rounds, i)
      invariant backoff == CappedPow2(failureCount, 60) * SECOND
      invariant |delays| == i && forall j :: 0 <= j < i ==> delays[j] == DelayAfter(rounds, j)
    {
      RoundStep(w, old(server.store), rounds, i);
      match rounds[i] {
        case WatchFailed =>
          DoublingIsCapped(failureCount, 60);
          failureCount := failureCount + 1;
          delays := delays + [backoff];
          backoff := backoff * 2;
          if backoff > maxBackoff {
            backoff := maxBackoff;
          }
        case Watched(ds) =>
          backoff := 1 * SECOND;
          failureCount := 0;
          w.ProcessEvents(server, ds);
          delays := delays + [1 * SECOND];
      }
    }
    assert rounds[..|rounds|] == rounds;
  }

  lemma RoundStep(w: Watcher, st: Store, rounds: seq<Round>, i: nat)
    requires i < |rounds|
    ensures
      var before := w.WatchAll(st, Deliveries(rounds[..i]));
      w.WatchAll(st, Deliveries(rounds[..i + 1]))
      == if rounds[i].Watched? then w.WatchAll(before, rounds[i].deliveries) else before
  {
    assert rounds[..i + 1][..i] == rounds[..i];
    if rounds[i].Watched? {
      WatchAllAppend(w, st, Deliveries(rounds[..i]), rounds[i].deliveries);
    } else {
      assert Deliveries(rounds[..i + 1]) == Deliveries(rounds[..i]);
    }
  }

  lemma {:induction false} WatchAllAppend(w: Watcher, st: Store, a: seq<Delivery>, b: seq<Delivery>)
    ensures w.WatchAll(st, a + b) == w.WatchAll(w.WatchAll(st, a), b)
  {
    if b == [] {
      assert a + b == a;
    } else {
      WatchAllAppend(w, st, a, b[..|b| - 1]);
      assert (a + b)[..|a + b| - 1] == a + b[..|b| - 1];
    }
  }
}
