// Retrying a transaction with jittered exponential backoff in 64-bit arithmetic.

module Retry {
  import opened Integers
  import opened Transactions

  // Durations are 64-bit counts of nanoseconds.
  datatype Policy = Policy(attempts: int, baseDelay: int, maxDelay: int)

  predicate ValidPolicy(p: Policy) {
    IsInt64(p.attempts) && IsInt64(p.baseDelay) && IsInt64(p.maxDelay)
  }

  function Attempts(p: Policy): (n: nat)
    ensures n >= 1
  {
    if p.attempts < 1 then 1 else p.attempts
  }

  // b * 2^n.
  function Doubled(b: int, n: nat): int {
    if n == 0 then b else 2 * Doubled(b, n - 1)
  }

  // The value of `delay` when the i-th wait starts, counting from 1. It doubles
  // each time, modulo 2^64, and is never capped itself.
  function DelayAt(p: Policy, i: nat): (delay: int)
    requires i >= 1
    ensures IsInt64(p.baseDelay) ==> IsInt64(delay)
  {
    if i == 1 then p.baseDelay else Wrap64(DelayAt(p, i - 1) * 2)
  }

  function Capped(p: Policy, delay: int): int {
    if p.maxDelay > 0 && delay > p.maxDelay then p.maxDelay else delay
  }

  // Choosing a wait in 0..d panics unless d + 1, as a 64-bit integer, is positive.
  predicate CanDraw(d: int) {
    Wrap64(d + 1) > 0
  }

  lemma DrawInRange(d: int, draw: nat)
    requires IsInt64(d) && CanDraw(d)
    ensures 0 <= draw % Wrap64(d + 1) <= d
  {
  }

  // Every wait from 0 to d can be drawn.
  lemma DrawsAny(d: int, draw: nat)
    requires IsInt64(d) && CanDraw(d) && draw <= d
    ensures draw % Wrap64(d + 1) == draw
  {
    NextFits(d);
    SmallRemainder(draw, d + 1);
  }

  lemma NextFits(d: int)
    requires IsInt64(d) && CanDraw(d)
    ensures Wrap64(d + 1) == d + 1
  {
  }

  lemma SmallRemainder(draw: nat, bound: nat)
    requires draw < bound
    ensures draw % bound == draw
  {
  }

  // A wait that the i-th delay of the policy allows.
  predicate Allowed(p: Policy, i: nat, wait: int)
    requires i >= 1
  {
    CanDraw(Capped(p, DelayAt(p, i))) && 0 <= wait <= Capped(p, DelayAt(p, i))
  }

  predicate AllAllowed(p: Policy, waits: seq<int>) {
    forall k :: 0 <= k < |waits| ==> Allowed(p, k + 1, waits[k])
  }

  function Sum(waits: seq<int>): int {
    if waits == [] then 0 else Sum(waits[..|waits| - 1]) + waits[|waits| - 1]
  }

  // How a run of InTxRetry ends.
  datatype Ending =
    | Succeeded
    | Returned(error: Error)
    | GaveUp(attempts: nat, error: Error)
    | FnPanicked(value: int)
    | Cancelled
    | DrawPanicked

  predicate Again(o: Outcome) {
    o.Failed? && Retryable(o.error.code)
  }

  // What the k-th run of fn does.
  function RunEffect(
    body: nat -> Prog, cfg: nat -> Config, faults: nat -> Faults, start: seq<int>, k: nat): (Outcome, seq<int>)
  {
    TxEffect(cfg(k), faults(k), body(k), start)
  }

  // The waits and runs of a policy, and how they end: each run starts where the
  // first did, each but the last fails in a way worth retrying, and the end is
  // the one the last run, the context or the draw of a wait calls for.
  ghost predicate Retried(p: Policy, body: nat -> Prog, cfg: nat -> Config, faults: nat -> Faults,
                          cancelled: nat -> bool, start: seq<int>, end: Ending, outcomes: seq<Outcome>,
                          waits: seq<int>, committed: seq<int>)
  {
    var n := |outcomes|;
    && 1 <= n <= Attempts(p)
    && (forall k :: 0 <= k < n ==> outcomes[k] == RunEffect(body, cfg, faults, start, k).0)
    && (forall k :: 0 <= k < n - 1 ==> Again(outcomes[k]))
    && (forall k :: 1 <= k < n ==> !cancelled(k))
    && AllAllowed(p, waits) && |waits| == (if end.Cancelled? then n else n - 1)
    && committed == RunEffect(body, cfg, faults, start, n - 1).1
    && (match outcomes[n - 1]
        case Success => end == Succeeded
        case Panicked(v) => end == FnPanicked(v)
        case Failed(err) =>
          if !Retryable(err.code) then end == Returned(err)
          else if n == Attempts(p) then end == GaveUp(n, err)
          else if !CanDraw(Capped(p, DelayAt(p, n))) then end == DrawPanicked
          else end == Cancelled && cancelled(n))
  }

  lemma AgainFails(o: Outcome)
    requires Again(o)
    ensures o.Failed?
  {
  }

  lemma AgainIfRetryable(err: Error)
    ensures Again(Failed(err)) <==> Retryable(err.code)
    ensures !Again(Success) && forall v :: !Again(Panicked(v))
  {
  }

  lemma RunIs(body: nat -> Prog, cfg: nat -> Config, faults: nat -> Faults, start: seq<int>, k: nat)
    ensures RunEffect(body, cfg, faults, start, k) == TxEffect(cfg(k), faults(k), body(k), start)
  {
  }

  // One wait: a value from 0 to the capped delay, unless that cannot be drawn.
  method Draw(p: Policy, i: nat, delay: int, jitter: nat) returns (wait: int, ok: bool)
    requires ValidPolicy(p) && i >= 1 && delay == DelayAt(p, i)
    ensures ok <==> CanDraw(Capped(p, DelayAt(p, i)))
    ensures ok ==> Allowed(p, i, wait)
    ensures ok && jitter <= (if p.maxDelay > 0 && delay > p.maxDelay then p.maxDelay else delay) ==> wait == jitter
  {
    hide DelayAt;
    var d := delay;
    if p.maxDelay > 0 && d > p.maxDelay {
      d := p.maxDelay;
    }
    var bound := Wrap64(d + 1);
    if bound <= 0 {
      return 0, false;
    }
    DrawInRange(d, jitter);
    if jitter <= d {
      DrawsAny(d, jitter);
    }
    return jitter % bound, true;
  }

  lemma DelayFirst(p: Policy)
    ensures DelayAt(p, 1) == p.baseDelay
  {
  }

  lemma DelayNext(p: Policy, i: nat)
    requires i >= 1
    ensures DelayAt(p, i + 1) == Wrap64(DelayAt(p, i) * 2)
  {
  }

  lemma NoWaits(p: Policy)
    ensures AllAllowed(p, [])
  {
  }

  lemma OneMoreWait(p: Policy, waits: seq<int>, wait: int)
    requires AllAllowed(p, waits) && Allowed(p, |waits| + 1, wait)
    ensures AllAllowed(p, waits + [wait])
  {
    hide Allowed;
  }

  // n runs are over, each worth retrying, with w waits taken before or after them.
  ghost predicate Tried(p: Policy, body: nat -> Prog, cfg: nat -> Config, faults: nat -> Faults, cancelled: nat -> bool,
                        start: seq<int>, outcomes: seq<Outcome>, waits: seq<int>, n: nat, w: nat)
  {
    && |outcomes| == n <= Attempts(p) && |waits| == w
    && (forall k :: 0 <= k < n ==> outcomes[k] == RunEffect(body, cfg, faults, start, k).0 && Again(outcomes[k]))
    && (forall k :: 1 <= k <= w && k < n ==> !cancelled(k))
    && AllAllowed(p, waits)
  }

  lemma NothingTried(p: Policy, body: nat -> Prog, cfg: nat -> Config, faults: nat -> Faults, cancelled: nat -> bool,
                     start: seq<int>)
    ensures Attempts(p) == if p.attempts < 1 then 1 else p.attempts
    ensures Tried(p, body, cfg, faults, cancelled, start, [], [], 0, 0)
  {
    NoWaits(p);
  }

  lemma TriedCounts(p: Policy, body: nat -> Prog, cfg: nat -> Config, faults: nat -> Faults, cancelled: nat -> bool,
                    start: seq<int>, outcomes: seq<Outcome>, waits: seq<int>, n: nat, w: nat)
    requires Tried(p, body, cfg, faults, cancelled, start, outcomes, waits, n, w)
    ensures |outcomes| == n && |waits| == w
  {
    hide RunEffect, AllAllowed, Again;
  }

  // A run that fails commits nothing.
  lemma FailedCommitsNothing(body: nat -> Prog, cfg: nat -> Config, faults: nat -> Faults, start: seq<int>, k: nat)
    requires !RunEffect(body, cfg, faults, start, k).0.Success?
    ensures RunEffect(body, cfg, faults, start, k).1 == start
  {
  }

  // The runs end without another: the budget is used up, the wait cannot be
  // drawn, or the context ended during it.
  lemma EndsBetween(p: Policy, body: nat -> Prog, cfg: nat -> Config, faults: nat -> Faults, cancelled: nat -> bool,
                    start: seq<int>, outcomes: seq<Outcome>, waits: seq<int>, n: nat, end: Ending)
    requires n >= 1 && Tried(p, body, cfg, faults, cancelled, start, outcomes, waits, n, |waits|)
    requires outcomes[n - 1].Failed?
    requires if n == Attempts(p) then |waits| == n - 1 && end == GaveUp(n, outcomes[n - 1].error)
             else if CanDraw(Capped(p, DelayAt(p, n))) then |waits| == n && cancelled(n) && end == Cancelled
             else |waits| == n - 1 && end == DrawPanicked
    ensures Retried(p, body, cfg, faults, cancelled, start, end, outcomes, waits, start)
  {
    hide RunEffect, DelayAt, Capped, CanDraw, AllAllowed, Retryable;
    FailedCommitsNothing(body, cfg, faults, start, n - 1);
  }

  // The runs end with one that is not worth retrying.
  lemma EndsWith(p: Policy, body: nat -> Prog, cfg: nat -> Config, faults: nat -> Faults, cancelled: nat -> bool,
                 start: seq<int>, outcomes: seq<Outcome>, waits: seq<int>, n: nat, o: Outcome, committed: seq<int>)
    requires Tried(p, body, cfg, faults, cancelled, start, outcomes, waits, n, n) && n < Attempts(p)
    requires (o, committed) == RunEffect(body, cfg, faults, start, n) && !Again(o)
    requires n > 0 ==> !cancelled(n)
    ensures var end := match o
                       case Success => Succeeded
                       case Panicked(v) => FnPanicked(v)
                       case Failed(e) => Returned(e);
            Retried(p, body, cfg, faults, cancelled, start, end, outcomes + [o], waits, committed)
  {
    hide RunEffect, DelayAt, Capped, CanDraw, AllAllowed, Retryable;
  }

  lemma TriedOnce(p: Policy, body: nat -> Prog, cfg: nat -> Config, faults: nat -> Faults, cancelled: nat -> bool,
                  start: seq<int>, outcomes: seq<Outcome>, waits: seq<int>, n: nat, o: Outcome)
    requires Tried(p, body, cfg, faults, cancelled, start, outcomes, waits, n, n) && n < Attempts(p)
    requires o == RunEffect(body, cfg, faults, start, n).0 && Again(o) && (n > 0 ==> !cancelled(n))
    ensures Tried(p, body, cfg, faults, cancelled, start, outcomes + [o], waits, n + 1, n)
  {
    hide RunEffect, AllAllowed, Again;
  }

  lemma Waited(p: Policy, body: nat -> Prog, cfg: nat -> Config, faults: nat -> Faults, cancelled: nat -> bool,
               start: seq<int>, outcomes: seq<Outcome>, waits: seq<int>, n: nat, wait: int)
    requires n >= 1 && Tried(p, body, cfg, faults, cancelled, start, outcomes, waits, n, n - 1)
    requires Allowed(p, n, wait)
    ensures Tried(p, body, cfg, faults, cancelled, start, outcomes, waits + [wait], n, n)
  {
    hide RunEffect, AllAllowed, Again, Allowed;
    OneMoreWait(p, waits, wait);
  }

  // The waits are any values the policy allows; `cancelled(i)` says whether the
  // context ends during the i-th wait. The k-th run of fn behaves as body(k),
  // against an engine and faults of its own.
  method InTxRetry(db: Database, p: Policy, body: nat -> Prog, cfg: nat -> Config, faults: nat -> Faults,
                   cancelled: nat -> bool, jitter: nat -> nat, counter: SavepointSeq)
    returns (end: Ending, outcomes: seq<Outcome>, waits: seq<int>)
    requires ValidPolicy(p)
    modifies db, counter
    ensures Retried(p, body, cfg, faults, cancelled, old(db.committed), end, outcomes, waits, db.committed)
  {
    hide *;
    ghost var start := db.committed;
    var attempts := if p.attempts < 1 then 1 else p.attempts;
    var delay := p.baseDelay;
    outcomes, waits := [], [];
    var last: Error := Error(BeginFailed, Unknown);
    DelayFirst(p);
    NothingTried(p, body, cfg, faults, cancelled, start);
    var i := 0;
    while i < attempts
      invariant 0 <= i <= attempts == Attempts(p)
      invariant Tried(p, body, cfg, faults, cancelled, start, outcomes, waits, i, if i == 0 then 0 else i - 1)
      invariant delay == DelayAt(p, if i == 0 then 1 else i)
      invariant db.committed == start
      invariant |outcomes| == i && (i > 0 ==> outcomes[i - 1] == Failed(last))
    {
      if i > 0 {
        TriedCounts(p, body, cfg, faults, cancelled, start, outcomes, waits, i, i - 1);
        var wait, ok := Draw(p, i, delay, jitter(i));
        if !ok {
          EndsBetween(p, body, cfg, faults, cancelled, start, outcomes, waits, i, DrawPanicked);
          return DrawPanicked, outcomes, waits;
        }
        Waited(p, body, cfg, faults, cancelled, start, outcomes, waits, i, wait);
        waits := waits + [wait];
        if cancelled(i) {
          EndsBetween(p, body, cfg, faults, cancelled, start, outcomes, waits, i, Cancelled);
          return Cancelled, outcomes, waits;
        }
        delay := Wrap64(delay * 2);
        DelayNext(p, i);
      }
      var o := InTx(db, cfg(i), faults(i), body(i), counter);
      RunIs(body, cfg, faults, start, i);
      if !Again(o) {
        EndsWith(p, body, cfg, faults, cancelled, start, outcomes, waits, i, o, db.committed);
      } else {
        TriedOnce(p, body, cfg, faults, cancelled, start, outcomes, waits, i, o);
        AgainFails(o);
        FailedCommitsNothing(body, cfg, faults, start, i);
      }
      outcomes := outcomes + [o];
      match o {
        case Success => return Succeeded, outcomes, waits;
        case Panicked(v) => return FnPanicked(v), outcomes, waits;
        case Failed(err) =>
          AgainIfRetryable(err);
          if !Retryable(err.code) {
            return Returned(err), outcomes, waits;
          }
          last := err;
      }
      i := i + 1;
    }
    TriedCounts(p, body, cfg, faults, cancelled, start, outcomes, waits, i, i - 1);
    EndsBetween(p, body, cfg, faults, cancelled, start, outcomes, waits, i, GaveUp(attempts, last));
    return GaveUp(attempts, last), outcomes, waits;
  }

  // ----- when the backoff is sound

  // The policies under which every wait of n attempts can be drawn.
  predicate SafeBackoff(p: Policy, n: nat) {
    n < 2 ||
    (&& 0 <= p.baseDelay
     && Doubled(p.baseDelay, n - 2) <= MAX_INT64
     && !(p.baseDelay == MAX_INT64 && (p.maxDelay <= 0 || p.maxDelay == MAX_INT64)))
  }

  predicate NeverPanics(p: Policy, n: nat) {
    forall i: nat :: 1 <= i < n ==> CanDraw(Capped(p, DelayAt(p, i)))
  }

  lemma {:induction false} DoubledMonotonic(b: nat, m: nat, n: nat)
    requires m <= n
    ensures 0 <= Doubled(b, m) <= Doubled(b, n)
    decreases m + n
  {
    if m < n {
      DoubledMonotonic(b, m, n - 1);
    } else if m > 0 {
      DoubledMonotonic(b, m - 1, n - 1);
    }
  }

  // Until the first overflow the delay is the base doubled i - 1 times.
  lemma {:induction false} DelayDoubles(p: Policy, i: nat)
    requires ValidPolicy(p) && i >= 1 && 0 <= p.baseDelay
    requires Doubled(p.baseDelay, i - 1) <= MAX_INT64
    ensures DelayAt(p, i) == Doubled(p.baseDelay, i - 1)
  {
    if i > 1 {
      DoubledMonotonic(p.baseDelay, i - 2, i - 1);
      DelayDoubles(p, i - 1);
    }
  }

  lemma SafeDraws(p: Policy, n: nat, i: nat)
    requires ValidPolicy(p) && SafeBackoff(p, n) && 1 <= i < n
    ensures DelayAt(p, i) == Doubled(p.baseDelay, i - 1)
    ensures 0 <= Capped(p, DelayAt(p, i)) < MAX_INT64
  {
    DoubledMonotonic(p.baseDelay, i - 1, n - 2);
    DelayDoubles(p, i);
    if i > 1 {
      assert Doubled(p.baseDelay, i - 1) == 2 * Doubled(p.baseDelay, i - 2);
    }
  }

  // The first wait whose doubled delay no longer fits in 64 bits.
  lemma {:induction false} FirstOverflow(p: Policy, n: nat) returns (i: nat)
    requires ValidPolicy(p) && n >= 2 && 0 <= p.baseDelay
    requires Doubled(p.baseDelay, n - 2) > MAX_INT64
    ensures 2 <= i < n
    ensures Doubled(p.baseDelay, i - 2) <= MAX_INT64 < Doubled(p.baseDelay, i - 1)
  {
    assert n > 2;
    if Doubled(p.baseDelay, n - 3) > MAX_INT64 {
      i := FirstOverflow(p, n - 1);
    } else {
      i := n - 1;
    }
  }

  lemma OverflowPanics(p: Policy, i: nat)
    requires ValidPolicy(p) && 0 <= p.baseDelay && i >= 2
    requires Doubled(p.baseDelay, i - 2) <= MAX_INT64 < Doubled(p.baseDelay, i - 1)
    ensures !CanDraw(Capped(p, DelayAt(p, i)))
  {
    DelayDoubles(p, i - 1);
    assert Doubled(p.baseDelay, i - 1) == 2 * Doubled(p.baseDelay, i - 2);
    assert DelayAt(p, i) == Doubled(p.baseDelay, i - 1) - TWO_64 < 0;
  }

  // n attempts never panic over a delay if and only if the base delay is not
  // negative, doubling it n - 2 times stays below 2^63, and it is not the one
  // delay whose successor overflows.
  lemma BackoffSafeExactly(p: Policy, n: nat)
    requires ValidPolicy(p)
    ensures NeverPanics(p, n) <==> SafeBackoff(p, n)
  {
    if SafeBackoff(p, n) {
      forall i: nat | 1 <= i < n
        ensures CanDraw(Capped(p, DelayAt(p, i)))
      {
        SafeDraws(p, n, i);
      }
    } else if 0 <= p.baseDelay && Doubled(p.baseDelay, n - 2) > MAX_INT64 {
      var i := FirstOverflow(p, n);
      OverflowPanics(p, i);
    } else {
      assert !CanDraw(Capped(p, DelayAt(p, 1)));
    }
  }

  // ----- how long the waits can take together

  // The waits of a safe policy add up to at most base * (2^waits - 1), and to at
  // most the cap each.
  lemma {:induction false} TotalWait(p: Policy, n: nat, waits: seq<int>)
    requires ValidPolicy(p) && SafeBackoff(p, n) && (|waits| < n || waits == [])
    requires AllAllowed(p, waits)
    ensures Sum(waits) <= Doubled(p.baseDelay, |waits|) - p.baseDelay
    ensures p.maxDelay > 0 ==> Sum(waits) <= |waits| * p.maxDelay
  {
    hide SafeBackoff, DelayAt, Allowed, Doubled;
    if waits == [] {
      NoSum(p);
    } else {
      var m := |waits| - 1;
      var front := waits[..m];
      forall k | 0 <= k < m
        ensures Allowed(p, k + 1, front[k])
      {
        assert Allowed(p, k + 1, waits[k]);
      }
      TotalWait(p, n, front);
      assert Allowed(p, m + 1, waits[m]);
      LastWait(p, n, m, waits[m]);
    }
  }

  lemma NoSum(p: Policy)
    ensures Sum([]) == Doubled(p.baseDelay, 0) - p.baseDelay == 0
  {
  }

  // One wait is at most the delay it is drawn from, and at most the cap.
  lemma LastWait(p: Policy, n: nat, m: nat, wait: int)
    requires ValidPolicy(p) && SafeBackoff(p, n) && m + 1 < n && Allowed(p, m + 1, wait)
    ensures Doubled(p.baseDelay, m) + wait <= Doubled(p.baseDelay, m + 1)
    ensures p.maxDelay > 0 ==> m * p.maxDelay + wait <= (m + 1) * p.maxDelay
  {
    hide SafeBackoff, DelayAt;
    SafeDraws(p, n, m + 1);
    assert (m + 1) * p.maxDelay == m * p.maxDelay + p.maxDelay;
  }

  // ----- what a policy promises

  // Exactly one run's effects on success, and none otherwise.
  lemma OneRunOrNone(p: Policy, body: nat -> Prog, cfg: nat -> Config, faults: nat -> Faults, cancelled: nat -> bool,
                     start: seq<int>, end: Ending, outcomes: seq<Outcome>, waits: seq<int>, committed: seq<int>)
    requires Retried(p, body, cfg, faults, cancelled, start, end, outcomes, waits, committed)
    ensures var k := |outcomes| - 1;
            var m := Meaning(cfg(k), body(k), start, 0, Success);
            if end.Succeeded? then m.outcome.Success? && committed == m.log else committed == start
  {
    hide Meaning;
  }

  // Under a safe policy no draw panics, and all the waits together stay within
  // the base delay's doublings and within the cap for each.
  lemma SafePolicy(p: Policy, body: nat -> Prog, cfg: nat -> Config, faults: nat -> Faults, cancelled: nat -> bool,
                   start: seq<int>, end: Ending, outcomes: seq<Outcome>, waits: seq<int>, committed: seq<int>)
    requires ValidPolicy(p) && SafeBackoff(p, Attempts(p))
    requires Retried(p, body, cfg, faults, cancelled, start, end, outcomes, waits, committed)
    ensures !end.DrawPanicked?
    ensures Sum(waits) <= Doubled(p.baseDelay, |waits|) - p.baseDelay
    ensures p.maxDelay > 0 ==> Sum(waits) <= (Attempts(p) - 1) * p.maxDelay
  {
    hide *;
    RetriedWaits(p, body, cfg, faults, cancelled, start, end, outcomes, waits, committed);
    BackoffSafeExactly(p, Attempts(p));
    if end.DrawPanicked? {
      DrawsAlways(p, |outcomes|);
    }
    TotalWait(p, Attempts(p), waits);
    CapEach(p, |waits|);
  }

  lemma DrawsAlways(p: Policy, i: nat)
    requires NeverPanics(p, Attempts(p)) && 1 <= i < Attempts(p)
    ensures CanDraw(Capped(p, DelayAt(p, i)))
  {
    hide CanDraw, Capped, DelayAt;
  }

  lemma CapEach(p: Policy, n: nat)
    requires n < Attempts(p)
    ensures p.maxDelay > 0 ==> n * p.maxDelay <= (Attempts(p) - 1) * p.maxDelay
  {
    var spare := Attempts(p) - 1 - n;
    assert (Attempts(p) - 1) * p.maxDelay == n * p.maxDelay + spare * p.maxDelay;
  }

  lemma RetriedWaits(p: Policy, body: nat -> Prog, cfg: nat -> Config, faults: nat -> Faults, cancelled: nat -> bool,
                     start: seq<int>, end: Ending, outcomes: seq<Outcome>, waits: seq<int>, committed: seq<int>)
    requires Retried(p, body, cfg, faults, cancelled, start, end, outcomes, waits, committed)
    ensures AllAllowed(p, waits) && |waits| < Attempts(p)
    ensures end.DrawPanicked? ==> 1 <= |outcomes| < Attempts(p) && !CanDraw(Capped(p, DelayAt(p, |outcomes|)))
  {
    hide RunEffect, DelayAt, Capped, CanDraw, AllAllowed;
  }

  // A failure a retry can fix.
  predicate WorthRetrying(o: Outcome) {
    o.Failed? && (o.error.code == Deadlock || o.error.code == SerializationFailure || o.error.code == Busy)
  }

  // The budget and the rule, on the policy's own numbers and the errors' codes:
  // it gives up exactly after as many runs as it may make, one at least, when the
  // last was worth retrying; every run but the last was; and a last run that was,
  // with budget left, was followed by a context that ended or a draw that panicked.
  lemma TriesExactly(p: Policy, body: nat -> Prog, cfg: nat -> Config, faults: nat -> Faults, cancelled: nat -> bool,
                     start: seq<int>, end: Ending, outcomes: seq<Outcome>, waits: seq<int>, committed: seq<int>)
    requires Retried(p, body, cfg, faults, cancelled, start, end, outcomes, waits, committed)
    ensures var budget := if p.attempts >= 1 then p.attempts else 1;
            var n := |outcomes|;
            && 1 <= n <= budget
            && (forall k :: 0 <= k < n - 1 ==> WorthRetrying(outcomes[k]))
            && (end.GaveUp? <==> n == budget && WorthRetrying(outcomes[n - 1]))
            && (end.GaveUp? ==> end == GaveUp(n, outcomes[n - 1].error))
            && (n < budget && WorthRetrying(outcomes[n - 1]) ==> end.DrawPanicked? || (end.Cancelled? && cancelled(n)))
            && (!WorthRetrying(outcomes[n - 1]) ==>
                  end == match outcomes[n - 1]
                         case Success => Succeeded
                         case Panicked(v) => FnPanicked(v)
                         case Failed(err) => Returned(err))
  {
    hide RunEffect, DelayAt, Capped, CanDraw, AllAllowed;
  }

  // The k-th run is reported as its function, begin, commit and rollback came out.
  lemma RunsReported(p: Policy, body: nat -> Prog, cfg: nat -> Config, faults: nat -> Faults, cancelled: nat -> bool,
                     start: seq<int>, end: Ending, outcomes: seq<Outcome>, waits: seq<int>, committed: seq<int>, k: nat)
    requires Retried(p, body, cfg, faults, cancelled, start, end, outcomes, waits, committed) && k < |outcomes|
    ensures exists after :: Reported(outcomes[k], after, faults(k), Meaning(cfg(k), body(k), start, 0, Success), start)
  {
    hide Meaning, Reported, TxEffect;
    TxReports(cfg(k), faults(k), body(k), start);
    var after := TxEffect(cfg(k), faults(k), body(k), start).1;
    assert Reported(outcomes[k], after, faults(k), Meaning(cfg(k), body(k), start, 0, Success), start);
  }

  // Under a safe policy the i-th wait is from 0 to the base delay doubled i - 1
  // times, or to the cap where there is one and it is less.
  lemma WaitsExactly(p: Policy, n: nat, i: nat, wait: int)
    requires ValidPolicy(p) && SafeBackoff(p, n) && 1 <= i < n
    ensures Allowed(p, i, wait) <==>
            0 <= wait <= Doubled(p.baseDelay, i - 1) && (p.maxDelay > 0 ==> wait <= p.maxDelay)
  {
    hide SafeBackoff, DelayAt;
    SafeDraws(p, n, i);
  }
}
