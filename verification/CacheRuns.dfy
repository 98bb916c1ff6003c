// Whole runs of the plan cache: any sequence of prepares, and any interleaving
// of many.

module CacheRuns {
  import opened Wrappers
  import opened Dialects
  import opened Binder
  import opened Lru
  import opened PlanCache
  import opened Preparing

  // ----- one caller after another

  // Shard i of an empty cache after preparing qs in order.
  function ShardAfter(d: Dialect, per: nat, qs: seq<string>, i: nat): seq<Slot> {
    if qs == [] then []
    else
      var m := |qs| - 1;
      var c := ShardAfter(d, per, qs[..m], i);
      if ShardOf(KeyOf(d, qs[m])) == i then AfterPrepare(c, per, d, qs[m]) else c
  }

  // The keys shard i was asked to keep: the compilable statements that hash to it.
  function History(d: Dialect, qs: seq<string>, i: nat): seq<string> {
    if qs == [] then []
    else
      var m := |qs| - 1;
      History(d, qs[..m], i)
      + (if ShardOf(KeyOf(d, qs[m])) == i && PlanOf(qs[m]).Ok? then [KeyOf(d, qs[m])] else [])
  }

  // After any sequence of prepares every shard holds, most recent first, exactly
  // the most recently prepared distinct compilable statements hashing to it, as
  // many as it has room for.
  lemma {:induction false} HoldsMostRecent(d: Dialect, per: nat, qs: seq<string>, i: nat)
    requires per > 0
    ensures Keys(ShardAfter(d, per, qs, i)) == Take(Recent(History(d, qs, i)), per)
    ensures Sound(d, ShardAfter(d, per, qs, i), i, per)
  {
    hide PlanOf, KeyOf, Sound, Fronted, Recent, ShardOf;
    if qs == [] {
      EmptySound(d, i, per);
    } else {
      var m := |qs| - 1;
      HoldsMostRecent(d, per, qs[..m], i);
      if ShardOf(KeyOf(d, qs[m])) == i && PlanOf(qs[m]).Ok? {
        var c := ShardAfter(d, per, qs[..m], i);
        FrontedSound(d, c, i, per, qs[m]);
        RecentStep(c, per, History(d, qs[..m], i), KeyOf(d, qs[m]), PlanOf(qs[m]).value);
      } else {
        assert History(d, qs, i) == History(d, qs[..m], i);
      }
    }
  }

  lemma EmptySound(d: Dialect, i: nat, per: nat)
    ensures Sound(d, [], i, per) && Keys([]) == Take(Recent([]), per)
  {
  }

  lemma ShardBegins(d: Dialect, per: nat, qs: seq<string>, i: nat)
    requires |qs| == 0
    ensures ShardAfter(d, per, qs, i) == []
  {
  }

  lemma ShardGoesOn(d: Dialect, per: nat, qs: seq<string>, k: nat, i: nat)
    requires k < |qs|
    ensures ShardAfter(d, per, qs[..k + 1], i)
         == if ShardOf(KeyOf(d, qs[k])) == i then AfterPrepare(ShardAfter(d, per, qs[..k], i), per, d, qs[k])
            else ShardAfter(d, per, qs[..k], i)
  {
    hide AfterPrepare, KeyOf, ShardOf;
    assert qs[..k + 1][..k] == qs[..k];
  }

  // A new cache that has prepared qs in order, and what came of each: every shard
  // is as the history says, and every outcome is what it is without a cache.
  method PrepareAll(d: Dialect, size: int, qs: seq<string>, args: seq<Binding>)
    returns (cache: Cache, outcomes: seq<Outcome>)
    requires |args| == |qs|
    ensures fresh(cache) && cache.Valid() && cache.d == d && cache.per == PerShard(size)
    ensures forall i :: 0 <= i < SHARDS ==> cache.At(i) == ShardAfter(d, PerShard(size), qs, i)
    ensures |outcomes| == |qs| && forall k :: 0 <= k < |qs| ==> outcomes[k] == Uncached(d, qs[k], args[k])
  {
    hide AfterPrepare, KeyOf, ShardOf, ShardValid, Uncached, EntrySlots, Paired, ShardAfter;
    cache := new Cache(d, size);
    outcomes := [];
    forall i | 0 <= i < SHARDS
      ensures ShardAfter(d, PerShard(size), qs[..0], i) == []
    {
      ShardBegins(d, PerShard(size), qs[..0], i);
    }
    for k := 0 to |qs|
      invariant cache.Valid() && cache.d == d && cache.per == PerShard(size) && fresh(cache) && fresh(cache.shards)
      invariant forall i, e :: 0 <= i < SHARDS && e in cache.shards[i].order ==> fresh(e)
      invariant forall i :: 0 <= i < SHARDS ==> cache.At(i) == ShardAfter(d, PerShard(size), qs[..k], i)
      invariant |outcomes| == k && forall j :: 0 <= j < k ==> outcomes[j] == Uncached(d, qs[j], args[j])
    {
      var o := cache.Prepare(qs[k], args[k]);
      forall i | 0 <= i < SHARDS
        ensures ShardAfter(d, PerShard(size), qs[..k + 1], i)
             == if ShardOf(KeyOf(d, qs[k])) == i
                then AfterPrepare(ShardAfter(d, PerShard(size), qs[..k], i), PerShard(size), d, qs[k])
                else ShardAfter(d, PerShard(size), qs[..k], i)
      {
        ShardGoesOn(d, PerShard(size), qs, k, i);
      }
      outcomes := outcomes + [o];
    }
    assert qs[..|qs|] == qs;
  }

  // Whether preparing query next would find it compiled.
  predicate Hits(d: Dialect, per: nat, qs: seq<string>, query: string) {
    Find(ShardAfter(d, per, qs, ShardOf(KeyOf(d, query))), KeyOf(d, query)).Some?
  }

  // A prepare hits exactly when its statement was prepared before and fewer
  // distinct others of the same shard were prepared since than a shard has room for.
  lemma HitsExactly(d: Dialect, per: nat, qs: seq<string>, query: string)
    requires per > 0
    ensures var key := KeyOf(d, query);
            var h := History(d, qs, ShardOf(key));
            Hits(d, per, qs, query) <==> key in h && |Since(h, key)| < per
  {
    hide PlanOf, KeyOf, Sound, Recent, ShardOf, Since, ShardAfter;
    var key := KeyOf(d, query);
    var i := ShardOf(key);
    HoldsMostRecent(d, per, qs, i);
    HeldExactly(ShardAfter(d, per, qs, i), per, History(d, qs, i), key);
    FindHolds(ShardAfter(d, per, qs, i), key);
  }

  // A larger cache holds at least what a smaller one does, so it never loses a hit.
  lemma LargerKeepsHits(d: Dialect, size: int, size': int, qs: seq<string>, query: string)
    requires size <= size' && Hits(d, PerShard(size), qs, query)
    ensures Hits(d, PerShard(size'), qs, query)
  {
    hide History, Since, KeyOf, ShardOf, ShardAfter, Hits;
    HitsExactly(d, PerShard(size), qs, query);
    HitsExactly(d, PerShard(size'), qs, query);
    assert PerShard(size) <= PerShard(size');
  }

  // A compilable statement prepared again at once always hits, whatever size the
  // cache was asked to have: size zero does not disable it.
  lemma AgainAlwaysHits(d: Dialect, size: int, qs: seq<string>, query: string)
    requires PlanOf(query).Ok?
    ensures Hits(d, PerShard(size), qs + [query], query)
  {
    hide PlanOf, KeyOf, ShardOf, Hits;
    var key := KeyOf(d, query);
    assert (qs + [query])[..|qs|] == qs;
    var h := History(d, qs + [query], ShardOf(key));
    assert h[|h| - 1] == key && Since(h, key) == {};
    HitsExactly(d, PerShard(size), qs + [query], query);
  }

  // ----- many callers at once

  // Where a call to prepare stands. Lookups and stores hold the shard's lock, so
  // each is one step; compiling and rendering hold none.
  datatype Stage = Started | Missed | Compiled(plan: Plan) | Has(plan: Plan) | Done(outcome: Outcome)

  datatype Call = Call(query: string, args: Binding, stage: Stage)

  datatype State = State(shards: seq<seq<Slot>>, calls: seq<Call>)

  ghost predicate Init(s: State) {
    |s.shards| == SHARDS && (forall i :: 0 <= i < SHARDS ==> s.shards[i] == []) && s.calls == []
  }

  function ShardNo(d: Dialect, c: Call): nat {
    ShardOf(KeyOf(d, c.query))
  }

  function Staged(s: State, n: nat, stage: Stage): seq<Call>
    requires n < |s.calls|
  {
    s.calls[n := s.calls[n].(stage := stage)]
  }

  predicate Begins(s: State, s': State, c: Call) {
    c.stage.Started? && s' == State(s.shards, s.calls + [c])
  }

  predicate LooksUp(d: Dialect, s: State, s': State, n: nat)
    requires |s.shards| == SHARDS
  {
    && n < |s.calls| && s.calls[n].stage.Started?
    && var key, i := KeyOf(d, s.calls[n].query), ShardNo(d, s.calls[n]);
       var found := Find(s.shards[i], key);
       s' == State(s.shards[i := Touched(s.shards[i], key)],
                   Staged(s, n, if found.Some? then Has(found.value) else Missed))
  }

  predicate Compiles(s: State, s': State, n: nat) {
    && n < |s.calls| && s.calls[n].stage.Missed?
    && var p := PlanOf(s.calls[n].query);
       s' == State(s.shards, Staged(s, n, if p.Ok? then Compiled(p.value) else Done(Failed(p.error))))
  }

  predicate Stores(d: Dialect, per: nat, s: State, s': State, n: nat)
    requires |s.shards| == SHARDS
  {
    && n < |s.calls| && s.calls[n].stage.Compiled?
    && var key, i, p := KeyOf(d, s.calls[n].query), ShardNo(d, s.calls[n]), s.calls[n].stage.plan;
       s' == State(s.shards[i := Stored(s.shards[i], per, key, p)], Staged(s, n, Has(p)))
  }

  predicate Renders(d: Dialect, s: State, s': State, n: nat) {
    && n < |s.calls| && s.calls[n].stage.Has?
    && s' == State(s.shards, Staged(s, n, Done(Rendering(s.calls[n].stage.plan, d, s.calls[n].args))))
  }

  ghost predicate Step(d: Dialect, per: nat, s: State, s': State)
    requires |s.shards| == SHARDS
  {
    || (exists c :: Begins(s, s', c))
    || (exists n :: LooksUp(d, s, s', n))
    || (exists n :: Compiles(s, s', n))
    || (exists n :: Stores(d, per, s, s', n))
    || (exists n :: Renders(d, s, s', n))
  }

  ghost predicate Run(d: Dialect, per: nat, trace: seq<State>) {
    && trace != [] && Init(trace[0])
    && (forall k :: 0 <= k < |trace| ==> |trace[k].shards| == SHARDS)
    && forall k :: 0 <= k < |trace| - 1 ==> Step(d, per, trace[k], trace[k + 1])
  }

  // The plan a call carries is its statement's, and a finished call has the
  // outcome it would have without a cache.
  predicate CallRight(d: Dialect, c: Call) {
    match c.stage
    case Started => true
    case Missed => true
    case Compiled(plan) => PlanOf(c.query) == Ok(plan)
    case Has(plan) => PlanOf(c.query) == Ok(plan)
    case Done(outcome) => outcome == Uncached(d, c.query, c.args)
  }

  ghost predicate Inv(d: Dialect, per: nat, s: State) {
    && |s.shards| == SHARDS
    && (forall i :: 0 <= i < SHARDS ==> Sound(d, s.shards[i], i, per))
    && (forall n :: 0 <= n < |s.calls| ==> CallRight(d, s.calls[n]))
  }

  lemma LookUpKeeps(d: Dialect, per: nat, s: State, s': State, n: nat)
    requires Inv(d, per, s) && LooksUp(d, s, s', n)
    ensures Inv(d, per, s')
  {
    hide PlanOf, KeyOf, Sound, Find, Touched, Uncached;
    LookupStep(d, s.shards[ShardNo(d, s.calls[n])], ShardNo(d, s.calls[n]), per, s.calls[n].query);
  }

  lemma StoreKeeps(d: Dialect, per: nat, s: State, s': State, n: nat)
    requires Inv(d, per, s) && Stores(d, per, s, s', n)
    ensures Inv(d, per, s')
  {
    hide PlanOf, KeyOf, Sound, Find, Stored, Uncached;
    assert CallRight(d, s.calls[n]);
    StoreStep(d, s.shards[ShardNo(d, s.calls[n])], ShardNo(d, s.calls[n]), per, s.calls[n].query);
  }

  lemma LocalKeeps(d: Dialect, per: nat, s: State, s': State, n: nat)
    requires Inv(d, per, s) && (Compiles(s, s', n) || Renders(d, s, s', n))
    ensures Inv(d, per, s')
  {
    hide PlanOf, KeyOf, Sound, Find, Rendering;
    assert CallRight(d, s.calls[n]);
  }

  lemma StepKeeps(d: Dialect, per: nat, s: State, s': State)
    requires Inv(d, per, s) && Step(d, per, s, s')
    ensures Inv(d, per, s')
  {
    hide Sound, LooksUp, Compiles, Stores, Renders;
    if c :| Begins(s, s', c) {
    } else if n :| LooksUp(d, s, s', n) {
      LookUpKeeps(d, per, s, s', n);
    } else if n :| Compiles(s, s', n) {
      LocalKeeps(d, per, s, s', n);
    } else if n :| Stores(d, per, s, s', n) {
      StoreKeeps(d, per, s, s', n);
    } else {
      var n :| Renders(d, s, s', n);
      LocalKeeps(d, per, s, s', n);
    }
  }

  lemma {:induction false} RunKeeps(d: Dialect, per: nat, trace: seq<State>, k: nat)
    requires Run(d, per, trace) && k < |trace|
    ensures Inv(d, per, trace[k])
  {
    hide Step;
    if k > 0 {
      RunKeeps(d, per, trace, k - 1);
      StepKeeps(d, per, trace[k - 1], trace[k]);
    }
  }

  function TotalSize(shards: seq<seq<Slot>>): nat {
    if shards == [] then 0 else |shards[0]| + TotalSize(shards[1..])
  }

  lemma {:induction false} TotalBound(shards: seq<seq<Slot>>, per: nat)
    requires forall i :: 0 <= i < |shards| ==> |shards[i]| <= per
    ensures TotalSize(shards) <= |shards| * per
  {
    if shards != [] {
      TotalBound(shards[1..], per);
    }
  }

  // Whatever the goroutines do and in whatever order their steps fall, at every
  // moment each finished call has exactly the outcome it would have without a
  // cache, no shard holds a statement twice or one of another shard, and the
  // cache is within its size.
  lemma EveryInterleaving(d: Dialect, size: int, trace: seq<State>, k: nat)
    requires Run(d, PerShard(size), trace) && k < |trace|
    ensures forall n :: 0 <= n < |trace[k].calls| && trace[k].calls[n].stage.Done? ==>
              trace[k].calls[n].stage.outcome == Uncached(d, trace[k].calls[n].query, trace[k].calls[n].args)
    ensures forall i :: 0 <= i < SHARDS ==>
              Lru.Distinct(trace[k].shards[i]) && forall s :: s in trace[k].shards[i] ==> ShardOf(s.key) == i
    ensures TotalSize(trace[k].shards) <= SHARDS * PerShard(size)
  {
    hide Run, PlanOf, KeyOf, ShardOf, Agrees, Rendering;
    RunKeeps(d, PerShard(size), trace, k);
    var s := trace[k];
    forall i | 0 <= i < SHARDS
      ensures |s.shards[i]| <= PerShard(size)
    {
      assert Sound(d, s.shards[i], i, PerShard(size));
    }
    TotalBound(s.shards, PerShard(size));
    assert forall n :: 0 <= n < |s.calls| ==> CallRight(d, s.calls[n]);
  }
}
