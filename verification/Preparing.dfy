// Preparing statements through the plan cache: what one caller sees, what any
// history leaves in the shards, and what goroutines do to each other.

module Preparing {
  import opened Wrappers
  import opened Dialects
  import opened Binder
  import opened Lru
  import opened PlanCache

  // What the arguments of a call come down to: named or positional values, or a
  // struct whose columns clash.
  datatype Binding = Bound(src: Source, pos: seq<Value>) | Unbound

  datatype Outcome = Ready(statement: Rendered) | Failed(error: BindError) | BadArguments

  function Rendering(p: Plan, d: Dialect, args: Binding): Outcome {
    if args.Unbound? then BadArguments
    else
      var r := RenderPlan(p, d, args.src, args.pos);
      if r.Ok? then Ready(r.value) else Failed(r.error)
  }

  // What preparing comes to with no cache at all.
  function Uncached(d: Dialect, query: string, args: Binding): Outcome {
    var p := PlanOf(query);
    if p.Ok? then Rendering(p.value, d, args) else Failed(p.error)
  }

  function KeyOf(d: Dialect, query: string): string {
    d.name + ['\0'] + query
  }

  lemma KeyInjective(d: Dialect, a: string, b: string)
    requires KeyOf(d, a) == KeyOf(d, b)
    ensures a == b
  {
    assert KeyOf(d, a)[|d.name| + 1..] == a;
    assert KeyOf(d, b)[|d.name| + 1..] == b;
  }

  // The slot holds what its statement compiles to.
  ghost predicate Agrees(d: Dialect, s: Slot) {
    exists query :: s.key == KeyOf(d, query) && PlanOf(query) == Ok(s.plan)
  }

  lemma AgreedPlan(d: Dialect, s: Slot, query: string)
    requires Agrees(d, s) && s.key == KeyOf(d, query)
    ensures PlanOf(query) == Ok(s.plan)
  {
    hide PlanOf, KeyOf;
    var q :| s.key == KeyOf(d, q) && PlanOf(q) == Ok(s.plan);
    KeyInjective(d, query, q);
  }

  // What every shard is at all times: within its bound, free of duplicates, and
  // holding only statements of its own, each with its plan.
  ghost predicate Sound(d: Dialect, c: seq<Slot>, i: nat, max: nat) {
    && Lru.Distinct(c) && |c| <= max
    && forall s :: s in c ==> Agrees(d, s) && ShardOf(s.key) == i
  }

  // A whole prepare, as one step of the shard its statement belongs to.
  function AfterPrepare(c: seq<Slot>, max: nat, d: Dialect, query: string): seq<Slot> {
    if PlanOf(query).Ok? then Take(Fronted(c, KeyOf(d, query), PlanOf(query).value), max) else c
  }

  lemma FoundAgrees(d: Dialect, c: seq<Slot>, i: nat, max: nat, query: string)
    requires Sound(d, c, i, max) && Find(c, KeyOf(d, query)).Some?
    ensures PlanOf(query) == Ok(Find(c, KeyOf(d, query)).value)
  {
    hide PlanOf, KeyOf, Agrees;
    FindHolds(c, KeyOf(d, query));
    AgreedPlan(d, Slot(KeyOf(d, query), Find(c, KeyOf(d, query)).value), query);
  }

  lemma FrontedSound(d: Dialect, c: seq<Slot>, i: nat, max: nat, query: string)
    requires Sound(d, c, i, max) && PlanOf(query).Ok? && ShardOf(KeyOf(d, query)) == i
    ensures Sound(d, AfterPrepare(c, max, d, query), i, max)
  {
    hide PlanOf, KeyOf, Without, ShardOf;
    FrontedDistinct(c, KeyOf(d, query), PlanOf(query).value);
    assert Agrees(d, Slot(KeyOf(d, query), PlanOf(query).value));
  }

  // A lookup leaves a sound shard sound. When it hits, the shard is as a whole
  // prepare leaves it, and so it is when a missing plan is stored.
  lemma LookupStep(d: Dialect, c: seq<Slot>, i: nat, max: nat, query: string)
    requires Sound(d, c, i, max) && ShardOf(KeyOf(d, query)) == i
    ensures Sound(d, Touched(c, KeyOf(d, query)), i, max)
    ensures Find(c, KeyOf(d, query)).Some? ==>
              PlanOf(query) == Ok(Find(c, KeyOf(d, query)).value)
              && Touched(c, KeyOf(d, query)) == AfterPrepare(c, max, d, query)
    ensures Find(c, KeyOf(d, query)).None? ==> Touched(c, KeyOf(d, query)) == c
  {
    hide PlanOf, KeyOf, Without, ShardOf, Sound, Find;
    if Find(c, KeyOf(d, query)).Some? {
      FoundAgrees(d, c, i, max, query);
      FrontedSound(d, c, i, max, query);
      SoundParts(d, c, i, max);
      PreparedUniformly(c, max, KeyOf(d, query), PlanOf(query).value);
    }
  }

  lemma SoundParts(d: Dialect, c: seq<Slot>, i: nat, max: nat)
    requires Sound(d, c, i, max)
    ensures Lru.Distinct(c) && |c| <= max
  {
  }

  lemma StoreStep(d: Dialect, c: seq<Slot>, i: nat, max: nat, query: string)
    requires Sound(d, c, i, max) && ShardOf(KeyOf(d, query)) == i && PlanOf(query).Ok?
    ensures var c' := Stored(c, max, KeyOf(d, query), PlanOf(query).value);
            c' == AfterPrepare(c, max, d, query) && Sound(d, c', i, max)
  {
    hide PlanOf, KeyOf, Without, ShardOf, Sound, Find, Stored;
    if Find(c, KeyOf(d, query)).Some? {
      FoundAgrees(d, c, i, max, query);
    }
    SoundParts(d, c, i, max);
    FrontedSound(d, c, i, max, query);
    PreparedUniformly(c, max, KeyOf(d, query), PlanOf(query).value);
  }

  // ----- the cache

  class Cache {
    const d: Dialect
    const per: nat
    const shards: seq<Shard>

    ghost predicate Valid()
      reads this, shards, set s, e | s in shards && e in s.order :: e
    {
      && |shards| == SHARDS && per > 0
      && (forall i, j :: 0 <= i < j < SHARDS ==> shards[i] != shards[j])
      && (forall i :: 0 <= i < SHARDS ==> ShardValid(d, shards[i], i, per))
    }

    ghost function At(i: nat): seq<Slot>
      requires i < |shards|
      reads this, shards[i], set e | e in shards[i].order :: e
    {
      shards[i].Contents()
    }

    constructor (d: Dialect, size: int)
      ensures Valid() && this.d == d && per == PerShard(size)
      ensures forall i :: 0 <= i < SHARDS ==> At(i) == [] && shards[i].order == []
      ensures fresh(shards)
    {
      var made: seq<Shard> := [];
      var each := PerShard(size);
      for n := 0 to SHARDS
        invariant |made| == n && fresh(made)
        invariant forall i, j :: 0 <= i < j < n ==> made[i] != made[j]
        invariant forall i :: 0 <= i < n ==> made[i].Valid() && made[i].max == each && made[i].order == []
      {
        var s := new Shard(each);
        made := made + [s];
      }
      this.d, per, shards := d, each, made;
    }

    method Get(query: string) returns (r: Option<Plan>)
      requires Valid()
      modifies shards[ShardOf(KeyOf(d, query))]
      ensures Valid()
      ensures var i := ShardOf(KeyOf(d, query));
              && (r.Some? ==> PlanOf(query) == Ok(r.value))
              && At(i) == (if r.Some? then AfterPrepare(old(At(i)), per, d, query) else old(At(i)))
              && (forall e :: e in shards[i].order <==> e in old(shards[i].order))
              && forall j :: 0 <= j < SHARDS && j != i ==> At(j) == old(At(j))
    {
      hide ShardValid, KeyOf, AfterPrepare, EntrySlots;
      var i := ShardFor(KeyOf(d, query));
      r := FoundIn(shards[i], d, i, per, query);
    }

    method Put(query: string, plan: Plan)
      requires Valid() && PlanOf(query) == Ok(plan)
      modifies shards[ShardOf(KeyOf(d, query))], set e | e in shards[ShardOf(KeyOf(d, query))].order :: e
      ensures Valid()
      ensures var i := ShardOf(KeyOf(d, query));
              && At(i) == AfterPrepare(old(At(i)), per, d, query)
              && forall j :: 0 <= j < SHARDS && j != i ==> At(j) == old(At(j))
      ensures forall i, e :: 0 <= i < SHARDS && e in shards[i].order ==> e in old(shards[i].order) || fresh(e)
    {
      hide ShardValid, KeyOf, AfterPrepare, EntrySlots, ShardOf, PlanOf, Paired;
      var i := ShardFor(KeyOf(d, query));
      forall j, e | 0 <= j < SHARDS && e in shards[j].order
        ensures ShardOf(e.key) == j
      {
        OwnKeys(d, shards[j], j, per, e);
      }
      StoreIn(shards[i], d, i, per, query, plan);
    }

    // The plan of a statement, from the cache or compiled and kept.
    method Acquire(query: string) returns (r: Result<Plan, BindError>)
      requires Valid()
      modifies shards[ShardOf(KeyOf(d, query))], set e | e in shards[ShardOf(KeyOf(d, query))].order :: e
      ensures Valid()
      ensures r == PlanOf(query)
      ensures var i := ShardOf(KeyOf(d, query));
              && At(i) == AfterPrepare(old(At(i)), per, d, query)
              && forall j :: 0 <= j < SHARDS && j != i ==> At(j) == old(At(j))
      ensures forall i, e :: 0 <= i < SHARDS && e in shards[i].order ==> e in old(shards[i].order) || fresh(e)
    {
      hide ShardValid, PlanOf, KeyOf, EntrySlots, ShardOf, Take, Fronted;
      var cached := Get(query);
      if cached.Some? {
        return Ok(cached.value);
      }
      r := Compile(query);
      if r.Ok? {
        Put(query, r.value);
      }
    }

    // The result is what it is without a cache, and the one shard concerned
    // takes one step; the others are as they were.
    method Prepare(query: string, args: Binding) returns (r: Outcome)
      requires Valid()
      modifies shards[ShardOf(KeyOf(d, query))], set e | e in shards[ShardOf(KeyOf(d, query))].order :: e
      ensures Valid()
      ensures r == Uncached(d, query, args)
      ensures var i := ShardOf(KeyOf(d, query));
              && At(i) == AfterPrepare(old(At(i)), per, d, query)
              && forall j :: 0 <= j < SHARDS && j != i ==> At(j) == old(At(j))
      ensures forall i, e :: 0 <= i < SHARDS && e in shards[i].order ==> e in old(shards[i].order) || fresh(e)
    {
      hide ShardValid, PlanOf, KeyOf, EntrySlots, ShardOf, AfterPrepare, RenderPlan;
      var p := Acquire(query);
      if p.Err? {
        return Failed(p.error);
      }
      if args.Unbound? {
        return BadArguments;
      }
      PlansFit(query);
      var rendered := Render(p.value, d, args.src, args.pos);
      r := if rendered.Ok? then Ready(rendered.value) else Failed(rendered.error);
    }
  }

  // One shard of a cache for d.
  ghost predicate ShardValid(d: Dialect, s: Shard, i: nat, per: nat)
    reads s, set e | e in s.order :: e
  {
    s.Valid() && s.max == per && Sound(d, s.Contents(), i, per)
  }

  lemma OwnKeys(d: Dialect, s: Shard, i: nat, per: nat, e: Entry)
    requires ShardValid(d, s, i, per) && e in s.order
    ensures ShardOf(e.key) == i
  {
    hide ShardOf, Agrees;
    var k :| 0 <= k < |s.order| && s.order[k] == e;
    assert s.Contents()[k] in s.Contents();
  }

  method FoundIn(s: Shard, d: Dialect, i: nat, per: nat, query: string) returns (r: Option<Plan>)
    requires ShardValid(d, s, i, per) && ShardOf(KeyOf(d, query)) == i
    modifies s
    ensures ShardValid(d, s, i, per) && forall e :: e in s.order <==> e in old(s.order)
    ensures r.Some? ==> PlanOf(query) == Ok(r.value)
    ensures s.Contents() == if r.Some? then AfterPrepare(old(s.Contents()), per, d, query) else old(s.Contents())
  {
    hide PlanOf, KeyOf, Sound, Find, Touched, AfterPrepare, Paired, EntrySlots, ShardOf;
    LookupStep(d, s.Contents(), i, per, query);
    r := s.Get(KeyOf(d, query));
  }

  method StoreIn(s: Shard, d: Dialect, i: nat, per: nat, query: string, plan: Plan)
    requires ShardValid(d, s, i, per) && ShardOf(KeyOf(d, query)) == i && PlanOf(query) == Ok(plan)
    modifies s, set e | e in s.order :: e
    ensures ShardValid(d, s, i, per) && forall e :: e in s.order ==> e in old(s.order) || fresh(e)
    ensures s.Contents() == AfterPrepare(old(s.Contents()), per, d, query)
  {
    hide PlanOf, KeyOf, Sound, Find, Stored, AfterPrepare, Paired, EntrySlots, ShardOf;
    StoreStep(d, s.Contents(), i, per, query);
    s.Put(KeyOf(d, query), plan);
  }
}
