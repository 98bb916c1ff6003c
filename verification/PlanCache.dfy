// The cache of compiled statements: sixteen shards, each a map for lookup and a
// list for recency, and the prepare step that goes through it.

// What a shard holds, most recently used first, and what its operations do to that.
module Lru {
  import opened Wrappers
  import opened Binder

  datatype Slot = Slot(key: string, plan: Plan)

  function Keys(c: seq<Slot>): (ks: seq<string>)
    ensures |ks| == |c| && forall i :: 0 <= i < |c| ==> ks[i] == c[i].key
  {
    seq(|c|, i requires 0 <= i < |c| => c[i].key)
  }

  predicate Holds(c: seq<Slot>, key: string) {
    exists i :: 0 <= i < |c| && c[i].key == key
  }

  function Find(c: seq<Slot>, key: string): Option<Plan> {
    if c == [] then None else if c[0].key == key then Some(c[0].plan) else Find(c[1..], key)
  }

  function Without(c: seq<Slot>, key: string): seq<Slot> {
    if c == [] then []
    else (if c[0].key == key then [] else [c[0]]) + Without(c[1..], key)
  }

  function Take<T>(s: seq<T>, n: nat): seq<T> {
    if |s| <= n then s else s[..n]
  }

  // A hit: the entry moves to the front.
  function Touched(c: seq<Slot>, key: string): seq<Slot> {
    if Find(c, key).Some? then [Slot(key, Find(c, key).value)] + Without(c, key) else c
  }

  // A store: the entry is at the front with its new plan; a new one may push
  // the last ones out.
  function Stored(c: seq<Slot>, max: nat, key: string, plan: Plan): seq<Slot> {
    if Find(c, key).Some? then [Slot(key, plan)] + Without(c, key) else Take([Slot(key, plan)] + c, max)
  }

  predicate Distinct(c: seq<Slot>) {
    forall i, j :: 0 <= i < j < |c| ==> c[i].key != c[j].key
  }

  lemma {:induction false} FindHolds(c: seq<Slot>, key: string)
    ensures Find(c, key).Some? <==> Holds(c, key)
    ensures Find(c, key).Some? ==> Slot(key, Find(c, key).value) in c
  {
    if c != [] && c[0].key != key {
      FindHolds(c[1..], key);
      if Holds(c, key) {
        var i :| 0 <= i < |c| && c[i].key == key;
        assert c[1..][i - 1].key == key;
      }
      if Holds(c[1..], key) {
        var i :| 0 <= i < |c| - 1 && c[1..][i].key == key;
        assert c[i + 1].key == key;
      }
    }
  }

  lemma {:induction false} WithoutAbsent(c: seq<Slot>, key: string)
    requires !Holds(c, key)
    ensures Without(c, key) == c
  {
    if c != [] {
      assert c[0].key != key;
      forall i | 0 <= i < |c[1..]|
        ensures c[1..][i].key != key
      {
        assert c[i + 1].key != key;
      }
      WithoutAbsent(c[1..], key);
    }
  }

  // Removing the entry at position i of a list without duplicates.
  lemma {:induction false} WithoutAt(c: seq<Slot>, key: string, i: nat)
    requires Distinct(c) && i < |c| && c[i].key == key
    ensures Without(c, key) == c[..i] + c[i + 1..] && Find(c, key) == Some(c[i].plan)
  {
    var tail := c[1..];
    if i == 0 {
      forall j | 0 <= j < |tail|
        ensures tail[j].key != key
      {
        assert c[0].key != c[j + 1].key;
      }
      WithoutAbsent(tail, key);
    } else {
      assert c[0].key != key;
      DistinctTail(c);
      WithoutAt(tail, key, i - 1);
      assert [c[0]] + tail[..i - 1] == c[..i] && tail[i..] == c[i + 1..];
    }
  }

  lemma DistinctTail(c: seq<Slot>)
    requires Distinct(c) && c != []
    ensures Distinct(c[1..])
  {
    forall i, j | 0 <= i < j < |c[1..]|
      ensures c[1..][i].key != c[1..][j].key
    {
      assert c[i + 1].key != c[j + 1].key;
    }
  }

  // Front keeps a list free of duplicates and within its bound.
  function Fronted(c: seq<Slot>, key: string, plan: Plan): seq<Slot> {
    [Slot(key, plan)] + Without(c, key)
  }

  lemma {:induction false} FrontedDistinct(c: seq<Slot>, key: string, plan: Plan)
    requires Distinct(c)
    ensures Distinct(Fronted(c, key, plan))
    ensures |Fronted(c, key, plan)| == if Holds(c, key) then |c| else |c| + 1
    ensures forall s :: s in Fronted(c, key, plan) ==> s == Slot(key, plan) || s in c
  {
    if Holds(c, key) {
      var i :| 0 <= i < |c| && c[i].key == key;
      WithoutAt(c, key, i);
    } else {
      WithoutAbsent(c, key);
    }
  }

  // With the entries' plans agreeing with the plan stored, a hit, a store of a
  // present key and a store of a new one all do the same.
  lemma PreparedUniformly(c: seq<Slot>, max: nat, key: string, plan: Plan)
    requires Distinct(c) && |c| <= max
    requires Find(c, key).Some? ==> Find(c, key).value == plan
    ensures Find(c, key).Some? ==> Touched(c, key) == Take(Fronted(c, key, plan), max)
    ensures Stored(c, max, key, plan) == Take(Fronted(c, key, plan), max)
  {
    FindHolds(c, key);
    FrontedDistinct(c, key, plan);
    if !Holds(c, key) {
      WithoutAbsent(c, key);
    }
  }

  // ----- which keys those are

  function Drop(keys: seq<string>, key: string): seq<string> {
    if keys == [] then []
    else (if keys[0] == key then [] else [keys[0]]) + Drop(keys[1..], key)
  }

  // The distinct keys of a history, the most recently used first.
  function Recent(h: seq<string>): seq<string> {
    if h == [] then []
    else [h[|h| - 1]] + Drop(Recent(h[..|h| - 1]), h[|h| - 1])
  }

  lemma {:induction false} DropHas(keys: seq<string>, key: string, k: string)
    ensures k in Drop(keys, key) <==> k in keys && k != key
  {
    if keys != [] {
      DropHas(keys[1..], key, k);
    }
  }

  lemma {:induction false} KeysWithout(c: seq<Slot>, key: string)
    ensures Keys(Without(c, key)) == Drop(Keys(c), key)
  {
    if c != [] {
      KeysWithout(c[1..], key);
      assert Keys(c)[1..] == Keys(c[1..]);
    }
  }

  predicate NoDup(keys: seq<string>) {
    forall i, j :: 0 <= i < j < |keys| ==> keys[i] != keys[j]
  }

  lemma {:induction false} DropAbsent(keys: seq<string>, key: string)
    requires key !in keys
    ensures Drop(keys, key) == keys
  {
    if keys != [] {
      DropAbsent(keys[1..], key);
    }
  }

  lemma NoDupTail(keys: seq<string>)
    requires NoDup(keys) && keys != []
    ensures NoDup(keys[1..]) && keys[0] !in keys[1..]
  {
  }

  // Cutting a list to n + 1 keys before one is dropped does not change the first n.
  lemma {:induction false} DropTake(keys: seq<string>, key: string, n: nat)
    requires NoDup(keys)
    ensures Take(Drop(Take(keys, n + 1), key), n) == Take(Drop(keys, key), n)
  {
    if n > 0 && |keys| > n + 1 {
      var tail := keys[1..];
      NoDupTail(keys);
      assert Take(keys, n + 1)[1..] == Take(tail, n);
      if keys[0] == key {
        DropAbsent(tail, key);
        DropAbsent(Take(tail, n), key);
      } else {
        DropTake(tail, key, n - 1);
        TakeFront(keys[0], Drop(Take(tail, n), key), n);
        TakeFront(keys[0], Drop(tail, key), n);
      }
    }
  }

  lemma TakeFront(k: string, rest: seq<string>, m: nat)
    requires m > 0
    ensures Take([k] + rest, m) == [k] + Take(rest, m - 1)
  {
  }

  lemma {:induction false} DropNoDup(keys: seq<string>, key: string)
    requires NoDup(keys)
    ensures NoDup(Drop(keys, key))
  {
    if keys != [] {
      NoDupTail(keys);
      DropNoDup(keys[1..], key);
      DropHas(keys[1..], key, keys[0]);
    }
  }

  lemma {:induction false} RecentNoDup(h: seq<string>)
    ensures NoDup(Recent(h))
  {
    if h != [] {
      var m := |h| - 1;
      RecentNoDup(h[..m]);
      DropNoDup(Recent(h[..m]), h[m]);
      DropHas(Recent(h[..m]), h[m], h[m]);
    }
  }

  // A shard that held the most recent keys, cut to its size, still does after
  // one more is prepared.
  lemma RecentStep(c: seq<Slot>, max: nat, h: seq<string>, key: string, plan: Plan)
    requires max > 0 && Keys(c) == Take(Recent(h), max)
    ensures Keys(Take(Fronted(c, key, plan), max)) == Take(Recent(h + [key]), max)
  {
    assert (h + [key])[..|h|] == h;
    RecentNoDup(h);
    KeysWithout(c, key);
    DropTake(Recent(h), key, max - 1);
    TakeFront(key, Drop(Take(Recent(h), max), key), max);
    TakeFront(key, Drop(Recent(h), key), max);
    assert Keys(Fronted(c, key, plan)) == [key] + Keys(Without(c, key));
    assert Keys(Take(Fronted(c, key, plan), max)) == Take(Keys(Fronted(c, key, plan)), max);
  }

  // The keys prepared since key last was.
  function Since(h: seq<string>, key: string): set<string> {
    if h == [] || h[|h| - 1] == key then {} else {h[|h| - 1]} + Since(h[..|h| - 1], key)
  }

  lemma {:induction false} RecentHas(h: seq<string>, key: string)
    ensures key in Recent(h) <==> key in h
  {
    if h != [] {
      RecentHas(h[..|h| - 1], key);
      DropHas(Recent(h[..|h| - 1]), h[|h| - 1], key);
    }
  }

  // The position of a key in a list, or the list's length.
  function Position(keys: seq<string>, key: string): (p: nat)
    ensures p <= |keys| && (p < |keys| <==> key in keys)
    ensures p < |keys| ==> keys[p] == key
  {
    if keys == [] || keys[0] == key then 0 else 1 + Position(keys[1..], key)
  }

  // The keys that stand before a key.
  function Before(keys: seq<string>, key: string): set<string> {
    if keys == [] || keys[0] == key then {} else {keys[0]} + Before(keys[1..], key)
  }

  lemma {:induction false} BeforeSize(keys: seq<string>, key: string)
    requires NoDup(keys) && key in keys
    ensures |Before(keys, key)| == Position(keys, key)
    ensures forall k :: k in Before(keys, key) ==> k in keys
  {
    if keys[0] != key {
      NoDupTail(keys);
      BeforeSize(keys[1..], key);
    }
  }

  lemma {:induction false} DropBefore(keys: seq<string>, drop: string, key: string)
    requires drop != key
    ensures Before(Drop(keys, drop), key) == Before(keys, key) - {drop}
  {
    if keys != [] {
      DropBefore(keys[1..], drop, key);
      if keys[0] != drop {
        assert Drop(keys, drop)[1..] == Drop(keys[1..], drop);
      } else {
        assert Drop(keys, drop) == Drop(keys[1..], drop);
      }
    }
  }

  // A key's place in the recency order is decided by what was prepared after it.
  lemma {:induction false} BeforeIsSince(h: seq<string>, key: string)
    requires key in h
    ensures Before(Recent(h), key) == Since(h, key)
  {
    var m := |h| - 1;
    if h[m] != key {
      BeforeIsSince(h[..m], key);
      DropBefore(Recent(h[..m]), h[m], key);
      assert Recent(h)[1..] == Drop(Recent(h[..m]), h[m]);
    }
  }

  // A key is still held exactly when it was prepared, and fewer others than the
  // shard has room for were prepared since.
  lemma HeldExactly(c: seq<Slot>, max: nat, h: seq<string>, key: string)
    requires Keys(c) == Take(Recent(h), max)
    ensures Holds(c, key) <==> key in h && |Since(h, key)| < max
  {
    RecentHas(h, key);
    RecentNoDup(h);
    if key in h {
      BeforeIsSince(h, key);
      BeforeSize(Recent(h), key);
      var p := Position(Recent(h), key);
      if p < max {
        assert Keys(c)[p] == key;
      }
    }
    if Holds(c, key) {
      var i :| 0 <= i < |c| && c[i].key == key;
      assert Recent(h)[i] == Keys(c)[i] == key;
    }
  }
}

module PlanCache {
  import opened Wrappers
  import opened Dialects
  import opened Binder
  import opened Lru

  const SHARDS: nat := 16

  // ----- which shard

  // FNV-1a over 32 bits.
  function Fnv(key: string): nat {
    if key == "" then 2166136261 else Mixed(Fnv(key[..|key| - 1]), key[|key| - 1])
  }

  function Mixed(h: nat, c: char): nat {
    Xor(h, c as nat) * 16777619 % 0x1_0000_0000
  }

  // Exclusive or, bit by bit.
  function Xor(a: nat, b: nat): nat
    decreases a + b
  {
    if a == 0 && b == 0 then 0 else 2 * Xor(a / 2, b / 2) + (a + b) % 2
  }

  function Bit(n: nat, i: nat): nat {
    if i == 0 then n % 2 else Bit(n / 2, i - 1)
  }

  ghost predicate BitsDiffer(a: nat, b: nat, x: nat) {
    forall i: nat :: Bit(x, i) == if Bit(a, i) == Bit(b, i) then 0 else 1
  }

  lemma {:induction false} XorBit(a: nat, b: nat, i: nat)
    ensures Bit(Xor(a, b), i) == if Bit(a, i) == Bit(b, i) then 0 else 1
    decreases i
  {
    hide Xor;
    if i == 0 {
      XorLow(a, b);
    } else {
      XorBit(a / 2, b / 2, i - 1);
      XorHalf(a, b);
    }
  }

  lemma XorLow(a: nat, b: nat)
    ensures Xor(a, b) % 2 == if a % 2 == b % 2 then 0 else 1
  {
    Low(Xor(a / 2, b / 2), (a + b) % 2);
    SumLow(a, b);
  }

  lemma Low(half: nat, low: nat)
    requires low < 2
    ensures (2 * half + low) % 2 == low
  {
  }

  lemma SumLow(a: nat, b: nat)
    ensures (a + b) % 2 == if a % 2 == b % 2 then 0 else 1
  {
  }

  lemma XorHalf(a: nat, b: nat)
    ensures Xor(a, b) / 2 == Xor(a / 2, b / 2)
  {
  }

  // FNV-1a over 32 bits: from its offset basis, each byte flips the bits it has and
  // the sum is multiplied by its prime; the shard is the sum modulo sixteen.
  lemma FnvExactly(key: string, c: char)
    ensures Fnv("") == 0x811c9dc5 && ShardOf(key) == Fnv(key) % 16
    ensures exists x: nat :: BitsDiffer(Fnv(key), c as nat, x) && Fnv(key + [c]) == x * 0x0100_0193 % 0x1_0000_0000
  {
    hide Xor, Bit;
    var x := Xor(Fnv(key), c as nat);
    forall i: nat
      ensures Bit(x, i) == if Bit(Fnv(key), i) == Bit(c as nat, i) then 0 else 1
    {
      XorBit(Fnv(key), c as nat, i);
    }
    assert BitsDiffer(Fnv(key), c as nat, x);
    var longer := key + [c];
    assert longer[..|longer| - 1] == key && longer[|longer| - 1] == c;
    assert Fnv(longer) == x * 0x0100_0193 % 0x1_0000_0000;
  }

  function ShardOf(key: string): (i: nat)
    ensures i < SHARDS
  {
    Fnv(key) % SHARDS
  }

  method ShardFor(key: string) returns (i: nat)
    ensures i == ShardOf(key)
  {
    hide Mixed;
    var h: nat := 2166136261;
    for n := 0 to |key|
      invariant h == Fnv(key[..n])
    {
      assert key[..n + 1][..n] == key[..n];
      h := Mixed(h, key[n]);
    }
    assert key[..|key|] == key;
    i := h % SHARDS;
  }

  // Slots per shard: the size asked for divided evenly, and at least one. A size
  // of zero does not disable the cache.
  function PerShard(size: int): (per: nat)
    ensures if size < SHARDS then per == 1 else per * SHARDS <= size < (per + 1) * SHARDS
  {
    if size / SHARDS < 1 then 1 else size / SHARDS
  }

  // ----- one shard

  class Entry {
    const key: string
    var plan: Plan

    constructor (key: string, plan: Plan)
      ensures this.key == key && this.plan == plan
    {
      this.key, this.plan := key, plan;
    }
  }

  // The map and the list hold the same entries, once each.
  ghost predicate Paired(items: map<string, Entry>, order: seq<Entry>) {
    && (forall i, j :: 0 <= i < j < |order| ==> order[i].key != order[j].key)
    && (forall i :: 0 <= i < |order| ==> order[i].key in items && items[order[i].key] == order[i])
    && (forall k :: k in items ==> items[k] in order && items[k].key == k)
  }

  ghost function EntrySlots(es: seq<Entry>): (c: seq<Slot>)
    reads set e | e in es :: e
    decreases |es|
    ensures |c| == |es| && forall i :: 0 <= i < |c| ==> c[i] == Slot(es[i].key, es[i].plan)
  {
    if es == [] then []
    else
      assert es[0] in es && forall e :: e in es[1..] ==> e in es;
      [Slot(es[0].key, es[0].plan)] + EntrySlots(es[1..])
  }

  // The list with its i-th element moved to the front.
  function Rotated<T>(s: seq<T>, i: nat): seq<T>
    requires i < |s|
  {
    [s[i]] + s[..i] + s[i + 1..]
  }

  // Where the j-th element of the rotated list stood.
  function StoodAt(i: nat, j: nat): nat {
    if j == 0 then i else if j <= i then j - 1 else j
  }

  lemma StoodWithin(i: nat, j: nat, n: nat)
    requires i < n && j < n
    ensures StoodAt(i, j) < n
  {
  }

  lemma RotatedAt<T>(s: seq<T>, i: nat)
    requires i < |s|
    ensures var r := Rotated(s, i);
            |r| == |s| && forall j :: 0 <= j < |r| ==> r[j] == s[StoodAt(i, j)]
  {
  }

  lemma RotatedHas<T>(s: seq<T>, i: nat)
    requires i < |s|
    ensures forall e :: e in Rotated(s, i) <==> e in s
  {
    assert s == s[..i] + [s[i]] + s[i + 1..];
  }

  lemma SlotsRotate(order: seq<Entry>, i: nat)
    requires i < |order|
    ensures EntrySlots(Rotated(order, i)) == Rotated(EntrySlots(order), i)
  {
    hide EntrySlots;
    var c, r := EntrySlots(order), Rotated(order, i);
    RotatedAt(order, i);
    RotatedAt(c, i);
    hide Rotated;
    hide StoodAt;
    forall j | 0 <= j < |r|
      ensures EntrySlots(r)[j] == Rotated(c, i)[j]
    {
      StoodWithin(i, j, |order|);
      var at := StoodAt(i, j);
      assert EntrySlots(r)[j] == Slot(order[at].key, order[at].plan) == c[at];
    }
  }

  lemma SlotsDistinct(items: map<string, Entry>, order: seq<Entry>)
    requires Paired(items, order)
    ensures Distinct(EntrySlots(order))
  {
    hide EntrySlots;
  }

  lemma RotatedSlots(items: map<string, Entry>, order: seq<Entry>, i: nat)
    requires Paired(items, order) && i < |order|
    ensures EntrySlots(Rotated(order, i))
         == [Slot(order[i].key, order[i].plan)] + Without(EntrySlots(order), order[i].key)
  {
    hide EntrySlots, Without, Find, Paired, Distinct;
    var c := EntrySlots(order);
    SlotsDistinct(items, order);
    WithoutAt(c, order[i].key, i);
    SlotsRotate(order, i);
    assert [c[i]] + c[..i] + c[i + 1..] == [c[i]] + (c[..i] + c[i + 1..]);
  }

  lemma RotatedPaired(items: map<string, Entry>, order: seq<Entry>, i: nat)
    requires Paired(items, order) && i < |order|
    ensures Paired(items, Rotated(order, i))
  {
    var r := Rotated(order, i);
    RotatedAt(order, i);
    hide Rotated;
    forall j, k | 0 <= j < k < |r|
      ensures r[j].key != r[k].key
    {
      var j', k' := StoodAt(i, j), StoodAt(i, k);
      assert j' < k' || k' < j';
    }
  }

  lemma NewPaired(items: map<string, Entry>, order: seq<Entry>, e: Entry)
    requires Paired(items, order) && e.key !in items
    ensures Paired(items[e.key := e], [e] + order)
  {
    var items', order' := items[e.key := e], [e] + order;
    forall k | k in items'
      ensures items'[k] in order' && items'[k].key == k
    {
      if k != e.key {
        assert items[k] in order;
      }
    }
  }

  lemma LastDropped(items: map<string, Entry>, order: seq<Entry>)
    requires Paired(items, order) && order != []
    ensures Paired(items - {order[|order| - 1].key}, order[..|order| - 1])
  {
    var m := |order| - 1;
    forall k | k in items && k != order[m].key
      ensures items[k] in order[..m]
    {
      var j :| 0 <= j < |order| && order[j] == items[k];
      assert order[..m][j] == items[k];
    }
  }

  lemma PairedLookup(items: map<string, Entry>, order: seq<Entry>, key: string)
    requires Paired(items, order)
    ensures var c := EntrySlots(order);
            && Distinct(c)
            && (key in items <==> Find(c, key).Some?)
            && (key in items ==> Find(c, key) == Some(items[key].plan))
  {
    hide Find, Without, Holds, EntrySlots, Distinct;
    var c := EntrySlots(order);
    SlotsDistinct(items, order);
    FindHolds(c, key);
    if key in items {
      var i :| 0 <= i < |order| && order[i] == items[key];
      WithoutAt(c, key, i);
    } else {
      NoSlot(items, order, key);
    }
  }

  lemma NoSlot(items: map<string, Entry>, order: seq<Entry>, key: string)
    requires Paired(items, order) && key !in items
    ensures !Holds(EntrySlots(order), key)
  {
    hide EntrySlots;
    assert forall i :: 0 <= i < |order| ==> order[i].key != key;
  }

  class Shard {
    const max: nat
    var items: map<string, Entry>
    var order: seq<Entry>

    constructor (max: nat)
      requires max > 0
      ensures Valid() && this.max == max && order == []
    {
      this.max, items, order := max, map[], [];
    }

    ghost predicate Valid()
      reads this
    {
      0 < max && |order| <= max && Paired(items, order)
    }

    ghost function Contents(): seq<Slot>
      reads this, set e | e in order :: e
    {
      EntrySlots(order)
    }

    method MoveToFront(e: Entry)
      requires Valid() && e in order
      modifies this
      ensures Valid() && items == old(items)
      ensures forall e' :: e' in order <==> e' in old(order)
      ensures order != [] && order[0] == e
      ensures Contents() == [Slot(e.key, e.plan)] + Without(old(Contents()), e.key)
    {
      hide Paired, Without, EntrySlots;
      var i := Find(e);
      RotatedPaired(items, order, i);
      RotatedAt(order, i);
      RotatedHas(order, i);
      RotatedSlots(items, order, i);
      hide Rotated;
      order := Rotated(order, i);
    }

    method Find(e: Entry) returns (i: nat)
      requires e in order
      ensures i < |order| && order[i] == e
    {
      i := 0;
      while order[i] != e
        invariant i < |order| && e in order[i..]
        decreases |order| - i
      {
        i := i + 1;
      }
    }

    method Get(key: string) returns (r: Option<Plan>)
      requires Valid()
      modifies this
      ensures Valid() && forall e :: e in order <==> e in old(order)
      ensures r == Lru.Find(old(Contents()), key)
      ensures Contents() == Touched(old(Contents()), key)
    {
      PairedLookup(items, order, key);
      if key !in items {
        return None;
      }
      var e := items[key];
      MoveToFront(e);
      r := Some(e.plan);
    }

    method Put(key: string, plan: Plan)
      requires Valid()
      modifies this, set e | e in order :: e
      ensures Valid()
      ensures forall e :: e in order ==> e in old(order) || (fresh(e) && e.key == key)
      ensures Contents() == Stored(old(Contents()), max, key, plan)
    {
      PairedLookup(items, order, key);
      if key in items {
        Replace(items[key], plan);
      } else {
        Insert(key, plan);
      }
    }

    method Replace(e: Entry, plan: Plan)
      requires Valid() && e in order
      modifies this, e
      ensures Valid() && forall e' :: e' in order <==> e' in old(order)
      ensures Contents() == [Slot(e.key, plan)] + Without(old(Contents()), e.key)
    {
      MoveToFront(e);
      assert forall j :: 0 < j < |order| ==> order[j] != e;
      ghost var moved := Contents();
      e.plan := plan;
      assert Contents() == [Slot(e.key, plan)] + moved[1..];
    }

    method Insert(key: string, plan: Plan)
      requires Valid() && key !in items
      modifies this
      ensures Valid()
      ensures forall e :: e in order ==> e in old(order) || (fresh(e) && e.key == key)
      ensures Contents() == Take([Slot(key, plan)] + old(Contents()), max)
    {
      hide Paired;
      ghost var c := Contents();
      var e := new Entry(key, plan);
      NewPaired(items, order, e);
      order := [e] + order;
      items := items[key := e];
      assert Contents() == [Slot(key, plan)] + c;
      Evict();
    }

    // Drops entries from the back until the shard fits.
    method Evict()
      requires 0 < max && Paired(items, order)
      modifies this
      ensures Valid() && order == Take(old(order), max)
      ensures Contents() == Take(old(Contents()), max)
    {
      hide Paired, EntrySlots;
      ghost var order0, c := order, Contents();
      while |order| > max
        invariant Paired(items, order) && |order| <= |order0| && order == order0[..|order|]
        invariant max <= |order| || order == order0
      {
        LastDropped(items, order);
        var last := order[|order| - 1];
        order := order[..|order| - 1];
        items := items - {last.key};
      }
      TakenSlots(order0, |order|);
    }
  }

  lemma TakenSlots(es: seq<Entry>, n: nat)
    requires n <= |es|
    ensures EntrySlots(es[..n]) == EntrySlots(es)[..n]
  {
    hide EntrySlots;
  }
}
