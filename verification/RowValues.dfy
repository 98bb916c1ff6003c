// Struct values, writing a leaf at an index path and reading one, and what a
// list of such writes makes of the zero value.

module RowValues {
  import opened Mapper
  import opened MapperStructure

  // A database value, and a Go value of a mapped type: a leaf holds what it
  // would be read from or written as.
  datatype Cell = Null | Data(n: int)

  datatype Val = LeafV(cell: Cell) | StructV(fields: seq<Val>) | NilV | PtrV(to: Val)

  datatype Write = Write(path: seq<nat>, cell: Cell)

  // A struct cannot contain itself by value: rank witnesses it.
  predicate Ranked(g: Graph, rank: nat -> nat)
    requires Closed(g)
  {
    forall t, i :: t in g && 0 <= i < |g[t]| && g[t][i].ftype.Struct? ==> rank(g[t][i].ftype.t) < rank(t)
  }

  predicate Known(g: Graph, ft: FieldType) {
    ft.Leaf? || ft.t in g
  }

  predicate World(g: Graph, rank: nat -> nat) {
    Closed(g) && Ranked(g, rank)
  }

  predicate Typed(g: Graph, ft: FieldType, v: Val)
    requires Closed(g) && Known(g, ft)
    decreases v
  {
    match v
    case LeafV(cell) => ft.Leaf? && (cell.Null? ==> ft.nullable)
    case StructV(fields) =>
      && ft.Struct? && |fields| == |g[ft.t]|
      && forall i :: 0 <= i < |fields| ==> Typed(g, g[ft.t][i].ftype, fields[i])
    case NilV => ft.Pointer?
    case PtrV(to) => ft.Pointer? && Typed(g, Struct(ft.t), to)
  }

  function Zero(g: Graph, rank: nat -> nat, ft: FieldType): (v: Val)
    requires World(g, rank) && Known(g, ft)
    ensures Typed(g, ft, v)
    decreases if ft.Struct? then rank(ft.t) + 1 else 0
  {
    if ft.Leaf? then LeafV(if ft.nullable then Null else Data(0))
    else if ft.Pointer? then NilV
    else StructV(seq(|g[ft.t]|, i requires 0 <= i < |g[ft.t]| => Zero(g, rank, g[ft.t][i].ftype)))
  }

  // The path leads from a value of type ft to a leaf.
  predicate LeafPath(g: Graph, ft: FieldType, path: seq<nat>)
    requires Closed(g) && Known(g, ft)
    decreases |path|
  {
    if path == [] then ft.Leaf?
    else !ft.Leaf? && path[0] < |g[ft.t]| && LeafPath(g, g[ft.t][path[0]].ftype, path[1..])
  }

  function LeafAt(g: Graph, ft: FieldType, path: seq<nat>): (leaf: FieldType)
    requires Closed(g) && Known(g, ft) && LeafPath(g, ft, path)
    ensures leaf.Leaf?
    decreases |path|
  {
    if path == [] then ft else LeafAt(g, g[ft.t][path[0]].ftype, path[1..])
  }

  predicate Assignable(leaf: FieldType, cell: Cell)
    requires leaf.Leaf?
  {
    cell.Null? ==> leaf.nullable
  }

  // ----- where a pointer cannot be set

  // A pointer the program may follow but not set: reflection refuses to assign to
  // an embedded field whose type is not exported.
  predicate Sealed(d: Decl) {
    d.ftype.Pointer? && d.anonymous && !d.exported
  }

  // The path goes through such a pointer.
  predicate Locked(g: Graph, ft: FieldType, path: seq<nat>)
    requires Closed(g) && Known(g, ft) && LeafPath(g, ft, path)
    decreases |path|
  {
    path != [] && (Sealed(g[ft.t][path[0]]) || Locked(g, g[ft.t][path[0]].ftype, path[1..]))
  }

  // Reaching the leaf at path would set such a pointer, which panics: it is nil,
  // or lies below a pointer that is.
  predicate Blocked(g: Graph, ft: FieldType, v: Val, path: seq<nat>)
    requires Closed(g) && Known(g, ft) && Typed(g, ft, v) && LeafPath(g, ft, path)
    decreases |path|, ft.Pointer?
  {
    if path == [] then false
    else if v.NilV? then Locked(g, ft, path)
    else if ft.Pointer? then Blocked(g, Struct(ft.t), v.to, path)
    else
      var d := g[ft.t][path[0]];
      (Sealed(d) && v.fields[path[0]].NilV?) || Blocked(g, d.ftype, v.fields[path[0]], path[1..])
  }

  lemma {:induction false} ZeroBlocked(g: Graph, rank: nat -> nat, ft: FieldType, path: seq<nat>)
    requires World(g, rank) && Known(g, ft) && LeafPath(g, ft, path)
    ensures Blocked(g, ft, Zero(g, rank, ft), path) <==> Locked(g, ft, path)
    decreases |path|
  {
    if ft.Struct? {
      ZeroBlocked(g, rank, g[ft.t][path[0]].ftype, path[1..]);
    }
  }

  lemma LockedThrough(g: Graph, ft: FieldType, path: seq<nat>)
    requires Closed(g) && Known(g, ft) && !ft.Leaf? && path != [] && LeafPath(g, ft, path)
    ensures LeafPath(g, Struct(ft.t), path) && (Locked(g, ft, path) <==> Locked(g, Struct(ft.t), path))
  {
  }

  // The value with the leaf at path set, allocating nil pointers on the way.
  function SetAt(g: Graph, rank: nat -> nat, ft: FieldType, v: Val, path: seq<nat>, cell: Cell): (r: Val)
    requires World(g, rank) && Known(g, ft) && Typed(g, ft, v) && LeafPath(g, ft, path)
    requires !Blocked(g, ft, v, path) && Assignable(LeafAt(g, ft, path), cell)
    ensures Typed(g, ft, r)
    decreases |path|, ft.Pointer?
  {
    if path == [] then LeafV(cell)
    else if ft.Pointer? then
      LockedThrough(g, ft, path);
      ZeroBlocked(g, rank, Struct(ft.t), path);
      PtrV(SetAt(g, rank, Struct(ft.t), if v.NilV? then Zero(g, rank, Struct(ft.t)) else v.to, path, cell))
    else
      var i := path[0];
      StructV(v.fields[i := SetAt(g, rank, g[ft.t][i].ftype, v.fields[i], path[1..], cell)])
  }

  // What a column's path reads as: NULL behind a nil pointer.
  function Lookup(g: Graph, ft: FieldType, v: Val, path: seq<nat>): Cell
    requires Closed(g) && Known(g, ft) && Typed(g, ft, v) && LeafPath(g, ft, path)
    decreases |path|, ft.Pointer?
  {
    if path == [] then v.cell
    else if ft.Pointer? then
      if v.NilV? then Null else Lookup(g, Struct(ft.t), v.to, path)
    else Lookup(g, g[ft.t][path[0]].ftype, v.fields[path[0]], path[1..])
  }

  // Every pointer on the way to the leaf at path is set.
  predicate Reached(g: Graph, ft: FieldType, v: Val, path: seq<nat>)
    requires Closed(g) && Known(g, ft) && Typed(g, ft, v) && LeafPath(g, ft, path)
    decreases |path|, ft.Pointer?
  {
    if path == [] then true
    else if ft.Pointer? then v.PtrV? && Reached(g, Struct(ft.t), v.to, path)
    else Reached(g, g[ft.t][path[0]].ftype, v.fields[path[0]], path[1..])
  }

  // A leaf behind a nil pointer reads NULL.
  lemma {:induction false} BehindNil(g: Graph, ft: FieldType, v: Val, path: seq<nat>)
    requires Closed(g) && Known(g, ft) && Typed(g, ft, v) && LeafPath(g, ft, path) && !Reached(g, ft, v, path)
    ensures Lookup(g, ft, v, path) == Null
    decreases |path|, ft.Pointer?
  {
    if ft.Pointer? && v.PtrV? {
      BehindNil(g, Struct(ft.t), v.to, path);
    } else if ft.Struct? {
      BehindNil(g, g[ft.t][path[0]].ftype, v.fields[path[0]], path[1..]);
    }
  }

  // Reading a field as the program does, one index at a time.
  method FieldValue(g: Graph, ft: FieldType, root: Val, path: seq<nat>) returns (cell: Cell)
    requires Closed(g) && Known(g, ft) && Typed(g, ft, root) && LeafPath(g, ft, path)
    ensures cell == Lookup(g, ft, root, path)
  {
    var v := root;
    ghost var at := ft;
    for n := 0 to |path|
      invariant Known(g, at) && Typed(g, at, v) && LeafPath(g, at, path[n..])
      invariant Lookup(g, at, v, path[n..]) == Lookup(g, ft, root, path)
    {
      var rest := path[n..];
      assert rest[0] == path[n] && rest[1..] == path[n + 1..];
      if v.NilV? {
        return Null;
      }
      if v.PtrV? {
        v, at := v.to, Struct(at.t);
      }
      v, at := v.fields[path[n]], g[at.t][path[n]].ftype;
    }
    cell := v.cell;
  }

  // ----- what a list of writes makes

  predicate LeafPaths(g: Graph, ft: FieldType, ws: seq<Write>)
    requires Closed(g) && Known(g, ft)
  {
    forall k :: 0 <= k < |ws| ==> LeafPath(g, ft, ws[k].path)
  }

  function Weight(ws: seq<Write>): nat {
    if ws == [] then 0 else Weight(ws[..|ws| - 1]) + |ws[|ws| - 1].path|
  }

  // The writes into the i-th field, in order, with their paths inside it.
  function Sub(ws: seq<Write>, i: nat): (r: seq<Write>)
    ensures forall k :: 0 <= k < |r| ==> Write([i] + r[k].path, r[k].cell) in ws
    ensures forall k :: 0 <= k < |ws| && ws[k].path != [] && ws[k].path[0] == i ==>
        Write(ws[k].path[1..], ws[k].cell) in r
  {
    if ws == [] then []
    else
      var m := |ws| - 1;
      var w := ws[m];
      if w.path != [] && w.path[0] == i then
        assert [i] + w.path[1..] == w.path;
        Sub(ws[..m], i) + [Write(w.path[1..], w.cell)]
      else Sub(ws[..m], i)
  }

  lemma {:induction false} SubLighter(ws: seq<Write>, i: nat)
    requires forall k :: 0 <= k < |ws| ==> ws[k].path != []
    ensures Weight(Sub(ws, i)) + |ws| <= Weight(ws)
  {
    if ws != [] {
      var m := |ws| - 1;
      SubLighter(ws[..m], i);
      var rest := Sub(ws[..m], i);
      var w := Write(ws[m].path[1..], ws[m].cell);
      assert (rest + [w])[..|rest|] == rest;
    }
  }

  lemma SubAppend(ws: seq<Write>, w: Write, i: nat)
    requires w.path != []
    ensures Sub(ws + [w], i) == if w.path[0] == i then Sub(ws, i) + [Write(w.path[1..], w.cell)] else Sub(ws, i)
  {
    assert (ws + [w])[..|ws|] == ws;
  }

  lemma SubLeafPaths(g: Graph, ft: FieldType, ws: seq<Write>, i: nat)
    requires Closed(g) && Known(g, ft) && ft.Struct? && LeafPaths(g, ft, ws) && i < |g[ft.t]|
    ensures LeafPaths(g, g[ft.t][i].ftype, Sub(ws, i))
  {
    var sub := Sub(ws, i);
    forall k | 0 <= k < |sub|
      ensures LeafPath(g, g[ft.t][i].ftype, sub[k].path)
    {
      var w := Write([i] + sub[k].path, sub[k].cell);
      assert w.path[1..] == sub[k].path;
      assert LeafPath(g, ft, w.path);
    }
  }

  // The value the writes describe, whatever order they are made in: a leaf holds
  // its last write, and a pointer is set exactly when something is written below it.
  function Assembled(g: Graph, rank: nat -> nat, ft: FieldType, ws: seq<Write>): Val
    requires World(g, rank) && Known(g, ft) && LeafPaths(g, ft, ws)
    decreases Weight(ws), ft.Pointer?
  {
    if ws == [] then Zero(g, rank, ft)
    else if ft.Leaf? then LeafV(ws[|ws| - 1].cell)
    else if ft.Pointer? then PtrV(Assembled(g, rank, Struct(ft.t), ws))
    else StructV(seq(|g[ft.t]|, i requires 0 <= i < |g[ft.t]| =>
      (SubLeafPaths(g, ft, ws, i); SubLighter(ws, i); Assembled(g, rank, g[ft.t][i].ftype, Sub(ws, i)))))
  }

  lemma AssembledStruct(g: Graph, rank: nat -> nat, ft: FieldType, ws: seq<Write>, i: nat)
    requires World(g, rank) && Known(g, ft) && ft.Struct? && LeafPaths(g, ft, ws) && i < |g[ft.t]|
    ensures LeafPaths(g, g[ft.t][i].ftype, Sub(ws, i))
    ensures var v := Assembled(g, rank, ft, ws);
            v.StructV? && |v.fields| == |g[ft.t]| && v.fields[i] == Assembled(g, rank, g[ft.t][i].ftype, Sub(ws, i))
  {
    SubLeafPaths(g, ft, ws, i);
  }

  // One more write on an assembled value assembles the longer list.
  lemma {:induction false} SetAtAssembles(g: Graph, rank: nat -> nat, ft: FieldType, ws: seq<Write>, w: Write)
    requires World(g, rank) && Known(g, ft) && LeafPaths(g, ft, ws + [w])
    requires LeafPaths(g, ft, ws) && LeafPath(g, ft, w.path) && Assignable(LeafAt(g, ft, w.path), w.cell)
    requires Typed(g, ft, Assembled(g, rank, ft, ws)) && !Blocked(g, ft, Assembled(g, rank, ft, ws), w.path)
    ensures SetAt(g, rank, ft, Assembled(g, rank, ft, ws), w.path, w.cell) == Assembled(g, rank, ft, ws + [w])
    decreases |w.path|, ft.Pointer?
  {
    if ft.Pointer? {
      LockedThrough(g, ft, w.path);
      ZeroBlocked(g, rank, Struct(ft.t), w.path);
      SetAtAssembles(g, rank, Struct(ft.t), ws, w);
    } else if ft.Struct? {
      var n := w.path[0];
      SubAppend(ws, w, n);
      AssembledStruct(g, rank, ft, ws, n);
      AssembledStruct(g, rank, ft, ws + [w], n);
      PathInside(g, ft, w.path, Assembled(g, rank, ft, ws));
      SetAtAssembles(g, rank, g[ft.t][n].ftype, Sub(ws, n), Write(w.path[1..], w.cell));
      AssembledElsewhere(g, rank, ft, ws, w);
      SetAtStruct(g, rank, ft, Assembled(g, rank, ft, ws), w.path, w.cell);
    }
  }

  lemma SetAtStruct(g: Graph, rank: nat -> nat, ft: FieldType, v: Val, path: seq<nat>, cell: Cell)
    requires World(g, rank) && Known(g, ft) && Typed(g, ft, v) && LeafPath(g, ft, path) && ft.Struct?
    requires !Blocked(g, ft, v, path) && Assignable(LeafAt(g, ft, path), cell)
    ensures path != [] && path[0] < |g[ft.t]| && v.StructV? && |v.fields| == |g[ft.t]|
    ensures var fi := g[ft.t][path[0]].ftype;
            && LeafPath(g, fi, path[1..]) && LeafAt(g, fi, path[1..]) == LeafAt(g, ft, path)
            && !Blocked(g, fi, v.fields[path[0]], path[1..])
            && SetAt(g, rank, ft, v, path, cell)
               == StructV(v.fields[path[0] := SetAt(g, rank, fi, v.fields[path[0]], path[1..], cell)])
  {
  }

  lemma AssembledElsewhere(g: Graph, rank: nat -> nat, ft: FieldType, ws: seq<Write>, w: Write)
    requires World(g, rank) && Known(g, ft) && ft.Struct? && LeafPaths(g, ft, ws) && LeafPaths(g, ft, ws + [w])
    requires w.path != [] && w.path[0] < |g[ft.t]|
    ensures var v, v' := Assembled(g, rank, ft, ws), Assembled(g, rank, ft, ws + [w]);
            && v.StructV? && v'.StructV? && |v.fields| == |v'.fields| == |g[ft.t]|
            && v'.fields == v.fields[w.path[0] := v'.fields[w.path[0]]]
  {
    hide Sub;
    hide Assembled;
    AssembledStruct(g, rank, ft, ws, w.path[0]);
    AssembledStruct(g, rank, ft, ws + [w], w.path[0]);
    var v, v' := Assembled(g, rank, ft, ws), Assembled(g, rank, ft, ws + [w]);
    forall i | 0 <= i < |g[ft.t]| && i != w.path[0]
      ensures v.fields[i] == v'.fields[i]
    {
      AssembledStruct(g, rank, ft, ws, i);
      AssembledStruct(g, rank, ft, ws + [w], i);
      SubAppend(ws, w, i);
    }
  }

  lemma PathInside(g: Graph, ft: FieldType, path: seq<nat>, v: Val)
    requires Closed(g) && Known(g, ft) && ft.Struct? && LeafPath(g, ft, path) && Typed(g, ft, v)
    ensures path != [] && path[0] < |g[ft.t]|
    ensures var fi := g[ft.t][path[0]].ftype;
            && LeafPath(g, fi, path[1..]) && LeafAt(g, fi, path[1..]) == LeafAt(g, ft, path)
            && v.StructV? && path[0] < |v.fields| == |g[ft.t]| && Typed(g, fi, v.fields[path[0]])
            && (Blocked(g, fi, v.fields[path[0]], path[1..]) ==> Blocked(g, ft, v, path))
  {
  }

  ghost predicate Unlocked(g: Graph, ft: FieldType, ws: seq<Write>)
    requires Closed(g) && Known(g, ft) && LeafPaths(g, ft, ws)
  {
    forall k :: 0 <= k < |ws| ==> !Locked(g, ft, ws[k].path)
  }

  lemma SubUnlocked(g: Graph, ft: FieldType, ws: seq<Write>, i: nat)
    requires Closed(g) && Known(g, ft) && ft.Struct? && LeafPaths(g, ft, ws) && i < |g[ft.t]| && Unlocked(g, ft, ws)
    ensures LeafPaths(g, g[ft.t][i].ftype, Sub(ws, i)) && Unlocked(g, g[ft.t][i].ftype, Sub(ws, i))
    ensures Sealed(g[ft.t][i]) ==> Sub(ws, i) == []
  {
    SubLeafPaths(g, ft, ws, i);
    var sub := Sub(ws, i);
    forall k | 0 <= k < |sub|
      ensures !Locked(g, g[ft.t][i].ftype, sub[k].path) && !Sealed(g[ft.t][i])
    {
      var w := Write([i] + sub[k].path, sub[k].cell);
      assert w in ws && w.path[1..] == sub[k].path;
    }
  }

  // On what writes made so far, the next write panics exactly when its path goes
  // through a pointer that cannot be set: none of those is set yet.
  lemma {:induction false} BlockedExactly(g: Graph, rank: nat -> nat, ft: FieldType, ws: seq<Write>, path: seq<nat>)
    requires World(g, rank) && Known(g, ft) && LeafPaths(g, ft, ws) && Unlocked(g, ft, ws) && LeafPath(g, ft, path)
    requires Typed(g, ft, Assembled(g, rank, ft, ws))
    ensures Blocked(g, ft, Assembled(g, rank, ft, ws), path) <==> Locked(g, ft, path)
    decreases |path|, ft.Pointer?
  {
    if ws == [] {
      ZeroBlocked(g, rank, ft, path);
    } else if ft.Pointer? {
      PointerUnlocked(g, ft, ws);
      LockedThrough(g, ft, path);
      BlockedExactly(g, rank, Struct(ft.t), ws, path);
    } else if ft.Struct? {
      BlockedInside(g, rank, ft, ws, path);
      BlockedExactly(g, rank, g[ft.t][path[0]].ftype, Sub(ws, path[0]), path[1..]);
    }
  }

  lemma PointerUnlocked(g: Graph, ft: FieldType, ws: seq<Write>)
    requires Closed(g) && Known(g, ft) && ft.Pointer? && LeafPaths(g, ft, ws) && Unlocked(g, ft, ws)
    ensures LeafPaths(g, Struct(ft.t), ws) && Unlocked(g, Struct(ft.t), ws)
  {
    forall k | 0 <= k < |ws|
      ensures LeafPath(g, Struct(ft.t), ws[k].path) && !Locked(g, Struct(ft.t), ws[k].path)
    {
      LockedThrough(g, ft, ws[k].path);
    }
  }

  lemma BlockedInside(g: Graph, rank: nat -> nat, ft: FieldType, ws: seq<Write>, path: seq<nat>)
    requires World(g, rank) && Known(g, ft) && ft.Struct? && LeafPaths(g, ft, ws) && Unlocked(g, ft, ws)
    requires LeafPath(g, ft, path) && Typed(g, ft, Assembled(g, rank, ft, ws))
    ensures var d := g[ft.t][path[0]];
            var sub := Sub(ws, path[0]);
            && LeafPaths(g, d.ftype, sub) && Unlocked(g, d.ftype, sub)
                && Typed(g, d.ftype, Assembled(g, rank, d.ftype, sub))
            && (Blocked(g, ft, Assembled(g, rank, ft, ws), path)
                <==> Sealed(d) || Blocked(g, d.ftype, Assembled(g, rank, d.ftype, sub), path[1..]))
  {
    hide Sub;
    SubUnlocked(g, ft, ws, path[0]);
    AssembledStruct(g, rank, ft, ws, path[0]);
  }

  // ----- which pointers are set

  predicate Allocated(v: Val, path: seq<nat>)
    decreases v
  {
    match v
    case LeafV(_) => false
    case StructV(fields) => path != [] && path[0] < |fields| && Allocated(fields[path[0]], path[1..])
    case NilV => false
    case PtrV(to) => path == [] || Allocated(to, path)
  }

  // The path leads from a value of type ft to a pointer.
  predicate LeadsToPointer(g: Graph, ft: FieldType, path: seq<nat>)
    requires Closed(g) && Known(g, ft)
    decreases |path|
  {
    if path == [] then ft.Pointer?
    else !ft.Leaf? && path[0] < |g[ft.t]| && LeadsToPointer(g, g[ft.t][path[0]].ftype, path[1..])
  }

  predicate WrittenBelow(ws: seq<Write>, path: seq<nat>) {
    exists k :: 0 <= k < |ws| && path <= ws[k].path
  }

  lemma SubBelow(ws: seq<Write>, path: seq<nat>)
    requires path != []
    ensures WrittenBelow(ws, path) <==> WrittenBelow(Sub(ws, path[0]), path[1..])
  {
    var i, tail, sub := path[0], path[1..], Sub(ws, path[0]);
    assert path == [i] + tail;
    if WrittenBelow(ws, path) {
      var k :| 0 <= k < |ws| && path <= ws[k].path;
      assert ws[k].path[0] == i;
      var j :| 0 <= j < |sub| && sub[j] == Write(ws[k].path[1..], ws[k].cell);
      assert tail <= sub[j].path;
    }
    if WrittenBelow(sub, tail) {
      var j :| 0 <= j < |sub| && tail <= sub[j].path;
      var w := Write([i] + sub[j].path, sub[j].cell);
      assert w in ws && path <= w.path;
    }
  }

  // A pointer is set exactly when a write went below it.
  lemma {:induction false} AllocatedExactly(g: Graph, rank: nat -> nat, ft: FieldType, ws: seq<Write>, path: seq<nat>)
    requires World(g, rank) && Known(g, ft) && LeafPaths(g, ft, ws) && LeadsToPointer(g, ft, path)
    ensures Allocated(Assembled(g, rank, ft, ws), path) <==> WrittenBelow(ws, path)
    decreases |path|, ft.Pointer?
  {
    if path == [] {
      if ws != [] {
        assert path <= ws[0].path;
      }
    } else if ft.Pointer? {
      if ws != [] {
        AllocatedExactly(g, rank, Struct(ft.t), ws, path);
      }
    } else {
      AssembledStruct(g, rank, ft, ws, path[0]);
      SubBelow(ws, path);
      AllocatedExactly(g, rank, g[ft.t][path[0]].ftype, Sub(ws, path[0]), path[1..]);
    }
  }

  // ----- the value that reading all its own columns back gives

  function Below(ps: set<seq<nat>>, i: nat): set<seq<nat>> {
    set p | p in ps && p != [] && p[0] == i :: p[1..]
  }

  predicate AllLeaves(g: Graph, ft: FieldType, ps: set<seq<nat>>)
    requires Closed(g) && Known(g, ft)
  {
    forall p :: p in ps ==> LeafPath(g, ft, p)
  }

  predicate HasData(g: Graph, ft: FieldType, v: Val, ps: set<seq<nat>>)
    requires Closed(g) && Known(g, ft) && Typed(g, ft, v) && AllLeaves(g, ft, ps)
  {
    exists p :: p in ps && Lookup(g, ft, v, p).Data?
  }

  // v with only the leaves at ps kept, and with every pointer nil whose leaves
  // in ps are all NULL.
  function Pruned(g: Graph, rank: nat -> nat, ft: FieldType, v: Val, ps: set<seq<nat>>): Val
    requires World(g, rank) && Known(g, ft) && Typed(g, ft, v) && AllLeaves(g, ft, ps)
    decreases v
  {
    match v
    case LeafV(_) => if [] in ps then v else Zero(g, rank, ft)
    case StructV(fields) =>
      StructV(seq(|fields|, i requires 0 <= i < |fields| =>
        Pruned(g, rank, g[ft.t][i].ftype, fields[i], Below(ps, i))))
    case NilV => NilV
    case PtrV(to) => if HasData(g, ft, v, ps) then PtrV(Pruned(g, rank, Struct(ft.t), to, ps)) else NilV
  }

  // Every pointer on the way to the leaf at p has some data below it.
  predicate Live(g: Graph, ft: FieldType, v: Val, ps: set<seq<nat>>, p: seq<nat>)
    requires Closed(g) && Known(g, ft) && Typed(g, ft, v) && AllLeaves(g, ft, ps) && LeafPath(g, ft, p)
    decreases |p|, ft.Pointer?
  {
    if p == [] then true
    else if ft.Pointer? then HasData(g, ft, v, ps) && v.PtrV? && Live(g, Struct(ft.t), v.to, ps, p)
    else Live(g, g[ft.t][p[0]].ftype, v.fields[p[0]], Below(ps, p[0]), p[1..])
  }

  // ws writes the live leaves of v among ps, each with its own value.
  ghost predicate Copies(g: Graph, ft: FieldType, v: Val, ps: set<seq<nat>>, ws: seq<Write>)
    requires Closed(g) && Known(g, ft) && Typed(g, ft, v) && AllLeaves(g, ft, ps)
  {
    && (forall k :: 0 <= k < |ws| ==> ws[k].path in ps && Live(g, ft, v, ps, ws[k].path)
                                      && ws[k].cell == Lookup(g, ft, v, ws[k].path))
    && (forall p :: p in ps && Live(g, ft, v, ps, p) ==> Write(p, Lookup(g, ft, v, p)) in ws)
  }

  lemma {:induction false} DataIsLive(g: Graph, ft: FieldType, v: Val, ps: set<seq<nat>>, p: seq<nat>)
    requires Closed(g) && Known(g, ft) && Typed(g, ft, v) && AllLeaves(g, ft, ps) && p in ps
    requires Lookup(g, ft, v, p).Data?
    ensures Live(g, ft, v, ps, p)
    decreases |p|, ft.Pointer?
  {
    if ft.Pointer? {
      DataIsLive(g, Struct(ft.t), v.to, ps, p);
    } else if ft.Struct? {
      assert p[1..] in Below(ps, p[0]);
      DataIsLive(g, g[ft.t][p[0]].ftype, v.fields[p[0]], Below(ps, p[0]), p[1..]);
    }
  }

  lemma SubCopies(g: Graph, ft: FieldType, v: Val, ps: set<seq<nat>>, ws: seq<Write>, i: nat)
    requires Closed(g) && Known(g, ft) && Typed(g, ft, v) && AllLeaves(g, ft, ps) && Copies(g, ft, v, ps, ws)
    requires ft.Struct? && i < |g[ft.t]|
    ensures Copies(g, g[ft.t][i].ftype, v.fields[i], Below(ps, i), Sub(ws, i))
  {
    var sub := Sub(ws, i);
    var fi, vi, qs := g[ft.t][i].ftype, v.fields[i], Below(ps, i);
    forall k | 0 <= k < |sub|
      ensures sub[k].path in qs && Live(g, fi, vi, qs, sub[k].path) && sub[k].cell == Lookup(g, fi, vi, sub[k].path)
    {
      var p := [i] + sub[k].path;
      assert Write(p, sub[k].cell) in ws;
      assert p[0] == i && p[1..] == sub[k].path;
    }
    forall q | q in qs && Live(g, fi, vi, qs, q)
      ensures Write(q, Lookup(g, fi, vi, q)) in sub
    {
      var p :| p in ps && p != [] && p[0] == i && p[1..] == q;
      assert Write(p, Lookup(g, ft, v, p)) in ws;
    }
  }

  // Writing the live leaves of a value rebuilds it, pruned.
  lemma {:induction false} CopiesRebuild(g: Graph, rank: nat -> nat, ft: FieldType, v: Val, ps: set<seq<nat>>,
                                         ws: seq<Write>)
    requires World(g, rank) && Known(g, ft) && Typed(g, ft, v) && AllLeaves(g, ft, ps) && LeafPaths(g, ft, ws)
    requires Copies(g, ft, v, ps, ws)
    ensures Assembled(g, rank, ft, ws) == Pruned(g, rank, ft, v, ps)
    decreases v
  {
    match v
    case LeafV(_) =>
      if [] in ps {
        assert Write([], v.cell) in ws;
        assert ws[|ws| - 1].path == [];
      }
    case StructV(fields) =>
      var a, b := Assembled(g, rank, ft, ws), Pruned(g, rank, ft, v, ps);
      forall i | 0 <= i < |fields|
        ensures a.fields[i] == b.fields[i]
      {
        AssembledStruct(g, rank, ft, ws, i);
        SubCopies(g, ft, v, ps, ws, i);
        CopiesRebuild(g, rank, g[ft.t][i].ftype, fields[i], Below(ps, i), Sub(ws, i));
      }
      assert a.fields == b.fields;
    case NilV =>
      DeadCopies(g, ft, v, ps, ws);
    case PtrV(to) =>
      if HasData(g, ft, v, ps) {
        var p :| p in ps && Lookup(g, ft, v, p).Data?;
        DataIsLive(g, ft, v, ps, p);
        PointerCopies(g, ft, v, ps, ws);
        CopiesRebuild(g, rank, Struct(ft.t), to, ps, ws);
      } else {
        DeadCopies(g, ft, v, ps, ws);
      }
  }

  lemma DeadCopies(g: Graph, ft: FieldType, v: Val, ps: set<seq<nat>>, ws: seq<Write>)
    requires Closed(g) && Known(g, ft) && Typed(g, ft, v) && AllLeaves(g, ft, ps) && Copies(g, ft, v, ps, ws)
    requires ft.Pointer? && (v.NilV? || !HasData(g, ft, v, ps))
    ensures ws == []
  {
    hide Live, HasData;
    assert |ws| > 0 ==> ws[0].path in ps && Live(g, ft, v, ps, ws[0].path);
    NothingLive(g, ft, v, ps);
  }

  lemma NothingLive(g: Graph, ft: FieldType, v: Val, ps: set<seq<nat>>)
    requires Closed(g) && Known(g, ft) && Typed(g, ft, v) && AllLeaves(g, ft, ps)
    requires ft.Pointer? && (v.NilV? || !HasData(g, ft, v, ps))
    ensures forall p :: p in ps ==> !Live(g, ft, v, ps, p)
  {
  }

  lemma PointerCopies(g: Graph, ft: FieldType, v: Val, ps: set<seq<nat>>, ws: seq<Write>)
    requires Closed(g) && Known(g, ft) && Typed(g, ft, v) && AllLeaves(g, ft, ps) && Copies(g, ft, v, ps, ws)
    requires v.PtrV? && HasData(g, ft, v, ps)
    ensures Copies(g, Struct(ft.t), v.to, ps, ws) && AllLeaves(g, Struct(ft.t), ps) && LeafPaths(g, Struct(ft.t), ws)
  {
    assert forall p :: p in ps ==> LeafPath(g, ft, p);
  }
}
