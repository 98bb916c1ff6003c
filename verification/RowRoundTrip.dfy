// What reading a row means: which nested pointers are set, and that a row made
// from a value rebuilds the value.

module RowRoundTrip {
  import opened Mapper
  import opened MapperStructure
  import opened RowValues
  import opened RowReader

  // ----- which pointers a row sets

  lemma {:induction false} PointerPathLeads(g: Graph, t: nat, path: seq<nat>)
    requires Closed(g) && t in g && path != []
    ensures PointerPath(g, t, path) <==> LeadsToPointer(g, Struct(t), path)
    decreases |path|
  {
    if path[0] < |g[t]| {
      var ft := g[t][path[0]].ftype;
      if |path| > 1 && !ft.Leaf? {
        PointerPathLeads(g, ft.t, path[1..]);
        LeadsThrough(g, ft, path[1..]);
      }
    }
  }

  lemma LeadsThrough(g: Graph, ft: FieldType, path: seq<nat>)
    requires Closed(g) && Known(g, ft) && !ft.Leaf? && path != []
    ensures LeadsToPointer(g, ft, path) <==> LeadsToPointer(g, Struct(ft.t), path)
  {
  }

  // A column with data is written, whatever the others hold.
  lemma DataIsAccepted(g: Graph, t: nat, plan: ScanPlan, row: seq<Cell>, i: nat)
    requires WellPlanned(g, t, plan) && |plan.fieldFor| == |row| && i < |row| && Feeds(plan, i) && row[i].Data?
    ensures Accepts(g, t, plan, row, i)
  {
    var path := PathOf(plan, i);
    forall n | 0 < n < |path| && PointerPath(g, t, path[..n])
      ensures DataBy(plan, row, |row|, path[..n])
    {
      assert path[..n] <= PathOf(plan, i);
    }
  }

  lemma AcceptedHasData(g: Graph, t: nat, plan: ScanPlan, row: seq<Cell>, path: seq<nat>, i: nat)
    requires WellPlanned(g, t, plan) && |plan.fieldFor| == |row| && PointerPath(g, t, path)
    requires Accepts(g, t, plan, row, i) && path <= PathOf(plan, i)
    ensures DataBy(plan, row, |row|, path)
  {
    hide PointerPath, LeafPath, FieldKnown, DataBy;
    FeedsLeaf(g, t, plan, i);
    assert PathOf(plan, i)[..|path|] == path;
    PointerIsProper(g, t, PathOf(plan, i), |path|);
  }

  lemma WrittenHasData(g: Graph, t: nat, plan: ScanPlan, row: seq<Cell>, path: seq<nat>)
    requires WellPlanned(g, t, plan) && |plan.fieldFor| == |row| && PointerPath(g, t, path)
    requires WrittenBelow(Writes(g, t, plan, row, |row|), path)
    ensures DataBy(plan, row, |row|, path)
  {
    hide PointerPath, Linked, DataBy, Writes;
    var ws := Writes(g, t, plan, row, |row|);
    var k :| 0 <= k < |ws| && path <= ws[k].path;
    WritesAre(g, t, plan, row, |row|, ws[k]);
    var i :| 0 <= i < |row| && WrittenBy(g, t, plan, row, i, ws[k]);
    AcceptedHasData(g, t, plan, row, path, i);
  }

  lemma DataIsWritten(g: Graph, t: nat, plan: ScanPlan, row: seq<Cell>, path: seq<nat>)
    requires WellPlanned(g, t, plan) && |plan.fieldFor| == |row| && DataBy(plan, row, |row|, path)
    ensures WrittenBelow(Writes(g, t, plan, row, |row|), path)
  {
    hide Linked, Writes;
    var ws := Writes(g, t, plan, row, |row|);
    var i :| 0 <= i < |row| && Feeds(plan, i) && row[i].Data? && path <= PathOf(plan, i);
    DataIsAccepted(g, t, plan, row, i);
    var w := Write(PathOf(plan, i), row[i]);
    assert WrittenBy(g, t, plan, row, i, w);
    WritesAre(g, t, plan, row, |row|, w);
    var k :| 0 <= k < |ws| && ws[k] == w;
  }

  // In every row that is read, a nested pointer is set exactly when some mapped
  // column at or below it is not NULL.
  lemma PointerSetExactly(g: Graph, rank: nat -> nat, t: nat, plan: ScanPlan, row: seq<Cell>, path: seq<nat>)
    requires World(g, rank) && WellPlanned(g, t, plan) && |plan.fieldFor| == |row|
    requires Outcome(g, rank, t, plan, row).Row? && PointerPath(g, t, path)
    ensures Allocated(Outcome(g, rank, t, plan, row).value, path) <==> DataBy(plan, row, |row|, path)
  {
    hide Linked, Writes, PointerPath, Allocated, Assembled, WrittenBelow, DataBy, LeadsToPointer;
    assert path != [] by {
      PointerIsSome(g, t, path);
    }
    PointerPathLeads(g, t, path);
    WritesLeafPaths(g, t, plan, row, |row|);
    AllocatedExactly(g, rank, Struct(t), Writes(g, t, plan, row, |row|), path);
    if DataBy(plan, row, |row|, path) {
      DataIsWritten(g, t, plan, row, path);
    } else if WrittenBelow(Writes(g, t, plan, row, |row|), path) {
      WrittenHasData(g, t, plan, row, path);
    }
  }

  lemma PointerIsSome(g: Graph, t: nat, path: seq<nat>)
    requires Closed(g) && t in g && PointerPath(g, t, path)
    ensures path != []
  {
  }

  // ----- round trip

  // Some leaf of v among ps, at or below path, holds data.
  ghost predicate DataBelow(g: Graph, ft: FieldType, v: Val, ps: set<seq<nat>>, path: seq<nat>)
    requires Closed(g) && Known(g, ft) && Typed(g, ft, v) && AllLeaves(g, ft, ps)
  {
    exists p :: p in ps && path <= p && Lookup(g, ft, v, p).Data?
  }

  ghost predicate DataAlong(g: Graph, ft: FieldType, v: Val, ps: set<seq<nat>>, p: seq<nat>)
    requires Closed(g) && Known(g, ft) && Typed(g, ft, v) && AllLeaves(g, ft, ps)
  {
    forall n :: 0 <= n < |p| && LeadsToPointer(g, ft, p[..n]) ==> DataBelow(g, ft, v, ps, p[..n])
  }

  lemma DataBelowStep(g: Graph, ft: FieldType, v: Val, ps: set<seq<nat>>, path: seq<nat>)
    requires Closed(g) && Known(g, ft) && ft.Struct? && Typed(g, ft, v) && AllLeaves(g, ft, ps)
    requires path != [] && path[0] < |g[ft.t]|
    ensures DataBelow(g, ft, v, ps, path) <==>
            DataBelow(g, g[ft.t][path[0]].ftype, v.fields[path[0]], Below(ps, path[0]), path[1..])
  {
    var i, qs := path[0], Below(ps, path[0]);
    assert path == [i] + path[1..];
    if DataBelow(g, ft, v, ps, path) {
      var p :| p in ps && path <= p && Lookup(g, ft, v, p).Data?;
      assert p[0] == i && p[1..] in qs && path[1..] <= p[1..];
    }
    if DataBelow(g, g[ft.t][i].ftype, v.fields[i], qs, path[1..]) {
      var q :| q in qs && path[1..] <= q && Lookup(g, g[ft.t][i].ftype, v.fields[i], q).Data?;
      var p :| p in ps && p != [] && p[0] == i && p[1..] == q;
      assert path <= p;
    }
  }

  lemma DataAlongStep(g: Graph, ft: FieldType, v: Val, ps: set<seq<nat>>, p: seq<nat>)
    requires Closed(g) && Known(g, ft) && ft.Struct? && Typed(g, ft, v) && AllLeaves(g, ft, ps) && LeafPath(g, ft, p)
    ensures DataAlong(g, ft, v, ps, p) <==>
            DataAlong(g, g[ft.t][p[0]].ftype, v.fields[p[0]], Below(ps, p[0]), p[1..])
  {
    hide DataBelow;
    var i := p[0];
    var fi, vi, qs, q := g[ft.t][i].ftype, v.fields[i], Below(ps, i), p[1..];
    if DataAlong(g, ft, v, ps, p) {
      forall n | 0 <= n < |q| && LeadsToPointer(g, fi, q[..n])
        ensures DataBelow(g, fi, vi, qs, q[..n])
      {
        assert p[..n + 1][1..] == q[..n];
        DataBelowStep(g, ft, v, ps, p[..n + 1]);
      }
    }
    if DataAlong(g, fi, vi, qs, q) {
      forall n | 0 <= n < |p| && LeadsToPointer(g, ft, p[..n])
        ensures DataBelow(g, ft, v, ps, p[..n])
      {
        assert n > 0;
        assert p[..n][1..] == q[..n - 1];
        DataBelowStep(g, ft, v, ps, p[..n]);
      }
    }
  }

  lemma DataAlongPointer(g: Graph, ft: FieldType, v: Val, ps: set<seq<nat>>, p: seq<nat>)
    requires Closed(g) && Known(g, ft) && v.PtrV? && Typed(g, ft, v) && AllLeaves(g, ft, ps) && LeafPath(g, ft, p)
    ensures AllLeaves(g, Struct(ft.t), ps)
    ensures DataAlong(g, ft, v, ps, p) <==> HasData(g, ft, v, ps) && DataAlong(g, Struct(ft.t), v.to, ps, p)
  {
    assert forall q :: q in ps ==> LeafPath(g, ft, q);
    assert forall path :: DataBelow(g, ft, v, ps, path) <==> DataBelow(g, Struct(ft.t), v.to, ps, path);
    assert p[..0] == [];
    assert DataBelow(g, ft, v, ps, []) <==> HasData(g, ft, v, ps);
    forall n | 0 < n < |p|
      ensures LeadsToPointer(g, ft, p[..n]) <==> LeadsToPointer(g, Struct(ft.t), p[..n])
    {
      LeadsThrough(g, ft, p[..n]);
    }
  }

  // Live, said of whole paths: every pointer passed has some data below it.
  lemma {:induction false} LiveExactly(g: Graph, ft: FieldType, v: Val, ps: set<seq<nat>>, p: seq<nat>)
    requires Closed(g) && Known(g, ft) && Typed(g, ft, v) && AllLeaves(g, ft, ps) && LeafPath(g, ft, p)
    ensures Live(g, ft, v, ps, p) <==> DataAlong(g, ft, v, ps, p)
    decreases |p|, ft.Pointer?
  {
    if ft.Struct? {
      DataAlongStep(g, ft, v, ps, p);
      LiveExactly(g, g[ft.t][p[0]].ftype, v.fields[p[0]], Below(ps, p[0]), p[1..]);
    } else if v.PtrV? {
      DataAlongPointer(g, ft, v, ps, p);
      LiveExactly(g, Struct(ft.t), v.to, ps, p);
    } else if v.NilV? {
      assert p[..0] == [];
      assert forall q :: q in ps ==> Lookup(g, ft, v, q).Null?;
      assert !DataBelow(g, ft, v, ps, []);
    }
  }

  lemma {:induction false} LiveAssignable(g: Graph, ft: FieldType, v: Val, ps: set<seq<nat>>, p: seq<nat>)
    requires Closed(g) && Known(g, ft) && Typed(g, ft, v) && AllLeaves(g, ft, ps) && LeafPath(g, ft, p)
    requires Live(g, ft, v, ps, p)
    ensures Assignable(LeafAt(g, ft, p), Lookup(g, ft, v, p))
    decreases |p|, ft.Pointer?
  {
    if ft.Struct? {
      LiveAssignable(g, g[ft.t][p[0]].ftype, v.fields[p[0]], Below(ps, p[0]), p[1..]);
    } else if ft.Pointer? {
      LiveAssignable(g, Struct(ft.t), v.to, ps, p);
    }
  }

  // The paths the result columns feed.
  ghost function Selected(plan: ScanPlan): set<seq<nat>>
    requires |plan.fieldFor| == |plan.colGroup|
  {
    set i | 0 <= i < |plan.fieldFor| && Feeds(plan, i) :: PathOf(plan, i)
  }

  // The row holds, in each mapped column, what that column reads from v.
  ghost predicate RowOf(g: Graph, t: nat, plan: ScanPlan, v: Val, row: seq<Cell>)
    requires WellPlanned(g, t, plan) && Typed(g, Struct(t), v)
  {
    && |row| == |plan.fieldFor|
    && forall i :: 0 <= i < |row| && Feeds(plan, i) ==>
         (FeedsLeaf(g, t, plan, i); row[i] == Lookup(g, Struct(t), v, PathOf(plan, i)))
  }

  lemma SelectedLeaves(g: Graph, t: nat, plan: ScanPlan)
    requires WellPlanned(g, t, plan)
    ensures AllLeaves(g, Struct(t), Selected(plan))
  {
    hide LeafPath, FieldKnown;
    forall p | p in Selected(plan)
      ensures LeafPath(g, Struct(t), p)
    {
      var i :| 0 <= i < |plan.fieldFor| && Feeds(plan, i) && PathOf(plan, i) == p;
      FeedsLeaf(g, t, plan, i);
    }
  }

  lemma DataBelowIsDataBy(g: Graph, t: nat, plan: ScanPlan, v: Val, row: seq<Cell>, path: seq<nat>)
    requires WellPlanned(g, t, plan) && Typed(g, Struct(t), v) && RowOf(g, t, plan, v, row)
    requires AllLeaves(g, Struct(t), Selected(plan))
    ensures DataBelow(g, Struct(t), v, Selected(plan), path) <==> DataBy(plan, row, |row|, path)
  {
    hide LeafPath, FieldKnown, Linked, Typed, Lookup;
    if DataBelow(g, Struct(t), v, Selected(plan), path) {
      var p :| p in Selected(plan) && path <= p && Lookup(g, Struct(t), v, p).Data?;
      var i :| 0 <= i < |plan.fieldFor| && Feeds(plan, i) && PathOf(plan, i) == p;
    }
    if DataBy(plan, row, |row|, path) {
      var i :| 0 <= i < |row| && Feeds(plan, i) && row[i].Data? && path <= PathOf(plan, i);
      assert PathOf(plan, i) in Selected(plan);
    }
  }

  // Of a row made from v, the written columns are the live leaves.
  lemma AcceptsIsLive(g: Graph, t: nat, plan: ScanPlan, v: Val, row: seq<Cell>, i: nat)
    requires WellPlanned(g, t, plan) && Typed(g, Struct(t), v) && RowOf(g, t, plan, v, row)
    requires AllLeaves(g, Struct(t), Selected(plan)) && Feeds(plan, i)
    ensures LeafPath(g, Struct(t), PathOf(plan, i))
    ensures Accepts(g, t, plan, row, i) <==> Live(g, Struct(t), v, Selected(plan), PathOf(plan, i))
  {
    hide LeafPath, FieldKnown, Linked, Typed, Lookup, DataBelow, DataBy, PointerPath, Live;
    FeedsLeaf(g, t, plan, i);
    var p, ps := PathOf(plan, i), Selected(plan);
    LiveExactly(g, Struct(t), v, ps, p);
    forall n | 0 < n < |p|
      ensures PointerPath(g, t, p[..n]) <==> LeadsToPointer(g, Struct(t), p[..n])
      ensures DataBelow(g, Struct(t), v, ps, p[..n]) <==> DataBy(plan, row, |row|, p[..n])
    {
      PointerPathLeads(g, t, p[..n]);
      DataBelowIsDataBy(g, t, plan, v, row, p[..n]);
    }
    assert !LeadsToPointer(g, Struct(t), p[..0]);
  }

  lemma WritesCopy(g: Graph, t: nat, plan: ScanPlan, v: Val, row: seq<Cell>)
    requires WellPlanned(g, t, plan) && Typed(g, Struct(t), v) && RowOf(g, t, plan, v, row)
    requires AllLeaves(g, Struct(t), Selected(plan))
    ensures Copies(g, Struct(t), v, Selected(plan), Writes(g, t, plan, row, |row|))
  {
    hide LeafPath, FieldKnown, Linked, Typed, Lookup, Live, Accepts;
    var ws, ps := Writes(g, t, plan, row, |row|), Selected(plan);
    forall k | 0 <= k < |ws|
      ensures ws[k].path in ps && Live(g, Struct(t), v, ps, ws[k].path)
      ensures ws[k].cell == Lookup(g, Struct(t), v, ws[k].path)
    {
      WriteCopies(g, t, plan, v, row, ws[k]);
    }
    forall p | p in ps && Live(g, Struct(t), v, ps, p)
      ensures Write(p, Lookup(g, Struct(t), v, p)) in ws
    {
      var i :| 0 <= i < |plan.fieldFor| && Feeds(plan, i) && PathOf(plan, i) == p;
      AcceptsIsLive(g, t, plan, v, row, i);
      assert WrittenBy(g, t, plan, row, i, Write(p, row[i]));
      WritesAre(g, t, plan, row, |row|, Write(p, row[i]));
    }
  }

  lemma WriteCopies(g: Graph, t: nat, plan: ScanPlan, v: Val, row: seq<Cell>, w: Write)
    requires WellPlanned(g, t, plan) && Typed(g, Struct(t), v) && RowOf(g, t, plan, v, row)
    requires AllLeaves(g, Struct(t), Selected(plan)) && w in Writes(g, t, plan, row, |row|)
    ensures w.path in Selected(plan) && Live(g, Struct(t), v, Selected(plan), w.path)
    ensures w.cell == Lookup(g, Struct(t), v, w.path)
  {
    hide LeafPath, FieldKnown, Linked, Typed, Lookup, Live, Writes;
    WritesAre(g, t, plan, row, |row|, w);
    var i :| 0 <= i < |row| && WrittenBy(g, t, plan, row, i, w);
    AcceptsIsLive(g, t, plan, v, row, i);
    assert PathOf(plan, i) in Selected(plan);
  }

  // Column i is read from a leaf of v that a read would reach only by setting a
  // pointer it cannot set.
  ghost predicate Unreachable(g: Graph, t: nat, plan: ScanPlan, v: Val, i: nat)
    requires WellPlanned(g, t, plan) && Typed(g, Struct(t), v) && AllLeaves(g, Struct(t), Selected(plan))
  {
    && Feeds(plan, i) && BehindSealed(g, t, plan, i)
    && (FeedsLeaf(g, t, plan, i); Live(g, Struct(t), v, Selected(plan), PathOf(plan, i)))
  }

  // Feeding the reader a row made from a value, its columns in any order and any
  // number of times: it panics if and only if some live selected leaf lies behind
  // a pointer that cannot be set, at the first of these. It is never rejected,
  // and otherwise rebuilds the value: the selected leaves are kept, the others
  // are zero, and a pointer whose selected leaves are all NULL is nil.
  lemma RoundTrip(g: Graph, rank: nat -> nat, t: nat, plan: ScanPlan, v: Val, row: seq<Cell>)
    requires World(g, rank) && WellPlanned(g, t, plan) && Typed(g, Struct(t), v) && RowOf(g, t, plan, v, row)
    ensures AllLeaves(g, Struct(t), Selected(plan))
    ensures forall m :: 0 <= m < |row| ==>
              (Outcome(g, rank, t, plan, row) == Panicked(m) <==>
                 Unreachable(g, t, plan, v, m) && forall j :: 0 <= j < m ==> !Unreachable(g, t, plan, v, j))
    ensures (forall j :: 0 <= j < |row| ==> !Unreachable(g, t, plan, v, j)) ==>
              Outcome(g, rank, t, plan, row) == Row(Pruned(g, rank, Struct(t), v, Selected(plan)))
  {
    hide LeafPath, FieldKnown, Linked, Typed, Lookup, Live, Accepts, Writes, Pruned, Assembled, BehindSealed;
    hide Outcome, Fits;
    SelectedLeaves(g, t, plan);
    forall i | 0 <= i < |row|
      ensures Accepts(g, t, plan, row, i) ==> FitsAt(g, t, plan, row, i)
      ensures Unreachable(g, t, plan, v, i) <==> Accepts(g, t, plan, row, i) && BehindSealed(g, t, plan, i)
    {
      ColumnOfValue(g, t, plan, v, row, i);
    }
    forall m | 0 <= m < |row|
      ensures Outcome(g, rank, t, plan, row) == Panicked(m) <==>
              Unreachable(g, t, plan, v, m) && forall j :: 0 <= j < m ==> !Unreachable(g, t, plan, v, j)
    {
      PanicsExactly(g, rank, t, plan, row, m);
    }
    if forall j :: 0 <= j < |row| ==> !Unreachable(g, t, plan, v, j) {
      PanicsExactly(g, rank, t, plan, row, 0);
      Rebuilt(g, rank, t, plan, v, row);
    }
  }

  lemma ColumnOfValue(g: Graph, t: nat, plan: ScanPlan, v: Val, row: seq<Cell>, i: nat)
    requires WellPlanned(g, t, plan) && Typed(g, Struct(t), v) && RowOf(g, t, plan, v, row) && i < |row|
    requires AllLeaves(g, Struct(t), Selected(plan))
    ensures Accepts(g, t, plan, row, i) ==> FitsAt(g, t, plan, row, i)
    ensures Unreachable(g, t, plan, v, i) <==> Accepts(g, t, plan, row, i) && BehindSealed(g, t, plan, i)
  {
    hide LeafPath, FieldKnown, Linked, Typed, Lookup, Live, LeafAt, Accepts, BehindSealed;
    if Feeds(plan, i) {
      AcceptsIsLive(g, t, plan, v, row, i);
      FeedsLeaf(g, t, plan, i);
      if Accepts(g, t, plan, row, i) {
        LiveAssignable(g, Struct(t), v, Selected(plan), PathOf(plan, i));
      }
    } else if Accepts(g, t, plan, row, i) {
      AcceptsFeeds(g, t, plan, row, i);
    }
  }

  lemma Rebuilt(g: Graph, rank: nat -> nat, t: nat, plan: ScanPlan, v: Val, row: seq<Cell>)
    requires World(g, rank) && WellPlanned(g, t, plan) && Typed(g, Struct(t), v) && RowOf(g, t, plan, v, row)
    requires AllLeaves(g, Struct(t), Selected(plan)) && Outcome(g, rank, t, plan, row).Row?
    ensures Outcome(g, rank, t, plan, row) == Row(Pruned(g, rank, Struct(t), v, Selected(plan)))
  {
    hide LeafPath, FieldKnown, Linked, Typed, Lookup, Live, Accepts, Writes, Pruned, Assembled, Trouble;
    WritesCopy(g, t, plan, v, row);
    WritesLeafPaths(g, t, plan, row, |row|);
    CopiesRebuild(g, rank, Struct(t), v, Selected(plan), Writes(g, t, plan, row, |row|));
  }

  // The rebuilt value reads like the original in every selected column, so
  // reading it back once more changes nothing.
  lemma {:induction false} RebuiltReadsSame(g: Graph, rank: nat -> nat, ft: FieldType, v: Val, ps: set<seq<nat>>,
                                            p: seq<nat>)
    requires World(g, rank) && Known(g, ft) && Typed(g, ft, v) && AllLeaves(g, ft, ps) && p in ps
    ensures Typed(g, ft, Pruned(g, rank, ft, v, ps))
    ensures Lookup(g, ft, Pruned(g, rank, ft, v, ps), p) == Lookup(g, ft, v, p)
    decreases |p|, ft.Pointer?
  {
    PrunedTyped(g, rank, ft, v, ps);
    if ft.Struct? {
      assert p[1..] in Below(ps, p[0]);
      RebuiltReadsSame(g, rank, g[ft.t][p[0]].ftype, v.fields[p[0]], Below(ps, p[0]), p[1..]);
    } else if v.PtrV? {
      if HasData(g, ft, v, ps) {
        RebuiltReadsSame(g, rank, Struct(ft.t), v.to, ps, p);
      }
    }
  }

  lemma {:induction false} PrunedTyped(g: Graph, rank: nat -> nat, ft: FieldType, v: Val, ps: set<seq<nat>>)
    requires World(g, rank) && Known(g, ft) && Typed(g, ft, v) && AllLeaves(g, ft, ps)
    ensures Typed(g, ft, Pruned(g, rank, ft, v, ps))
    decreases v
  {
    match v
    case LeafV(_) =>
    case StructV(fields) =>
      forall i | 0 <= i < |fields|
        ensures Typed(g, g[ft.t][i].ftype, Pruned(g, rank, g[ft.t][i].ftype, fields[i], Below(ps, i)))
      {
        PrunedTyped(g, rank, g[ft.t][i].ftype, fields[i], Below(ps, i));
      }
    case NilV =>
    case PtrV(to) =>
      if HasData(g, ft, v, ps) {
        PrunedTyped(g, rank, Struct(ft.t), to, ps);
      }
  }

  // ----- a type on which reading panics

  const PLAIN: Tag := Tag(false, "", false, false, false, false, "")

  // type base struct{ ID int64 }; type T struct{ *base }
  const EMBEDS: Graph := map[
    0 := [Decl("base", false, true, PLAIN, Pointer(1))],
    1 := [Decl("ID", true, false, PLAIN, Leaf(false))]]

  // Reading a value into its one column panics, whatever plan pairs the two.
  lemma EmbeddedPointerPanics(rank: nat -> nat, plan: ScanPlan, n: int)
    requires Closed(EMBEDS) && World(EMBEDS, rank) && WellPlanned(EMBEDS, 0, plan)
    requires |plan.fieldFor| == 1 && Feeds(plan, 0)
    ensures Outcome(EMBEDS, rank, 0, plan, [Data(n)]) == Panicked(0)
  {
    FeedsLeaf(EMBEDS, 0, plan, 0);
    var path := PathOf(plan, 0);
    assert path[0] == 0 && EMBEDS[0][0].ftype == Pointer(1);
    DataIsAccepted(EMBEDS, 0, plan, [Data(n)], 0);
    assert Locked(EMBEDS, Struct(0), path);
    assert Trouble(EMBEDS, 0, plan, [Data(n)], 0);
  }
}
