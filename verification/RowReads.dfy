// What the value a row is read into holds: under every column the row's own cell,
// and the zero value at every field that no column feeds.

module RowReads {
  import opened Wrappers
  import opened Mapper
  import opened MapperStructure
  import opened RowValues
  import opened RowReader
  import opened RowRoundTrip

  // ----- what a list of writes leaves at one leaf

  function LastCell(ws: seq<Write>, path: seq<nat>): Option<Cell> {
    if ws == [] then None
    else if ws[|ws| - 1].path == path then Some(ws[|ws| - 1].cell)
    else LastCell(ws[..|ws| - 1], path)
  }

  ghost predicate Assigned(g: Graph, ft: FieldType, ws: seq<Write>)
    requires Closed(g) && Known(g, ft) && LeafPaths(g, ft, ws)
  {
    forall k :: 0 <= k < |ws| ==> Assignable(LeafAt(g, ft, ws[k].path), ws[k].cell)
  }

  lemma SubAssigned(g: Graph, ft: FieldType, ws: seq<Write>, i: nat)
    requires Closed(g) && Known(g, ft) && ft.Struct? && LeafPaths(g, ft, ws) && i < |g[ft.t]| && Assigned(g, ft, ws)
    ensures LeafPaths(g, g[ft.t][i].ftype, Sub(ws, i)) && Assigned(g, g[ft.t][i].ftype, Sub(ws, i))
  {
    SubLeafPaths(g, ft, ws, i);
    var sub := Sub(ws, i);
    forall k | 0 <= k < |sub|
      ensures Assignable(LeafAt(g, g[ft.t][i].ftype, sub[k].path), sub[k].cell)
    {
      var w := Write([i] + sub[k].path, sub[k].cell);
      assert w in ws && w.path[1..] == sub[k].path;
    }
  }

  lemma PointerAssigned(g: Graph, ft: FieldType, ws: seq<Write>)
    requires Closed(g) && Known(g, ft) && ft.Pointer? && LeafPaths(g, ft, ws) && Assigned(g, ft, ws)
    ensures LeafPaths(g, Struct(ft.t), ws) && Assigned(g, Struct(ft.t), ws)
  {
    forall k | 0 <= k < |ws|
      ensures LeafPath(g, Struct(ft.t), ws[k].path) && LeafAt(g, Struct(ft.t), ws[k].path) == LeafAt(g, ft, ws[k].path)
    {
    }
  }

  lemma {:induction false} AssembledTyped(g: Graph, rank: nat -> nat, ft: FieldType, ws: seq<Write>)
    requires World(g, rank) && Known(g, ft) && LeafPaths(g, ft, ws) && Assigned(g, ft, ws)
    ensures Typed(g, ft, Assembled(g, rank, ft, ws))
    decreases Weight(ws), ft.Pointer?
  {
    if ws != [] && ft.Pointer? {
      PointerAssigned(g, ft, ws);
      AssembledTyped(g, rank, Struct(ft.t), ws);
    } else if ws != [] && ft.Struct? {
      SubLighter(ws, 0);
      forall i | 0 <= i < |g[ft.t]|
        ensures var v := Assembled(g, rank, ft, ws);
                v.StructV? && |v.fields| == |g[ft.t]| && Typed(g, g[ft.t][i].ftype, v.fields[i])
      {
        SubAssigned(g, ft, ws, i);
        SubLighter(ws, i);
        AssembledStruct(g, rank, ft, ws, i);
        AssembledTyped(g, rank, g[ft.t][i].ftype, Sub(ws, i));
      }
    } else if ws != [] {
      assert LeafPath(g, ft, ws[|ws| - 1].path);
    }
  }

  // The last write to a leaf is the last one inside the field it lies in.
  predicate Inside(ws: seq<Write>, path: seq<nat>)
    requires path != []
  {
    LastCell(Sub(ws, path[0]), path[1..]) == LastCell(ws, path)
  }

  lemma {:induction false} LastInside(ws: seq<Write>, path: seq<nat>)
    requires path != [] && forall k :: 0 <= k < |ws| ==> ws[k].path != []
    ensures Inside(ws, path)
  {
    hide Inside;
    if ws == [] {
      InsideNone(path);
    } else {
      var m := |ws| - 1;
      LastInside(ws[..m], path);
      InsideOne(ws[..m], ws[m], path);
      assert ws[..m] + [ws[m]] == ws;
    }
  }

  lemma InsideNone(path: seq<nat>)
    requires path != []
    ensures Inside([], path)
  {
  }

  lemma InsideOne(ws: seq<Write>, w: Write, path: seq<nat>)
    requires path != [] && w.path != [] && Inside(ws, path)
    ensures Inside(ws + [w], path)
  {
    hide Sub, LastCell;
    LastOf(ws, w, path);
    LastOf(Sub(ws, path[0]), Write(w.path[1..], w.cell), path[1..]);
    SubAppend(ws, w, path[0]);
    SamePath(w.path, path);
  }

  lemma SamePath(p: seq<nat>, q: seq<nat>)
    requires p != [] && q != []
    ensures p == q <==> p[0] == q[0] && p[1..] == q[1..]
  {
    assert p == [p[0]] + p[1..] && q == [q[0]] + q[1..];
  }

  lemma LastOf(front: seq<Write>, last: Write, path: seq<nat>)
    ensures LastCell(front + [last], path) == if last.path == path then Some(last.cell) else LastCell(front, path)
  {
    assert (front + [last])[..|front|] == front;
  }

  // A leaf holds what was last written to it; one that was not written is zero, or
  // reads NULL behind a nil pointer.
  lemma {:induction false} AssembledReads(g: Graph, rank: nat -> nat, ft: FieldType, ws: seq<Write>, path: seq<nat>)
    requires World(g, rank) && Known(g, ft) && LeafPaths(g, ft, ws) && Assigned(g, ft, ws) && LeafPath(g, ft, path)
    ensures var v := Assembled(g, rank, ft, ws);
            && Typed(g, ft, v)
            && Lookup(g, ft, v, path) ==
               match LastCell(ws, path)
               case Some(cell) => cell
               case None =>
                 if Reached(g, ft, v, path) && !LeafAt(g, ft, path).nullable then Data(0) else Null
    decreases |path|, ft.Pointer?
  {
    AssembledTyped(g, rank, ft, ws);
    if ft.Pointer? {
      if ws != [] {
        PointerAssigned(g, ft, ws);
        AssembledReads(g, rank, Struct(ft.t), ws, path);
      }
    } else if ft.Struct? {
      SubAssigned(g, ft, ws, path[0]);
      AssembledStruct(g, rank, ft, ws, path[0]);
      LastInside(ws, path);
      AssembledReads(g, rank, g[ft.t][path[0]].ftype, Sub(ws, path[0]), path[1..]);
    } else if ws != [] {
      assert LeafPath(g, ft, ws[|ws| - 1].path);
    }
  }

  // ----- what a row that is read leaves

  lemma WritesAssigned(g: Graph, rank: nat -> nat, t: nat, plan: ScanPlan, row: seq<Cell>)
    requires World(g, rank) && WellPlanned(g, t, plan) && |plan.fieldFor| == |row|
    requires Outcome(g, rank, t, plan, row).Row?
    ensures var ws := Writes(g, t, plan, row, |row|);
            LeafPaths(g, Struct(t), ws) && Assigned(g, Struct(t), ws)
  {
    hide Linked, Writes, LeafPath, FieldKnown, Accepts, LeafAt, BehindSealed, Assembled, Outcome;
    WritesLeafPaths(g, t, plan, row, |row|);
    PanicsExactly(g, rank, t, plan, row, 0);
    var ws := Writes(g, t, plan, row, |row|);
    forall k | 0 <= k < |ws|
      ensures Assignable(LeafAt(g, Struct(t), ws[k].path), ws[k].cell)
    {
      WritesAre(g, t, plan, row, |row|, ws[k]);
      var j :| 0 <= j < |row| && WrittenBy(g, t, plan, row, j, ws[k]);
      FeedsLeaf(g, t, plan, j);
      assert FitsAt(g, t, plan, row, j);
    }
  }

  lemma SameFieldAccepted(g: Graph, t: nat, plan: ScanPlan, row: seq<Cell>, i: nat, j: nat)
    requires Closed(g) && t in g && |plan.fieldFor| == |plan.colGroup| == |row|
    requires Feeds(plan, i) && Feeds(plan, j) && PathOf(plan, i) == PathOf(plan, j)
    ensures Accepts(g, t, plan, row, i) <==> Accepts(g, t, plan, row, j)
  {
  }

  // Among the first n columns, column i is the last that feeds its field.
  lemma {:induction false} LastWritten(g: Graph, t: nat, plan: ScanPlan, row: seq<Cell>, path: seq<nat>, n: nat,
                                       i: nat)
    requires Closed(g) && t in g && |plan.fieldFor| == |plan.colGroup| == |row| && i < n <= |row|
    requires Accepts(g, t, plan, row, i) && PathOf(plan, i) == path
    requires forall j :: i < j < n && Feeds(plan, j) ==> PathOf(plan, j) != path
    ensures LastCell(Writes(g, t, plan, row, n), path) == Some(row[i])
    decreases n
  {
    hide Accepts;
    var front := Writes(g, t, plan, row, n - 1);
    if n - 1 > i {
      LastWritten(g, t, plan, row, path, n - 1, i);
    }
    if Accepts(g, t, plan, row, n - 1) {
      AcceptsFeeds(g, t, plan, row, n - 1);
      LastOf(front, Write(PathOf(plan, n - 1), row[n - 1]), path);
    } else {
      assert front + [] == front;
    }
  }

  lemma {:induction false} NeverWritten(g: Graph, t: nat, plan: ScanPlan, row: seq<Cell>, path: seq<nat>, n: nat)
    requires Closed(g) && t in g && |plan.fieldFor| == |plan.colGroup| == |row| && n <= |row|
    requires forall j :: 0 <= j < n && Accepts(g, t, plan, row, j) ==> PathOf(plan, j) != path
    ensures LastCell(Writes(g, t, plan, row, n), path) == None
  {
    hide Accepts;
    if n > 0 {
      NeverWritten(g, t, plan, row, path, n - 1);
      var front := Writes(g, t, plan, row, n - 1);
      if Accepts(g, t, plan, row, n - 1) {
        AcceptsFeeds(g, t, plan, row, n - 1);
        LastOf(front, Write(PathOf(plan, n - 1), row[n - 1]), path);
      } else {
        assert front + [] == front;
      }
    }
  }

  lemma {:induction false} ReachedIsAllocated(g: Graph, ft: FieldType, v: Val, path: seq<nat>, n: nat)
    requires Closed(g) && Known(g, ft) && Typed(g, ft, v) && LeafPath(g, ft, path) && Reached(g, ft, v, path)
    requires n <= |path| && LeadsToPointer(g, ft, path[..n])
    ensures Allocated(v, path[..n])
    decreases |path|, ft.Pointer?
  {
    if n > 0 && ft.Pointer? {
      LeadsThrough(g, ft, path[..n]);
      ReachedIsAllocated(g, Struct(ft.t), v.to, path, n);
    } else if n > 0 {
      assert path[..n][0] == path[0] && path[..n][1..] == path[1..][..n - 1];
      ReachedIsAllocated(g, g[ft.t][path[0]].ftype, v.fields[path[0]], path[1..], n - 1);
    }
  }

  // Every column of a row that is read can be read back out of the value, unless a
  // later column feeds the same field.
  lemma ColumnReadsBack(g: Graph, rank: nat -> nat, t: nat, plan: ScanPlan, row: seq<Cell>, i: nat)
    requires World(g, rank) && WellPlanned(g, t, plan) && |plan.fieldFor| == |row|
    requires Outcome(g, rank, t, plan, row).Row? && i < |row| && Feeds(plan, i)
    requires forall j :: i < j < |row| && Feeds(plan, j) ==> PathOf(plan, j) != PathOf(plan, i)
    ensures var v := Outcome(g, rank, t, plan, row).value;
            && Typed(g, Struct(t), v) && LeafPath(g, Struct(t), PathOf(plan, i))
            && Lookup(g, Struct(t), v, PathOf(plan, i)) == row[i]
  {
    hide Linked, Writes, LeafPath, FieldKnown, LeafAt, Assembled, Lookup, Reached, DataBy, PointerPath, Allocated;
    hide LastCell, Typed, LeadsToPointer, Trouble;
    FeedsLeaf(g, t, plan, i);
    var path, v := PathOf(plan, i), Outcome(g, rank, t, plan, row).value;
    WritesAssigned(g, rank, t, plan, row);
    AssembledReads(g, rank, Struct(t), Writes(g, t, plan, row, |row|), path);
    if Accepts(g, t, plan, row, i) {
      LastWritten(g, t, plan, row, path, |row|, i);
    } else {
      forall j | 0 <= j < |row| && Accepts(g, t, plan, row, j)
        ensures PathOf(plan, j) != path
      {
        AcceptsFeeds(g, t, plan, row, j);
        if PathOf(plan, j) == path {
          SameFieldAccepted(g, t, plan, row, i, j);
        }
      }
      NeverWritten(g, t, plan, row, path, |row|);
      var n :| 0 < n < |path| && PointerPath(g, t, path[..n]) && !DataBy(plan, row, |row|, path[..n]);
      PointerSetExactly(g, rank, t, plan, row, path[..n]);
      PointerPathLeads(g, t, path[..n]);
      if Reached(g, Struct(t), v, path) {
        ReachedIsAllocated(g, Struct(t), v, path, n);
      }
      if row[i].Data? {
        DataIsAccepted(g, t, plan, row, i);
      }
    }
  }

  // A field no column feeds is zero, or behind a pointer that stayed nil.
  lemma UnfedIsZero(g: Graph, rank: nat -> nat, t: nat, plan: ScanPlan, row: seq<Cell>, path: seq<nat>)
    requires World(g, rank) && WellPlanned(g, t, plan) && |plan.fieldFor| == |row|
    requires Outcome(g, rank, t, plan, row).Row? && LeafPath(g, Struct(t), path)
    requires forall j :: 0 <= j < |row| && Feeds(plan, j) ==> PathOf(plan, j) != path
    ensures var v := Outcome(g, rank, t, plan, row).value;
            && Typed(g, Struct(t), v)
            && Lookup(g, Struct(t), v, path) ==
               if Reached(g, Struct(t), v, path) && !LeafAt(g, Struct(t), path).nullable then Data(0) else Null
  {
    hide Linked, Writes, LeafPath, FieldKnown, LeafAt, Assembled, Lookup, Reached, Accepts, LastCell, Typed, Trouble;
    WritesAssigned(g, rank, t, plan, row);
    AssembledReads(g, rank, Struct(t), Writes(g, t, plan, row, |row|), path);
    forall j | 0 <= j < |row| && Accepts(g, t, plan, row, j)
      ensures Feeds(plan, j) && PathOf(plan, j) != path
    {
      AcceptsFeeds(g, t, plan, row, j);
    }
    NeverWritten(g, t, plan, row, path, |row|);
  }
}
