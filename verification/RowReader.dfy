// Reading result rows into structs: the plan that pairs result columns with
// fields, the reader that reuses its buffers from row to row, and what a row it
// accepts becomes.

module RowReader {
  import opened Wrappers
  import opened Mapper
  import opened MapperStructure
  import opened RowValues

  // For each result column the field it is read into and that field's group;
  // -1 where the type has no such column.
  datatype ScanPlan = ScanPlan(fields: seq<Field>, groups: seq<Group>, fieldFor: seq<int>, colGroup: seq<int>)

  datatype ScanError = Ambiguous(clash: Clash) | NoField(columns: seq<string>)

  datatype Planned = Planned(plan: ScanPlan) | Refused(error: ScanError)

  // ----- pairing columns with fields

  predicate Paired(fields: seq<Field>, column: string, fi: int, group: int) {
    if fi < 0 then fi == -1 && group == -1 && forall f :: f in fields ==> f.column != column
    else fi < |fields| && fields[fi].column == column && group == fields[fi].group
  }

  predicate PlanFor(g: Graph, nm: string -> string, t: nat, cols: seq<string>, plan: ScanPlan)
    requires Closed(g) && t in g
  {
    var w := WalkRoot(g, nm, t);
    && plan.fields == w.fields && plan.groups == w.groups
    && |plan.fieldFor| == |plan.colGroup| == |cols|
    && forall i :: 0 <= i < |cols| ==> Paired(w.fields, cols[i], plan.fieldFor[i], plan.colGroup[i])
  }

  // The columns no field has, in result order.
  function Unmapped(fields: seq<Field>, cols: seq<string>): seq<string> {
    if cols == [] then []
    else
      var m := |cols| - 1;
      Unmapped(fields, cols[..m]) + (if exists f :: f in fields && f.column == cols[m] then [] else [cols[m]])
  }

  predicate Stray(fields: seq<Field>, column: string) {
    forall f :: f in fields ==> f.column != column
  }

  // The positions at which missing lists its columns: in result order, all those
  // whose column no field has, and no others.
  predicate StraysAt(fields: seq<Field>, cols: seq<string>, missing: seq<string>, at: seq<nat>) {
    && |at| == |missing|
    && (forall k :: 0 <= k < |at| ==> at[k] < |cols| && missing[k] == cols[at[k]])
    && (forall k, l :: 0 <= k < l < |at| ==> at[k] < at[l])
    && forall i :: 0 <= i < |cols| ==> (i in at <==> Stray(fields, cols[i]))
  }

  // Strict reading refuses exactly the columns that no field has, each of them and
  // in the order of the result.
  lemma {:induction false} UnmappedExactly(fields: seq<Field>, cols: seq<string>) returns (at: seq<nat>)
    ensures StraysAt(fields, cols, Unmapped(fields, cols), at)
    ensures Unmapped(fields, cols) != [] <==> exists i :: 0 <= i < |cols| && Stray(fields, cols[i])
  {
    hide StraysAt, Stray, Unmapped;
    if cols == [] {
      at := [];
      NoStrays(fields);
    } else {
      var m := |cols| - 1;
      var front := UnmappedExactly(fields, cols[..m]);
      UnmappedStep(fields, cols[..m], cols[m]);
      assert cols[..m] + [cols[m]] == cols;
      StraysStep(fields, cols[..m], Unmapped(fields, cols[..m]), front, cols[m]);
      at := if Stray(fields, cols[m]) then front + [m] else front;
    }
    StraysListed(fields, cols, Unmapped(fields, cols), at);
  }

  lemma NoStrays(fields: seq<Field>)
    ensures Unmapped(fields, []) == [] && StraysAt(fields, [], [], [])
  {
  }

  lemma UnmappedStep(fields: seq<Field>, cols: seq<string>, c: string)
    ensures Unmapped(fields, cols + [c])
         == if Stray(fields, c) then Unmapped(fields, cols) + [c] else Unmapped(fields, cols)
  {
    assert (cols + [c])[..|cols|] == cols;
  }

  lemma StraysStep(fields: seq<Field>, cols: seq<string>, missing: seq<string>, at: seq<nat>, c: string)
    requires StraysAt(fields, cols, missing, at)
    ensures if Stray(fields, c) then StraysAt(fields, cols + [c], missing + [c], at + [|cols|])
            else StraysAt(fields, cols + [c], missing, at)
  {
    hide Stray;
    var longer := cols + [c];
    assert forall i :: 0 <= i < |cols| ==> longer[i] == cols[i];
  }

  lemma StraysListed(fields: seq<Field>, cols: seq<string>, missing: seq<string>, at: seq<nat>)
    requires StraysAt(fields, cols, missing, at)
    ensures missing != [] <==> exists i :: 0 <= i < |cols| && Stray(fields, cols[i])
  {
    hide Stray;
    if missing != [] {
      assert at[0] in at;
    }
  }

  // A plan is refused when the type itself is ambiguous, or, under strict
  // reading, when some column has no field; otherwise columns are paired by name.
  method BuildScanPlan(g: Graph, nm: string -> string, t: nat, cols: seq<string>, strict: bool) returns (r: Planned)
    requires Closed(g) && t in g
    ensures var w := WalkRoot(g, nm, t);
            match FirstClash(w.fields)
            case Some(clash) => r == Refused(Ambiguous(clash))
            case None =>
              if strict && Unmapped(w.fields, cols) != [] then r == Refused(NoField(Unmapped(w.fields, cols)))
              else r.Planned? && PlanFor(g, nm, t, cols, r.plan)
  {
    hide FirstClash, WalkRoot, ClaimedBy, Unmapped, Stray;
    ghost var w := WalkRoot(g, nm, t);
    var si := BuildStruct(g, nm, t);
    if si.err.Some? {
      return Refused(Ambiguous(si.err.value));
    }
    var fields, byName, groups := si.fields, si.byName, si.groups;
    var fieldFor: seq<int>, colGroup: seq<int>, missing: seq<string> := [], [], [];
    NoStrays(fields);
    for i := 0 to |cols|
      invariant |fieldFor| == |colGroup| == i
      invariant forall j :: 0 <= j < i ==> Paired(fields, cols[j], fieldFor[j], colGroup[j])
      invariant missing == Unmapped(fields, cols[..i])
    {
      UnmappedStep(fields, cols[..i], cols[i]);
      assert cols[..i] + [cols[i]] == cols[..i + 1];
      StrayOrNot(fields, byName, cols[i]);
      if cols[i] in byName {
        var fi := byName[cols[i]];
        fieldFor, colGroup := fieldFor + [fi], colGroup + [fields[fi].group];
      } else {
        NoneHas(fields, byName, cols[i]);
        fieldFor, colGroup, missing := fieldFor + [-1], colGroup + [-1], missing + [cols[i]];
      }
    }
    assert cols[..|cols|] == cols;
    if missing != [] && strict {
      return Refused(NoField(missing));
    }
    r := Planned(ScanPlan(fields, groups, fieldFor, colGroup));
  }

  lemma StrayOrNot(fields: seq<Field>, byName: map<string, nat>, column: string)
    requires Indexed(fields, byName)
    ensures Stray(fields, column) <==> column !in byName
  {
    if column in byName {
      assert fields[byName[column]] in fields;
    }
  }

  lemma NoneHas(fields: seq<Field>, byName: map<string, nat>, column: string)
    requires Indexed(fields, byName) && column !in byName
    ensures forall f :: f in fields ==> f.column != column
  {
  }

  // The value of a column of v, or None when the type has no such column.
  method LookupColumn(g: Graph, t: nat, fields: seq<Field>, byName: map<string, nat>, v: Val, name: string)
    returns (r: Option<Cell>)
    requires Closed(g) && t in g && Typed(g, Struct(t), v) && Indexed(fields, byName)
    requires forall k :: 0 <= k < |fields| ==> LeafPath(g, Struct(t), fields[k].index)
    ensures r.None? <==> forall f :: f in fields ==> f.column != name
    ensures forall k :: 0 <= k < |fields| && fields[k].column == name ==>
        r == Some(Lookup(g, Struct(t), v, fields[k].index))
  {
    hide Typed, LeafPath, Lookup;
    if name !in byName {
      NoneHas(fields, byName, name);
      return None;
    }
    var cell := FieldValue(g, Struct(t), v, fields[byName[name]].index);
    assert fields[byName[name]] in fields;
    r := Some(cell);
  }

  // ----- what the plan knows of the type

  ghost predicate WellPlanned(g: Graph, t: nat, plan: ScanPlan) {
    Closed(g) && t in g && |plan.fieldFor| == |plan.colGroup| && ParentsBelow(plan.groups) && Known(g, Struct(t))
        && Linked(g, t, plan)
  }

  ghost predicate Linked(g: Graph, t: nat, plan: ScanPlan)
    requires Closed(g) && t in g && |plan.fieldFor| == |plan.colGroup| && ParentsBelow(plan.groups)
  {
    && (forall k :: 0 <= k < |plan.groups| ==> PointerPath(g, t, plan.groups[k].index))
    && (forall k :: 0 <= k < |plan.groups| ==> ParentAbove(plan.groups, k))
    && (forall j :: 0 <= j < |plan.fields| ==> FieldKnown(g, t, plan.groups, plan.fields[j]))
    && (forall i :: 0 <= i < |plan.fieldFor| ==>
          && -1 <= plan.fieldFor[i] < |plan.fields|
          && plan.colGroup[i] == if plan.fieldFor[i] < 0 then -1 else plan.fields[plan.fieldFor[i]].group)
  }

  predicate ParentAbove(groups: seq<Group>, k: nat)
    requires ParentsBelow(groups) && k < |groups|
  {
    groups[k].parent >= 0 ==> groups[groups[k].parent].index <= groups[k].index
  }

  ghost predicate FieldKnown(g: Graph, t: nat, groups: seq<Group>, f: Field)
    requires Closed(g) && t in g && ParentsBelow(groups)
  {
    && LeafPath(g, Struct(t), f.index)
    && -1 <= f.group < |groups|
    && (forall k :: 0 <= k < |groups| ==> (InChain(groups, f.group, k) <==> groups[k].index <= f.index))
    && (forall n :: 0 < n < |f.index| && PointerPath(g, t, f.index[..n]) ==> HasGroup(groups, f.index[..n]))
  }

  ghost predicate HasGroup(groups: seq<Group>, path: seq<nat>) {
    exists k :: 0 <= k < |groups| && groups[k].index == path
  }

  lemma {:induction false} MappedIsLeafPath(g: Graph, t: nat, seen: set<nat>, path: seq<nat>)
    requires Closed(g) && t in g && Mapped(g, t, seen, path)
    ensures LeafPath(g, Struct(t), path)
    decreases |path|
  {
    var ft := g[t][path[0]].ftype;
    if |path| > 1 {
      MappedIsLeafPath(g, ft.t, seen + {ft.t}, path[1..]);
      LeafPathThrough(g, ft, path[1..]);
    }
  }

  lemma LeafPathThrough(g: Graph, ft: FieldType, path: seq<nat>)
    requires Closed(g) && Known(g, ft) && !ft.Leaf? && path != []
    ensures LeafPath(g, ft, path) <==> LeafPath(g, Struct(ft.t), path)
  {
  }

  lemma PlanSound(g: Graph, nm: string -> string, t: nat, cols: seq<string>, plan: ScanPlan)
    requires Closed(g) && t in g && PlanFor(g, nm, t, cols, plan)
    ensures WellPlanned(g, t, plan)
  {
    hide WalkRoot, Mapped, InChain, PointerPath, LeafPath;
    GroupsAreExact(g, nm, t);
    var groups := plan.groups;
    forall k | 0 <= k < |groups|
      ensures PointerPath(g, t, groups[k].index) && ParentAbove(groups, k)
    {
      assert groups[k] in groups;
    }
    forall j | 0 <= j < |plan.fields|
      ensures FieldKnown(g, t, groups, plan.fields[j])
    {
      PlannedField(g, nm, t, plan.fields[j]);
    }
    forall i | 0 <= i < |cols|
      ensures -1 <= plan.fieldFor[i] < |plan.fields|
    {
      assert Paired(plan.fields, cols[i], plan.fieldFor[i], plan.colGroup[i]);
    }
  }

  lemma PlannedField(g: Graph, nm: string -> string, t: nat, f: Field)
    requires Closed(g) && t in g && f in WalkRoot(g, nm, t).fields
    ensures ParentsBelow(WalkRoot(g, nm, t).groups) && FieldKnown(g, t, WalkRoot(g, nm, t).groups, f)
  {
    hide WalkRoot, Mapped, InChain, PointerPath, LeafPath;
    var groups := WalkRoot(g, nm, t).groups;
    MappingIsExact(g, nm, t);
    GroupsAreExact(g, nm, t);
    MappedIsLeafPath(g, t, {t}, f.index);
    forall n | 0 < n < |f.index| && PointerPath(g, t, f.index[..n])
      ensures HasGroup(groups, f.index[..n])
    {
      var h :| h in groups && h.index == f.index[..n];
      var k :| 0 <= k < |groups| && groups[k] == h;
    }
  }

  // ----- what a row becomes, said of paths and columns alone

  predicate Feeds(plan: ScanPlan, i: nat)
    requires |plan.fieldFor| == |plan.colGroup|
  {
    i < |plan.fieldFor| && 0 <= plan.fieldFor[i] < |plan.fields|
  }

  function PathOf(plan: ScanPlan, i: nat): seq<nat>
    requires |plan.fieldFor| == |plan.colGroup| && Feeds(plan, i)
  {
    plan.fields[plan.fieldFor[i]].index
  }

  // Some mapped column among the first n, at or below path, is not NULL.
  ghost predicate DataBy(plan: ScanPlan, row: seq<Cell>, n: nat, path: seq<nat>)
    requires |plan.fieldFor| == |plan.colGroup| == |row|
  {
    exists i :: 0 <= i < n && i < |row| && Feeds(plan, i) && row[i].Data? && path <= PathOf(plan, i)
  }

  // Column i is written: every pointer on its path has some data below it.
  ghost predicate Accepts(g: Graph, t: nat, plan: ScanPlan, row: seq<Cell>, i: nat)
    requires Closed(g) && t in g && |plan.fieldFor| == |plan.colGroup| == |row|
  {
    && Feeds(plan, i)
    && forall n :: 0 < n < |PathOf(plan, i)| && PointerPath(g, t, PathOf(plan, i)[..n]) ==>
         DataBy(plan, row, |row|, PathOf(plan, i)[..n])
  }

  ghost function Writes(g: Graph, t: nat, plan: ScanPlan, row: seq<Cell>, n: nat): seq<Write>
    requires Closed(g) && t in g && |plan.fieldFor| == |plan.colGroup| == |row| && n <= |row|
  {
    if n == 0 then []
    else Writes(g, t, plan, row, n - 1)
         + (if Accepts(g, t, plan, row, n - 1) then [Write(PathOf(plan, n - 1), row[n - 1])] else [])
  }

  ghost predicate WrittenBy(g: Graph, t: nat, plan: ScanPlan, row: seq<Cell>, i: nat, w: Write)
    requires Closed(g) && t in g && |plan.fieldFor| == |plan.colGroup| == |row| && i < |row|
  {
    Accepts(g, t, plan, row, i) && w == Write(PathOf(plan, i), row[i])
  }

  // The writes are those of the written columns.
  lemma {:induction false} WritesAre(g: Graph, t: nat, plan: ScanPlan, row: seq<Cell>, n: nat, w: Write)
    requires Closed(g) && t in g && |plan.fieldFor| == |plan.colGroup| == |row| && n <= |row|
    ensures w in Writes(g, t, plan, row, n) <==> exists i :: 0 <= i < n && WrittenBy(g, t, plan, row, i, w)
  {
    if n > 0 {
      WritesAre(g, t, plan, row, n - 1, w);
      LastWrite(g, t, plan, row, n - 1, w);
    }
  }

  lemma LastWrite(g: Graph, t: nat, plan: ScanPlan, row: seq<Cell>, i: nat, w: Write)
    requires Closed(g) && t in g && |plan.fieldFor| == |plan.colGroup| == |row| && i < |row|
    ensures WrittenBy(g, t, plan, row, i, w) <==>
            w in (if Accepts(g, t, plan, row, i) then [Write(PathOf(plan, i), row[i])] else [])
  {
  }

  // The column's value can be assigned to its field.
  predicate Fits(g: Graph, t: nat, plan: ScanPlan, row: seq<Cell>, i: nat)
    requires Closed(g) && t in g && |plan.fieldFor| == |plan.colGroup| == |row| && Feeds(plan, i)
    requires LeafPath(g, Struct(t), PathOf(plan, i))
  {
    Assignable(LeafAt(g, Struct(t), PathOf(plan, i)), row[i])
  }

  lemma FeedsLeaf(g: Graph, t: nat, plan: ScanPlan, i: nat)
    requires WellPlanned(g, t, plan) && Feeds(plan, i)
    ensures LeafPath(g, Struct(t), PathOf(plan, i)) && PathOf(plan, i) != []
    ensures FieldKnown(g, t, plan.groups, plan.fields[plan.fieldFor[i]])
  {
  }

  lemma WritesLeafPaths(g: Graph, t: nat, plan: ScanPlan, row: seq<Cell>, n: nat)
    requires WellPlanned(g, t, plan) && |plan.fieldFor| == |row| && n <= |row|
    ensures LeafPaths(g, Struct(t), Writes(g, t, plan, row, n))
  {
    hide LeafPath, FieldKnown, Writes;
    var ws := Writes(g, t, plan, row, n);
    forall k | 0 <= k < |ws|
      ensures LeafPath(g, Struct(t), ws[k].path)
    {
      WritesAre(g, t, plan, row, n, ws[k]);
      var i :| 0 <= i < n && WrittenBy(g, t, plan, row, i, ws[k]);
      FeedsLeaf(g, t, plan, i);
    }
  }

  lemma AcceptsFeeds(g: Graph, t: nat, plan: ScanPlan, row: seq<Cell>, i: nat)
    requires Closed(g) && t in g && |plan.fieldFor| == |plan.colGroup| == |row| && Accepts(g, t, plan, row, i)
    ensures Feeds(plan, i)
  {
  }

  // The groups say which columns are written: those whose whole chain has data.
  lemma GroupsDecide(g: Graph, t: nat, plan: ScanPlan, row: seq<Cell>, i: nat)
    requires WellPlanned(g, t, plan) && |plan.fieldFor| == |row| && Feeds(plan, i)
    ensures Accepts(g, t, plan, row, i) <==>
            forall k :: 0 <= k < |plan.groups| && InChain(plan.groups, plan.colGroup[i], k) ==>
              DataBy(plan, row, |row|, plan.groups[k].index)
  {
    hide LeafPath, DataBy, InChain, PointerPath;
    FeedsLeaf(g, t, plan, i);
    var groups, path := plan.groups, PathOf(plan, i);
    if Accepts(g, t, plan, row, i) {
      forall k | 0 <= k < |groups| && InChain(groups, plan.colGroup[i], k)
        ensures DataBy(plan, row, |row|, groups[k].index)
      {
        var n := |groups[k].index|;
        assert path[..n] == groups[k].index;
        PointerIsProper(g, t, path, n);
      }
    }
    if forall k :: 0 <= k < |groups| && InChain(groups, plan.colGroup[i], k) ==>
        DataBy(plan, row, |row|, groups[k].index) {
      forall n | 0 < n < |path| && PointerPath(g, t, path[..n])
        ensures DataBy(plan, row, |row|, path[..n])
      {
        assert HasGroup(groups, path[..n]);
        var k :| 0 <= k < |groups| && groups[k].index == path[..n];
        assert groups[k].index <= path;
      }
    }
  }

  // A pointer on the way to a leaf is reached before the leaf.
  lemma {:induction false} PointerIsProper(g: Graph, t: nat, path: seq<nat>, n: nat)
    requires Closed(g) && t in g && LeafPath(g, Struct(t), path) && n <= |path| && PointerPath(g, t, path[..n])
    ensures 0 < n < |path|
    decreases n
  {
    var ft := g[t][path[0]].ftype;
    if n > 1 {
      assert path[..n][1..] == path[1..][..n - 1];
      LeafPathThrough(g, ft, path[1..]);
      PointerIsProper(g, ft.t, path[1..], n - 1);
    } else {
      assert path[..1][0] == path[0];
    }
  }

  // ----- the reader

  // A row is read, or rejected at a column that does not fit its field, or the
  // read panics at a column whose field lies behind a pointer that cannot be set.
  datatype ReadResult = Row(value: Val) | Rejected(column: nat) | Panicked(column: nat)

  class Reader {
    const g: Graph
    const rank: nat -> nat
    const t: nat
    const plan: ScanPlan
    const raw: array<Cell>
    const nulls: array<bool>

    ghost predicate Valid()
      reads this
    {
      && World(g, rank) && WellPlanned(g, t, plan)
      && raw.Length == |plan.fieldFor| && nulls.Length == |plan.groups|
    }

    constructor (g: Graph, rank: nat -> nat, nm: string -> string, t: nat, cols: seq<string>, plan: ScanPlan)
      requires World(g, rank) && t in g && PlanFor(g, nm, t, cols, plan)
      ensures Valid() && fresh(raw) && fresh(nulls)
      ensures this.g == g && this.rank == rank && this.t == t && this.plan == plan
    {
      PlanSound(g, nm, t, cols, plan);
      this.g, this.rank, this.t, this.plan := g, rank, t, plan;
      raw := new Cell[|plan.fieldFor|](_ => Null);
      nulls := new bool[|plan.groups|];
    }

    // After the first pass a group is null exactly when no column below it has data.
    ghost predicate Marked()
      requires Valid()
      reads this, raw, nulls
    {
      forall k :: 0 <= k < nulls.Length ==>
        (nulls[k] <==> !DataBy(plan, raw[..], raw.Length, plan.groups[k].index))
    }

    // One column with data: clears its group and every group enclosing it.
    method ClearChain(i: nat)
      requires Valid() && i < raw.Length && Feeds(plan, i) && raw[i].Data?
      requires forall k :: 0 <= k < nulls.Length ==> (nulls[k] <==> !DataBy(plan, raw[..], i, plan.groups[k].index))
      modifies nulls
      ensures forall k :: 0 <= k < nulls.Length ==> (nulls[k] <==> !DataBy(plan, raw[..], i + 1, plan.groups[k].index))
    {
      hide DataBy, LeafPath;
      var h := plan.colGroup[i];
      while h >= 0
        invariant -1 <= h < |plan.groups|
        invariant forall k :: 0 <= k < nulls.Length ==>
                    (nulls[k] <==>
                       old(nulls[k]) && !(InChain(plan.groups, plan.colGroup[i], k) && !InChain(plan.groups, h, k)))
        invariant forall k :: 0 <= k < nulls.Length && InChain(plan.groups, h, k) ==>
            InChain(plan.groups, plan.colGroup[i], k)
      {
        NotInChain(plan.groups, plan.groups[h].parent, h);
        nulls[h] := false;
        h := plan.groups[h].parent;
      }
      FeedsLeaf(g, t, plan, i);
      forall k | 0 <= k < nulls.Length
        ensures nulls[k] <==> !DataBy(plan, raw[..], i + 1, plan.groups[k].index)
      {
        DataStep(plan, raw[..], i, plan.groups[k].index);
      }
    }

    method Mark()
      requires Valid()
      modifies nulls
      ensures Marked()
    {
      hide DataBy, Linked;
      ghost var row := raw[..];
      for k := 0 to nulls.Length
        invariant forall j :: 0 <= j < k ==> nulls[j]
      {
        nulls[k] := true;
      }
      forall k | 0 <= k < nulls.Length
        ensures !DataBy(plan, row, 0, plan.groups[k].index)
      {
        DataNone(plan, row, plan.groups[k].index);
      }
      for i := 0 to raw.Length
        invariant raw[..] == row
        invariant forall k :: 0 <= k < nulls.Length ==> (nulls[k] <==> !DataBy(plan, row, i, plan.groups[k].index))
      {
        FieldForRange(g, t, plan, i);
        if plan.fieldFor[i] < 0 || raw[i] == Null {
          forall k | 0 <= k < nulls.Length
            ensures nulls[k] <==> !DataBy(plan, row, i + 1, plan.groups[k].index)
          {
            DataStep(plan, row, i, plan.groups[k].index);
          }
          continue;
        }
        ClearChain(i);
      }
    }

    // Whether a group or one enclosing it is all NULL. Since marks are closed
    // along parent links, the group itself decides.
    method GroupIsNull(group: int) returns (b: bool)
      requires Valid() && Marked() && -1 <= group < |plan.groups|
      ensures b <==> exists k :: 0 <= k < nulls.Length && InChain(plan.groups, group, k) && nulls[k]
      ensures b <==> group >= 0 && nulls[group]
    {
      hide DataBy, PointerPath, FieldKnown, LeafPath;
      var h := group;
      while h >= 0
        invariant -1 <= h < |plan.groups|
        invariant forall k :: 0 <= k < nulls.Length && InChain(plan.groups, group, k) && !InChain(plan.groups, h, k) ==>
            !nulls[k]
        invariant forall k :: 0 <= k < nulls.Length && InChain(plan.groups, h, k) ==> InChain(plan.groups, group, k)
        invariant h != group ==> group >= 0 && !nulls[group]
      {
        if nulls[h] {
          if h != group {
            MarksClosed(group, h);
          }
          return true;
        }
        h := plan.groups[h].parent;
      }
      b := false;
    }

    // A group with data lies only in groups with data.
    lemma {:induction false} MarksClosed(group: int, k: nat)
      requires Valid() && Marked() && 0 <= group < |plan.groups| && k < |plan.groups|
      requires InChain(plan.groups, group, k)
      ensures nulls[k] ==> nulls[group]
      decreases group
    {
      hide PointerPath, FieldKnown, LeafPath;
      if group != k {
        var parent := plan.groups[group].parent;
        MarksClosed(parent, k);
        assert ParentAbove(plan.groups, group);
        if !nulls[group] {
          DataAbove(plan, raw[..], plan.groups[parent].index, plan.groups[group].index);
        }
      }
    }

    // A row is read exactly when every written column fits its field and lies
    // behind no pointer that cannot be set; the value is what the written columns
    // assemble, and otherwise the first that fails decides. Nothing of an earlier
    // row matters.
    method Read(row: seq<Cell>) returns (r: ReadResult)
      requires Valid() && |row| == raw.Length
      modifies raw, nulls
      ensures r == Outcome(g, rank, t, plan, row)
    {
      for i := 0 to raw.Length
        invariant raw[..i] == row[..i]
      {
        raw[i] := row[i];
      }
      assert raw[..] == row;
      Mark();
      r := Fill(row);
    }

    method Fill(row: seq<Cell>) returns (r: ReadResult)
      requires Valid() && Marked() && raw[..] == row
      ensures r == Outcome(g, rank, t, plan, row)
    {
      hide Linked, Accepts, Assembled, LeafPath, Typed, Writes, FilledTo, Outcome, DataBy, InChain, Blocked, Locked;
      var root := Zero(g, rank, Struct(t));
      WritesNone(g, rank, t, plan, row);
      for i := 0 to raw.Length
        invariant FilledTo(g, rank, t, plan, row, i, root)
      {
        FieldForRange(g, t, plan, i);
        FilledSkip(g, rank, t, plan, row, i, root);
        var fi := plan.fieldFor[i];
        if fi < 0 {
          continue;
        }
        ColumnGroup(g, t, plan, i);
        var absent := GroupIsNull(plan.colGroup[i]);
        GroupsDecide(g, t, plan, row, i);
        if absent {
          continue;
        }
        FeedsLeaf(g, t, plan, i);
        FilledStep(g, rank, t, plan, row, i, root);
        if Blocked(g, Struct(t), root, PathOf(plan, i)) {
          return Panicked(i);
        }
        var leaf := LeafAt(g, Struct(t), PathOf(plan, i));
        if !Assignable(leaf, raw[i]) {
          return Rejected(i);
        }
        root := SetAt(g, rank, Struct(t), root, PathOf(plan, i), raw[i]);
      }
      FilledAll(g, rank, t, plan, row, root);
      r := Row(root);
    }
  }

  lemma DataNone(plan: ScanPlan, row: seq<Cell>, path: seq<nat>)
    requires |plan.fieldFor| == |plan.colGroup| == |row|
    ensures !DataBy(plan, row, 0, path)
  {
  }

  lemma DataStep(plan: ScanPlan, row: seq<Cell>, i: nat, path: seq<nat>)
    requires |plan.fieldFor| == |plan.colGroup| == |row| && i < |row|
    ensures DataBy(plan, row, i + 1, path) <==>
            DataBy(plan, row, i, path) || (Feeds(plan, i) && row[i].Data? && path <= PathOf(plan, i))
  {
  }

  lemma DataAbove(plan: ScanPlan, row: seq<Cell>, outer: seq<nat>, inner: seq<nat>)
    requires |plan.fieldFor| == |plan.colGroup| == |row| && outer <= inner
    requires DataBy(plan, row, |row|, inner)
    ensures DataBy(plan, row, |row|, outer)
  {
    var i :| 0 <= i < |row| && Feeds(plan, i) && row[i].Data? && inner <= PathOf(plan, i);
    assert outer <= PathOf(plan, i);
  }

  lemma FieldForRange(g: Graph, t: nat, plan: ScanPlan, i: nat)
    requires WellPlanned(g, t, plan) && i < |plan.fieldFor|
    ensures |plan.colGroup| == |plan.fieldFor| && -1 <= plan.fieldFor[i] < |plan.fields|
  {
  }

  lemma ColumnGroup(g: Graph, t: nat, plan: ScanPlan, i: nat)
    requires WellPlanned(g, t, plan) && Feeds(plan, i)
    ensures -1 <= plan.colGroup[i] < |plan.groups|
  {
    FeedsLeaf(g, t, plan, i);
  }

  // ----- the outcome of a row

  // Column i is written and its field cannot take it, or cannot be reached.
  ghost predicate Trouble(g: Graph, t: nat, plan: ScanPlan, row: seq<Cell>, i: nat)
    requires WellPlanned(g, t, plan) && |plan.fieldFor| == |row|
  {
    && Accepts(g, t, plan, row, i)
    && (FeedsLeaf(g, t, plan, i); Locked(g, Struct(t), PathOf(plan, i)) || !Fits(g, t, plan, row, i))
  }

  // The first trouble from column i on, or |row|.
  ghost function FirstTrouble(g: Graph, t: nat, plan: ScanPlan, row: seq<Cell>, i: nat): (m: nat)
    requires WellPlanned(g, t, plan) && |plan.fieldFor| == |row| && i <= |row|
    ensures i <= m <= |row|
    ensures forall j :: i <= j < m ==> !Trouble(g, t, plan, row, j)
    ensures m < |row| ==> Trouble(g, t, plan, row, m)
    decreases |row| - i
  {
    if i == |row| || Trouble(g, t, plan, row, i) then i else FirstTrouble(g, t, plan, row, i + 1)
  }

  ghost function Outcome(g: Graph, rank: nat -> nat, t: nat, plan: ScanPlan, row: seq<Cell>): ReadResult
    requires World(g, rank) && WellPlanned(g, t, plan) && |plan.fieldFor| == |row|
  {
    var m := FirstTrouble(g, t, plan, row, 0);
    if m < |row| then
      FeedsLeaf(g, t, plan, m);
      if Locked(g, Struct(t), PathOf(plan, m)) then Panicked(m) else Rejected(m)
    else
      WritesLeafPaths(g, t, plan, row, |row|);
      Row(Assembled(g, rank, Struct(t), Writes(g, t, plan, row, |row|)))
  }

  // The first i columns are dealt with: none was in trouble, and root is what
  // those written assemble.
  ghost predicate FilledTo(g: Graph, rank: nat -> nat, t: nat, plan: ScanPlan, row: seq<Cell>, i: nat, root: Val)
    requires World(g, rank) && WellPlanned(g, t, plan) && |plan.fieldFor| == |row| && i <= |row|
  {
    WritesLeafPaths(g, t, plan, row, i);
    && (forall j :: 0 <= j < i ==> !Trouble(g, t, plan, row, j))
    && Typed(g, Struct(t), root)
    && root == Assembled(g, rank, Struct(t), Writes(g, t, plan, row, i))
  }

  // Nothing written so far lies behind a pointer that cannot be set.
  lemma FilledUnlocked(g: Graph, t: nat, plan: ScanPlan, row: seq<Cell>, i: nat)
    requires WellPlanned(g, t, plan) && |plan.fieldFor| == |row| && i <= |row|
    requires forall j :: 0 <= j < i ==> !Trouble(g, t, plan, row, j)
    ensures LeafPaths(g, Struct(t), Writes(g, t, plan, row, i)) && Unlocked(g, Struct(t), Writes(g, t, plan, row, i))
  {
    hide Linked, Writes, LeafPath, FieldKnown, Accepts, Locked, Fits;
    WritesLeafPaths(g, t, plan, row, i);
    var ws := Writes(g, t, plan, row, i);
    forall k | 0 <= k < |ws|
      ensures !Locked(g, Struct(t), ws[k].path)
    {
      WritesAre(g, t, plan, row, i, ws[k]);
      var j :| 0 <= j < i && WrittenBy(g, t, plan, row, j, ws[k]);
      AcceptsFeeds(g, t, plan, row, j);
      FeedsLeaf(g, t, plan, j);
      assert !Trouble(g, t, plan, row, j);
    }
  }

  lemma WritesNone(g: Graph, rank: nat -> nat, t: nat, plan: ScanPlan, row: seq<Cell>)
    requires World(g, rank) && WellPlanned(g, t, plan) && |plan.fieldFor| == |row|
    ensures FilledTo(g, rank, t, plan, row, 0, Zero(g, rank, Struct(t)))
  {
  }

  lemma FilledSkip(g: Graph, rank: nat -> nat, t: nat, plan: ScanPlan, row: seq<Cell>, i: nat, root: Val)
    requires World(g, rank) && WellPlanned(g, t, plan) && |plan.fieldFor| == |row| && i < |row|
    requires FilledTo(g, rank, t, plan, row, i, root)
    ensures !Feeds(plan, i) || !Accepts(g, t, plan, row, i) ==> FilledTo(g, rank, t, plan, row, i + 1, root)
  {
    hide Linked, Assembled, Typed;
    hide Writes;
    WritesStep(g, t, plan, row, i);
  }

  lemma WritesStep(g: Graph, t: nat, plan: ScanPlan, row: seq<Cell>, i: nat)
    requires Closed(g) && t in g && |plan.fieldFor| == |plan.colGroup| == |row| && i < |row|
    ensures Writes(g, t, plan, row, i + 1) ==
            if Accepts(g, t, plan, row, i) then Writes(g, t, plan, row, i) + [Write(PathOf(plan, i), row[i])]
            else Writes(g, t, plan, row, i)
  {
    hide Accepts;
  }

  lemma FilledStep(g: Graph, rank: nat -> nat, t: nat, plan: ScanPlan, row: seq<Cell>, i: nat, root: Val)
    requires World(g, rank) && WellPlanned(g, t, plan) && |plan.fieldFor| == |row| && i < |row|
    requires FilledTo(g, rank, t, plan, row, i, root) && Accepts(g, t, plan, row, i)
    ensures Feeds(plan, i) && LeafPath(g, Struct(t), PathOf(plan, i)) && Typed(g, Struct(t), root)
    ensures Blocked(g, Struct(t), root, PathOf(plan, i)) ==> Outcome(g, rank, t, plan, row) == Panicked(i)
    ensures !Blocked(g, Struct(t), root, PathOf(plan, i)) && Fits(g, t, plan, row, i) ==>
              FilledTo(g, rank, t, plan, row, i + 1, SetAt(g, rank, Struct(t), root, PathOf(plan, i), row[i]))
    ensures !Blocked(g, Struct(t), root, PathOf(plan, i)) && !Fits(g, t, plan, row, i) ==>
              Outcome(g, rank, t, plan, row) == Rejected(i)
  {
    hide Linked, Assembled, Typed, SetAt, Writes, LeafPath, FieldKnown, FilledTo, Outcome, Blocked, Locked;
    FilledFacts(g, rank, t, plan, row, i, root);
    if Blocked(g, Struct(t), root, PathOf(plan, i)) || !Fits(g, t, plan, row, i) {
      FilledTrouble(g, rank, t, plan, row, i, root);
    } else {
      FilledFit(g, rank, t, plan, row, i, root);
    }
  }

  lemma FilledFacts(g: Graph, rank: nat -> nat, t: nat, plan: ScanPlan, row: seq<Cell>, i: nat, root: Val)
    requires World(g, rank) && WellPlanned(g, t, plan) && |plan.fieldFor| == |row| && i < |row|
    requires FilledTo(g, rank, t, plan, row, i, root) && Accepts(g, t, plan, row, i)
    ensures Feeds(plan, i) && LeafPath(g, Struct(t), PathOf(plan, i)) && Typed(g, Struct(t), root)
    ensures Blocked(g, Struct(t), root, PathOf(plan, i)) <==> Locked(g, Struct(t), PathOf(plan, i))
  {
    hide Linked, Assembled, Typed, Writes, LeafPath, FieldKnown, Blocked, Locked, Trouble, Unlocked;
    AcceptsFeeds(g, t, plan, row, i);
    FeedsLeaf(g, t, plan, i);
    FilledUnlocked(g, t, plan, row, i);
    BlockedExactly(g, rank, Struct(t), Writes(g, t, plan, row, i), PathOf(plan, i));
  }

  lemma FilledFit(g: Graph, rank: nat -> nat, t: nat, plan: ScanPlan, row: seq<Cell>, i: nat, root: Val)
    requires World(g, rank) && WellPlanned(g, t, plan) && |plan.fieldFor| == |row| && i < |row|
    requires FilledTo(g, rank, t, plan, row, i, root) && Accepts(g, t, plan, row, i) && Feeds(plan, i)
    requires LeafPath(g, Struct(t), PathOf(plan, i)) && Typed(g, Struct(t), root) && Fits(g, t, plan, row, i)
    requires !Blocked(g, Struct(t), root, PathOf(plan, i)) && !Locked(g, Struct(t), PathOf(plan, i))
    ensures FilledTo(g, rank, t, plan, row, i + 1, SetAt(g, rank, Struct(t), root, PathOf(plan, i), row[i]))
  {
    hide Linked, Assembled, Typed, SetAt, Writes, LeafPath, FieldKnown, LeafAt, Blocked, Locked;
    hide Accepts;
    WritesStep(g, t, plan, row, i);
    WritesLeafPaths(g, t, plan, row, i);
    WritesLeafPaths(g, t, plan, row, i + 1);
    SetAtAssembles(g, rank, Struct(t), Writes(g, t, plan, row, i), Write(PathOf(plan, i), row[i]));
  }

  lemma FilledTrouble(g: Graph, rank: nat -> nat, t: nat, plan: ScanPlan, row: seq<Cell>, i: nat, root: Val)
    requires World(g, rank) && WellPlanned(g, t, plan) && |plan.fieldFor| == |row| && i < |row|
    requires FilledTo(g, rank, t, plan, row, i, root) && Accepts(g, t, plan, row, i) && Feeds(plan, i)
    requires LeafPath(g, Struct(t), PathOf(plan, i))
    requires Locked(g, Struct(t), PathOf(plan, i)) || !Fits(g, t, plan, row, i)
    ensures Outcome(g, rank, t, plan, row)
         == if Locked(g, Struct(t), PathOf(plan, i)) then Panicked(i) else Rejected(i)
  {
    hide Linked, Assembled, Typed, Writes, LeafPath, FieldKnown, LeafAt, Fits, Locked;
    hide Accepts;
    assert Trouble(g, t, plan, row, i);
    assert forall j :: 0 <= j < i ==> !Trouble(g, t, plan, row, j);
  }

  lemma FilledAll(g: Graph, rank: nat -> nat, t: nat, plan: ScanPlan, row: seq<Cell>, root: Val)
    requires World(g, rank) && WellPlanned(g, t, plan) && |plan.fieldFor| == |row|
    requires FilledTo(g, rank, t, plan, row, |row|, root)
    ensures Outcome(g, rank, t, plan, row) == Row(root)
  {
    hide Linked, Assembled, Typed, Writes, Trouble;
  }

  // ----- when a read panics

  // The field at the end of a path of fields.
  function DeclAt(g: Graph, t: nat, path: seq<nat>): Decl
    requires Closed(g) && t in g && PointerPath(g, t, path)
    decreases |path|
  {
    var d := g[t][path[0]];
    if |path| == 1 then d else DeclAt(g, d.ftype.t, path[1..])
  }

  // A path goes through a pointer that cannot be set exactly when some part of
  // it leads to an embedded pointer whose type is not exported.
  lemma {:induction false} LockedExactly(g: Graph, t: nat, path: seq<nat>)
    requires Closed(g) && t in g && LeafPath(g, Struct(t), path)
    ensures Locked(g, Struct(t), path)
       <==> exists n :: 0 < n < |path| && SealedAt(g, t, path[..n])
    decreases |path|
  {
    var d := g[t][path[0]];
    if |path| > 1 {
      LeafPathThrough(g, d.ftype, path[1..]);
      LockedThrough(g, d.ftype, path[1..]);
      LockedExactly(g, d.ftype.t, path[1..]);
      assert path[..1] == [path[0]];
      if SealedAt(g, t, path[..1]) {
        assert Locked(g, Struct(t), path);
      }
      forall n | 1 < n < |path|
        ensures SealedAt(g, t, path[..n]) <==> SealedAt(g, d.ftype.t, path[1..][..n - 1])
      {
        assert path[..n][1..] == path[1..][..n - 1];
      }
      if Locked(g, Struct(d.ftype.t), path[1..]) {
        var m :| 0 < m < |path[1..]| && SealedAt(g, d.ftype.t, path[1..][..m]);
        assert SealedAt(g, t, path[..m + 1]);
      }
    }
  }

  predicate SealedAt(g: Graph, t: nat, path: seq<nat>)
    requires Closed(g) && t in g
  {
    && PointerPath(g, t, path)
    && var d := DeclAt(g, t, path);
       d.ftype.Pointer? && d.anonymous && !d.exported
  }

  // A read panics if and only if some column that is written lies behind a
  // pointer that cannot be set, and every column written before it fits; it is
  // rejected at a column if and only if that one can be set and does not fit, and
  // those before it do. All of it can be told from the type, the plan and the row.
  lemma PanicsExactly(g: Graph, rank: nat -> nat, t: nat, plan: ScanPlan, row: seq<Cell>, m: nat)
    requires World(g, rank) && WellPlanned(g, t, plan) && |plan.fieldFor| == |row|
    ensures Outcome(g, rank, t, plan, row) == Panicked(m) <==>
            && m < |row| && Accepts(g, t, plan, row, m) && BehindSealed(g, t, plan, m)
            && forall j :: 0 <= j < m && Accepts(g, t, plan, row, j) ==>
                 !BehindSealed(g, t, plan, j) && FitsAt(g, t, plan, row, j)
    ensures Outcome(g, rank, t, plan, row) == Rejected(m) <==>
            && m < |row| && Accepts(g, t, plan, row, m)
            && !BehindSealed(g, t, plan, m) && !FitsAt(g, t, plan, row, m)
            && forall j :: 0 <= j < m && Accepts(g, t, plan, row, j) ==>
                 !BehindSealed(g, t, plan, j) && FitsAt(g, t, plan, row, j)
    ensures Outcome(g, rank, t, plan, row).Row? <==>
            forall j :: 0 <= j < |row| && Accepts(g, t, plan, row, j) ==>
              !BehindSealed(g, t, plan, j) && FitsAt(g, t, plan, row, j)
  {
    hide Linked, Assembled, Writes, LeafPath, FieldKnown, LeafAt, Accepts, Locked, PointerPath, SealedAt, Fits;
    forall j | 0 <= j < |row|
      ensures Trouble(g, t, plan, row, j) <==>
              Accepts(g, t, plan, row, j) && (BehindSealed(g, t, plan, j) || !FitsAt(g, t, plan, row, j))
      ensures Accepts(g, t, plan, row, j) ==>
                Feeds(plan, j) && LeafPath(g, Struct(t), PathOf(plan, j))
                && (BehindSealed(g, t, plan, j) <==> Locked(g, Struct(t), PathOf(plan, j)))
    {
      if Accepts(g, t, plan, row, j) {
        AcceptsFeeds(g, t, plan, row, j);
        FeedsLeaf(g, t, plan, j);
        LockedExactly(g, t, PathOf(plan, j));
      }
    }
  }

  // Column j is read into a field behind a pointer that cannot be set.
  ghost predicate BehindSealed(g: Graph, t: nat, plan: ScanPlan, j: nat)
    requires WellPlanned(g, t, plan)
  {
    Feeds(plan, j) && exists n :: 0 < n < |PathOf(plan, j)| && SealedAt(g, t, PathOf(plan, j)[..n])
  }

  ghost predicate FitsAt(g: Graph, t: nat, plan: ScanPlan, row: seq<Cell>, j: nat)
    requires WellPlanned(g, t, plan) && |plan.fieldFor| == |row|
  {
    Feeds(plan, j) && (FeedsLeaf(g, t, plan, j); Fits(g, t, plan, row, j))
  }
}
