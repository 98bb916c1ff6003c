// The mapping from a struct type to columns: a walk over a type graph that may
// be cyclic, producing fields with index paths and a forest of nilable groups.

module Mapper {
  import opened Wrappers

  // A leaf is scanned into directly; a struct is descended into, by value or
  // through a pointer. A leaf that is not nullable rejects NULL.
  datatype FieldType = Leaf(nullable: bool) | Struct(t: nat) | Pointer(t: nat)

  // A parsed db tag; untagged fields have an empty name and no options.
  datatype Tag = Tag(tagged: bool, name: string, skip: bool, pk: bool, readonly: bool, hasPrefix: bool, prefix: string)

  datatype Decl = Decl(name: string, exported: bool, anonymous: bool, tag: Tag, ftype: FieldType)

  // Struct types by number, each with its fields in order.
  type Graph = map<nat, seq<Decl>>

  predicate Closed(g: Graph) {
    forall t, i :: t in g && 0 <= i < |g[t]| && !g[t][i].ftype.Leaf? ==> g[t][i].ftype.t in g
  }

  datatype Field = Field(column: string, index: seq<nat>, group: int, pk: bool, readonly: bool, path: string)

  datatype Group = Group(index: seq<nat>, parent: int, path: string)

  datatype Clash = Clash(first: string, second: string, column: string)

  // ----- the walk

  predicate Skipped(d: Decl) {
    (!d.exported && !d.anonymous) || d.tag.skip || (d.ftype.Leaf? && !d.exported)
  }

  function NameOf(nm: string -> string, d: Decl): string {
    if d.tag.name == "" then nm(d.name) else d.tag.name
  }

  function SubPrefix(nm: string -> string, d: Decl, prefix: string): string {
    if d.tag.hasPrefix then prefix + d.tag.prefix
    else if d.anonymous && !d.tag.tagged then prefix
    else prefix + NameOf(nm, d) + "_"
  }

  function SubPath(d: Decl, path: string): string {
    if path == "" then d.name else path + "." + d.name
  }

  // Where the walk is: the index path, column prefix and Go path of the struct
  // it is in, and the group that struct belongs to.
  datatype Place = Place(index: seq<nat>, prefix: string, path: string, group: int)

  datatype Walked = Walked(fields: seq<Field>, groups: seq<Group>)

  function LeafField(nm: string -> string, d: Decl, i: nat, at: Place): Field {
    Field(at.prefix + NameOf(nm, d), at.index + [i], at.group, d.tag.pk, d.tag.readonly, SubPath(d, at.path))
  }

  // The groups that entering the i-th field adds, when ng groups exist.
  function Entered(d: Decl, i: nat, at: Place): seq<Group> {
    if d.ftype.Pointer? then [Group(at.index + [i], at.group, SubPath(d, at.path))] else []
  }

  function Inside(nm: string -> string, d: Decl, i: nat, at: Place, ng: nat): Place {
    Place(at.index + [i], SubPrefix(nm, d, at.prefix), SubPath(d, at.path), if d.ftype.Pointer? then ng else at.group)
  }

  // What the i-th field of type t contributes, when ng groups exist. A type
  // already being walked is not entered again, so the walk ends.
  function Visit(g: Graph, nm: string -> string, t: nat, i: nat, at: Place, seen: set<nat>, ng: nat): Walked
    requires Closed(g) && t in g && i < |g[t]|
    decreases g.Keys - seen, 0, 0
  {
    var d := g[t][i];
    if Skipped(d) then Walked([], [])
    else if d.ftype.Leaf? then Walked([LeafField(nm, d, i, at)], [])
    else if d.ftype.t in seen then Walked([], [])
    else
      assert d.ftype.t in g.Keys - seen;
      var own := Entered(d, i, at);
      var inner := Walk(g, nm, d.ftype.t, 0, Inside(nm, d, i, at, ng), seen + {d.ftype.t}, ng + |own|);
      Walked(inner.fields, own + inner.groups)
  }

  // The fields and groups of type t from its i-th field on.
  function Walk(g: Graph, nm: string -> string, t: nat, i: nat, at: Place, seen: set<nat>, ng: nat): Walked
    requires Closed(g) && t in g && i <= |g[t]|
    decreases g.Keys - seen, 1, |g[t]| - i
  {
    if i == |g[t]| then Walked([], [])
    else
      var v := Visit(g, nm, t, i, at, seen, ng);
      var rest := Walk(g, nm, t, i + 1, at, seen, ng + |v.groups|);
      Walked(v.fields + rest.fields, v.groups + rest.groups)
  }

  const ROOT: Place := Place([], "", "", -1)

  function WalkRoot(g: Graph, nm: string -> string, t: nat): Walked
    requires Closed(g) && t in g
  {
    Walk(g, nm, t, 0, ROOT, {t}, 0)
  }

  // The first column claimed twice, if any.
  function FirstClash(fields: seq<Field>): Option<Clash> {
    if fields == [] then None
    else
      var m := |fields| - 1;
      var front := FirstClash(fields[..m]);
      if front.Some? then front
      else
        var k := ClaimedBy(fields[..m], fields[m].column);
        if k < m then Some(Clash(fields[k].path, fields[m].path, fields[m].column)) else None
  }

  // The first field with the given column, or |fields|.
  function ClaimedBy(fields: seq<Field>, column: string): (k: nat)
    ensures k <= |fields|
    ensures k < |fields| ==> fields[k].column == column
    ensures forall j :: 0 <= j < k ==> fields[j].column != column
  {
    if fields == [] || fields[0].column == column then 0 else 1 + ClaimedBy(fields[1..], column)
  }

  lemma {:induction false} ClashStays(a: seq<Field>, b: seq<Field>)
    requires FirstClash(a).Some?
    ensures FirstClash(a + b) == FirstClash(a)
    decreases |b|
  {
    if b == [] {
      assert a + b == a;
    } else {
      var m := |b| - 1;
      assert (a + b)[..|a + b| - 1] == a + b[..m];
      ClashStays(a, b[..m]);
    }
  }

  lemma {:induction false} NoClashExactly(fields: seq<Field>)
    ensures FirstClash(fields).None? <==>
            forall i, j :: 0 <= i < j < |fields| ==> fields[i].column != fields[j].column
  {
    if fields != [] {
      var m := |fields| - 1;
      var front := fields[..m];
      NoClashExactly(front);
      if FirstClash(front).Some? {
        var i, j :| 0 <= i < j < |front| && front[i].column == front[j].column;
        assert fields[i].column == fields[j].column;
      } else {
        forall i, j | 0 <= i < j < m
          ensures fields[i].column != fields[j].column
        {
          assert front[i].column != front[j].column;
        }
      }
    }
  }

  // ----- the walk as the program runs it

  class StructInfo {
    var fields: seq<Field>
    var byName: map<string, nat>
    var groups: seq<Group>
    var pks: seq<nat>
    var err: Option<Clash>
    var dup: map<string, string>
    var seen: set<nat>

    // byName inverts fields, dup remembers the path that claimed each column,
    // and pks lists the primary keys.
    ghost predicate Valid()
      reads this
    {
      && FirstClash(fields).None?
      && Indexed(fields, byName)
      && Named(fields, byName, dup)
      && pks == PrimaryKeys(fields)
    }

    constructor (t: nat)
      ensures Valid() && fields == [] && groups == [] && err.None? && seen == {t}
    {
      fields, byName, groups, pks, err, dup, seen := [], map[], [], [], None, map[], {t};
    }

    method AddField(f: Field)
      requires Valid() && err.None?
      modifies this
      ensures groups == old(groups) && seen == old(seen)
      ensures err == FirstClash(old(fields) + [f])
      ensures err.None? ==> Valid() && fields == old(fields) + [f]
    {
      hide FirstClash, ClaimedBy, PrimaryKeys;
      ClaimedIsIndexed(fields, byName, f.column);
      ClashOfLast(fields, f);
      if f.column in dup {
        err := Some(Clash(dup[f.column], f.path, f.column));
        return;
      }
      PrimaryKeysAppend(fields, f);
      IndexedAppend(fields, byName, dup, f);
      hide Indexed, Named;
      dup := dup[f.column := f.path];
      byName := byName[f.column := |fields|];
      fields := fields + [f];
      if f.pk {
        pks := pks + [|fields| - 1];
      }
    }

    // One struct type: its fields in order, until one claims a column twice.
    method WalkType(g: Graph, nm: string -> string, t: nat, at: Place)
      requires Closed(g) && t in g
      requires Valid() && err.None?
      modifies this
      ensures After(g, nm, t, 0, at, old(seen), old(fields), old(groups), true)
      decreases g.Keys - seen, 1
    {
      ghost var all := Walk(g, nm, t, 0, at, seen, |groups|);
      ghost var fields0, groups0 := fields, groups;
      for i := 0 to |g[t]|
        invariant Valid() && err.None? && seen == old(seen)
        invariant var rest := Walk(g, nm, t, i, at, seen, |groups|);
                  fields + rest.fields == fields0 + all.fields && groups + rest.groups == groups0 + all.groups
      {
        ghost var fields1, groups1 := fields, groups;
        VisitField(g, nm, t, i, at);
        WalkStep(g, nm, t, i, at, old(seen), fields1, groups1);
        if err.Some? {
          ClashStays(fields1 + Visit(g, nm, t, i, at, old(seen), |groups1|).fields,
                     Walk(g, nm, t, i + 1, at, old(seen),
                          |groups1 + Visit(g, nm, t, i, at, old(seen), |groups1|).groups|).fields);
          return;
        }
      }
      assert fields + [] == fields && groups + [] == groups;
    }

    method VisitField(g: Graph, nm: string -> string, t: nat, i: nat, at: Place)
      requires Closed(g) && t in g && i < |g[t]|
      requires Valid() && err.None?
      modifies this
      ensures After(g, nm, t, i, at, old(seen), old(fields), old(groups), false)
      decreases g.Keys - seen, 0, 1
    {
      hide FirstClash, PrimaryKeys, Indexed, Walk;
      var d := g[t][i];
      assert fields + [] == fields && groups + [] == groups;
      if Skipped(d) {
        return;
      }
      if d.ftype.Leaf? {
        AddField(LeafField(nm, d, i, at));
        return;
      }
      if d.ftype.t in seen {
        return;
      }
      EnterField(g, nm, d, i, at);
    }

    // A nested struct, entered for the first time on this path.
    method EnterField(g: Graph, nm: string -> string, d: Decl, i: nat, at: Place)
      requires Closed(g) && !d.ftype.Leaf? && d.ftype.t in g && d.ftype.t !in seen
      requires Valid() && err.None?
      modifies this
      ensures var own := Entered(d, i, at);
              var inner := Walk(g, nm, d.ftype.t, 0, Inside(nm, d, i, at, |old(groups)|),
                                old(seen) + {d.ftype.t}, |old(groups)| + |own|);
              && err == FirstClash(old(fields) + inner.fields)
              && (err.None? ==> Valid() && fields == old(fields) + inner.fields && seen == old(seen)
                                && groups == old(groups) + (own + inner.groups))
      decreases g.Keys - seen, 0, 0
    {
      hide FirstClash, PrimaryKeys, Indexed, Walk;
      ghost var seen0, groups0, own := seen, groups, Entered(d, i, at);
      var inside := Inside(nm, d, i, at, |groups|);
      if d.ftype.Pointer? {
        groups := groups + [Group(at.index + [i], at.group, SubPath(d, at.path))];
      }
      assert groups == groups0 + own;
      seen := seen + {d.ftype.t};
      assert d.ftype.t in g.Keys - seen0;
      ghost var inner := Walk(g, nm, d.ftype.t, 0, inside, seen, |groups|);
      WalkType(g, nm, d.ftype.t, inside);
      assert groups0 + own + inner.groups == groups0 + (own + inner.groups);
      seen := seen - {d.ftype.t};
      assert seen0 + {d.ftype.t} - {d.ftype.t} == seen0;
    }

    // The state after walking a type (all) or one of its fields from the state
    // (fields0, groups0): what the walk enumerates is added, or the clash found.
    ghost predicate After(g: Graph, nm: string -> string, t: nat, i: nat, at: Place, seen0: set<nat>,
                           fields0: seq<Field>, groups0: seq<Group>, all: bool)
      requires Closed(g) && t in g && i <= |g[t]| && (all || i < |g[t]|)
      reads this
    {
      var w := if all then Walk(g, nm, t, i, at, seen0, |groups0|) else Visit(g, nm, t, i, at, seen0, |groups0|);
      && err == FirstClash(fields0 + w.fields)
      && (err.None? ==> Valid() && fields == fields0 + w.fields && groups == groups0 + w.groups && seen == seen0)
    }
  }

  lemma WalkStep(g: Graph, nm: string -> string, t: nat, i: nat, at: Place, seen: set<nat>, fields: seq<Field>,
                 groups: seq<Group>)
    requires Closed(g) && t in g && i < |g[t]|
    ensures var v := Visit(g, nm, t, i, at, seen, |groups|);
            var rest := Walk(g, nm, t, i + 1, at, seen, |groups + v.groups|);
            var all := Walk(g, nm, t, i, at, seen, |groups|);
            && all == Walked(v.fields + rest.fields, v.groups + rest.groups)
            && fields + all.fields == fields + v.fields + rest.fields
            && groups + all.groups == groups + v.groups + rest.groups
  {
    var v := Visit(g, nm, t, i, at, seen, |groups|);
    var rest := Walk(g, nm, t, i + 1, at, seen, |groups| + |v.groups|);
    assert fields + (v.fields + rest.fields) == fields + v.fields + rest.fields;
    assert groups + (v.groups + rest.groups) == groups + v.groups + rest.groups;
  }

  lemma ClashOfLast(fields: seq<Field>, f: Field)
    requires FirstClash(fields).None?
    ensures FirstClash(fields + [f]) ==
            var k := ClaimedBy(fields, f.column);
            if k < |fields| then Some(Clash(fields[k].path, f.path, f.column)) else None
  {
    assert (fields + [f])[..|fields|] == fields;
  }

  lemma PrimaryKeysAppend(fields: seq<Field>, f: Field)
    ensures PrimaryKeys(fields + [f]) == PrimaryKeys(fields) + (if f.pk then [|fields|] else [])
  {
    assert (fields + [f])[..|fields|] == fields;
  }

  ghost predicate Indexed(fields: seq<Field>, byName: map<string, nat>) {
    && (forall c :: c in byName ==> byName[c] < |fields| && fields[byName[c]].column == c)
    && (forall k :: 0 <= k < |fields| ==> fields[k].column in byName && byName[fields[k].column] == k)
  }

  // dup holds the path of the field that claimed each column.
  ghost predicate Named(fields: seq<Field>, byName: map<string, nat>, dup: map<string, string>) {
    dup.Keys == byName.Keys
    && forall c :: c in dup ==> byName[c] < |fields| && dup[c] == fields[byName[c]].path
  }

  lemma IndexedAppend(fields: seq<Field>, byName: map<string, nat>, dup: map<string, string>, f: Field)
    requires Indexed(fields, byName) && Named(fields, byName, dup) && f.column !in byName
    ensures Indexed(fields + [f], byName[f.column := |fields|])
    ensures Named(fields + [f], byName[f.column := |fields|], dup[f.column := f.path])
  {
  }

  lemma ClaimedIsIndexed(fields: seq<Field>, byName: map<string, nat>, column: string)
    requires Indexed(fields, byName)
    ensures ClaimedBy(fields, column) == if column in byName then byName[column] else |fields|
  {
    var k := ClaimedBy(fields, column);
    if k < |fields| {
      assert byName[fields[k].column] == k;
    } else {
      assert forall c :: c in byName ==> fields[byName[c]].column == c;
    }
  }

  function PrimaryKeys(fields: seq<Field>): seq<nat> {
    if fields == [] then []
    else
      var m := |fields| - 1;
      PrimaryKeys(fields[..m]) + (if fields[m].pk then [m] else [])
  }

  // A type maps exactly when no column is claimed twice; then the mapping is
  // what the walk enumerates, otherwise it is empty.
  method BuildStruct(g: Graph, nm: string -> string, t: nat) returns (si: StructInfo)
    requires Closed(g) && t in g
    ensures fresh(si)
    ensures si.err == FirstClash(WalkRoot(g, nm, t).fields)
    ensures si.err.None? ==>
              si.Valid() && si.fields == WalkRoot(g, nm, t).fields && si.groups == WalkRoot(g, nm, t).groups
    ensures si.err.Some? ==> si.fields == [] && si.byName == map[] && si.groups == [] && si.pks == []
  {
    si := new StructInfo(t);
    ghost var w := WalkRoot(g, nm, t);
    assert [] + w.fields == w.fields && [] + w.groups == w.groups;
    si.WalkType(g, nm, t, ROOT);
    if si.err.Some? {
      si.fields, si.byName, si.groups, si.pks := [], map[], [], [];
    }
  }
}
