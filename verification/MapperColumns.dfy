// What each mapped field is called and carries, read off the declarations on its
// path, and which paths are mapped at all.

module MapperColumns {
  import opened Wrappers
  import opened Mapper
  import opened MapperStructure
  import opened RowValues
  import RowReader

  // The declarations on a path, outermost first, the leaf's last.
  function DeclsOn(g: Graph, t: nat, path: seq<nat>): (ds: seq<Decl>)
    requires Closed(g) && t in g && path != [] && LeafPath(g, Struct(t), path)
    ensures |ds| == |path|
    decreases |path|
  {
    var d := g[t][path[0]];
    if |path| == 1 then [d]
    else
      assert LeafPath(g, d.ftype, path[1..]) && !d.ftype.Leaf?;
      RowReader.LeafPathThrough(g, d.ftype, path[1..]);
      [d] + DeclsOn(g, d.ftype.t, path[1..])
  }

  // The struct types a path goes through, the outermost first.
  function TypesOn(g: Graph, t: nat, path: seq<nat>): (ts: seq<nat>)
    requires Closed(g) && t in g && path != [] && LeafPath(g, Struct(t), path)
    ensures |ts| == |path| && ts[0] == t
    decreases |path|
  {
    var d := g[t][path[0]];
    if |path| == 1 then [t]
    else
      assert LeafPath(g, d.ftype, path[1..]) && !d.ftype.Leaf?;
      RowReader.LeafPathThrough(g, d.ftype, path[1..]);
      [t] + TypesOn(g, d.ftype.t, path[1..])
  }

  // ----- which paths are mapped

  // No field on the way is excluded by its tag; those that enclose the leaf are
  // exported or embedded, the leaf itself is exported.
  predicate Open(ds: seq<Decl>)
    requires ds != []
  {
    && (forall k :: 0 <= k < |ds| ==> !ds[k].tag.skip)
    && (forall k :: 0 <= k < |ds| - 1 ==> ds[k].exported || ds[k].anonymous)
    && ds[|ds| - 1].exported
  }

  predicate NoRepeat(ts: seq<nat>) {
    forall i, j :: 0 <= i < j < |ts| ==> ts[i] != ts[j]
  }

  predicate Apart(ts: seq<nat>, seen: set<nat>) {
    forall k :: 0 < k < |ts| ==> ts[k] !in seen
  }

  lemma {:induction false} MappedFrom(g: Graph, t: nat, seen: set<nat>, path: seq<nat>)
    requires Closed(g) && t in g && t in seen && path != [] && LeafPath(g, Struct(t), path)
    ensures var ts := TypesOn(g, t, path);
            Mapped(g, t, seen, path) <==> Open(DeclsOn(g, t, path)) && Apart(ts, seen) && NoRepeat(ts)
    decreases |path|
  {
    var d := g[t][path[0]];
    if |path| > 1 {
      RowReader.LeafPathThrough(g, d.ftype, path[1..]);
      var ts, ds := TypesOn(g, d.ftype.t, path[1..]), DeclsOn(g, d.ftype.t, path[1..]);
      MappedFrom(g, d.ftype.t, seen + {d.ftype.t}, path[1..]);
      OpenFront(d, ds);
      ApartFront(t, ts, seen);
      assert DeclsOn(g, t, path) == [d] + ds && TypesOn(g, t, path) == [t] + ts;
      assert ts[0] == d.ftype.t;
    } else {
      assert d.ftype.Leaf?;
    }
  }

  lemma OpenFront(d: Decl, ds: seq<Decl>)
    requires ds != []
    ensures Open([d] + ds) <==> !d.tag.skip && (d.exported || d.anonymous) && Open(ds)
  {
    var all := [d] + ds;
    assert all[|all| - 1] == ds[|ds| - 1];
    forall k | 0 <= k < |ds|
      ensures ds[k] == all[k + 1]
    {
    }
    if Open(all) {
      forall k | 0 <= k < |ds|
        ensures !ds[k].tag.skip && (k < |ds| - 1 ==> ds[k].exported || ds[k].anonymous)
      {
        assert !all[k + 1].tag.skip;
      }
      assert !all[0].tag.skip && (all[0].exported || all[0].anonymous);
    } else if !d.tag.skip && (d.exported || d.anonymous) && Open(ds) {
      forall k | 0 <= k < |all|
        ensures !all[k].tag.skip && (k < |all| - 1 ==> all[k].exported || all[k].anonymous)
      {
        assert all[k] == if k == 0 then d else ds[k - 1];
      }
    }
  }

  lemma ApartFront(t: nat, ts: seq<nat>, seen: set<nat>)
    requires ts != [] && t in seen
    ensures Apart([t] + ts, seen) && NoRepeat([t] + ts) <==>
            ts[0] !in seen && Apart(ts, seen + {ts[0]}) && NoRepeat(ts)
  {
    var all := [t] + ts;
    assert forall k :: 0 <= k < |ts| ==> ts[k] == all[k + 1];
  }

  // The mapped paths of a type: those that lead to a leaf, are open all the way,
  // and go through no struct type twice.
  lemma MappedExactly(g: Graph, t: nat, path: seq<nat>)
    requires Closed(g) && t in g
    ensures Mapped(g, t, {t}, path) <==>
            path != [] && LeafPath(g, Struct(t), path) && Open(DeclsOn(g, t, path)) && NoRepeat(TypesOn(g, t, path))
  {
    if Mapped(g, t, {t}, path) {
      RowReader.MappedIsLeafPath(g, t, {t}, path);
    }
    if path != [] && LeafPath(g, Struct(t), path) {
      MappedFrom(g, t, {t}, path);
      var ts := TypesOn(g, t, path);
      assert NoRepeat(ts) ==> Apart(ts, {t}) by {
        if NoRepeat(ts) {
          assert forall k :: 0 < k < |ts| ==> ts[0] != ts[k];
        }
      }
    }
  }

  // ----- what a field is called

  // What the declarations on a path spell: for each struct the leaf lies in, the
  // prefix its tag gives; nothing for an embedded struct without a tag; its name
  // and an underscore otherwise; then the leaf's name. A name is the tag's, or
  // the mapped Go name where the tag has none.
  function Spelled(nm: string -> string, ds: seq<Decl>): string
    requires ds != []
  {
    var d := ds[0];
    var name := if d.tag.name != "" then d.tag.name else nm(d.name);
    if |ds| == 1 then name
    else
      (if d.tag.hasPrefix then d.tag.prefix else if d.anonymous && !d.tag.tagged then "" else name + "_")
      + Spelled(nm, ds[1..])
  }

  lemma {:induction false} ColumnIsSpelled(g: Graph, nm: string -> string, t: nat, seen: set<nat>, prefix: string,
                                           path: seq<nat>)
    requires Closed(g) && t in g && Mapped(g, t, seen, path) && LeafPath(g, Struct(t), path)
    ensures ColumnOf(g, nm, t, seen, prefix, path) == prefix + Spelled(nm, DeclsOn(g, t, path))
    decreases |path|
  {
    var d := g[t][path[0]];
    if |path| > 1 {
      RowReader.LeafPathThrough(g, d.ftype, path[1..]);
      ColumnIsSpelled(g, nm, d.ftype.t, seen + {d.ftype.t}, SubPrefix(nm, d, prefix), path[1..]);
      var ds := DeclsOn(g, t, path);
      assert ds[1..] == DeclsOn(g, d.ftype.t, path[1..]);
    }
  }

  // The Go path of a field, below the path of the struct it is in.
  function GoPath(path: string, ds: seq<Decl>): string
    decreases |ds|
  {
    if ds == [] then path
    else GoPath(if path == "" then ds[0].name else path + "." + ds[0].name, ds[1..])
  }

  // What a field below `at` carries of the declarations on its path.
  ghost predicate Carries(g: Graph, t: nat, at: Place, f: Field)
    requires Closed(g) && t in g
  {
    && at.index <= f.index && |at.index| < |f.index|
    && var rel := f.index[|at.index|..];
       && LeafPath(g, Struct(t), rel)
       && var ds := DeclsOn(g, t, rel);
          && f.pk == ds[|ds| - 1].tag.pk && f.readonly == ds[|ds| - 1].tag.readonly
          && f.path == GoPath(at.path, ds)
  }

  lemma {:induction false} WalkCarries(g: Graph, nm: string -> string, t: nat, i: nat, at: Place, seen: set<nat>,
                                       ng: nat, f: Field)
    requires Closed(g) && t in g && i <= |g[t]| && f in Walk(g, nm, t, i, at, seen, ng).fields
    ensures Carries(g, t, at, f)
    decreases g.Keys - seen, 1, |g[t]| - i
  {
    if i < |g[t]| {
      var v := Visit(g, nm, t, i, at, seen, ng);
      if f in v.fields {
        VisitCarries(g, nm, t, i, at, seen, ng, f);
      } else {
        WalkCarries(g, nm, t, i + 1, at, seen, ng + |v.groups|, f);
      }
    }
  }

  lemma {:induction false} VisitCarries(g: Graph, nm: string -> string, t: nat, i: nat, at: Place, seen: set<nat>,
                                        ng: nat, f: Field)
    requires Closed(g) && t in g && i < |g[t]| && f in Visit(g, nm, t, i, at, seen, ng).fields
    ensures Carries(g, t, at, f)
    decreases g.Keys - seen, 0, 0
  {
    hide Walk;
    var d := g[t][i];
    if d.ftype.Leaf? {
      LeafCarries(g, nm, t, i, at);
    } else {
      assert d.ftype.t in g.Keys - seen;
      var inside := Inside(nm, d, i, at, ng);
      WalkCarries(g, nm, d.ftype.t, 0, inside, seen + {d.ftype.t}, ng + |Entered(d, i, at)|, f);
      CarriesOut(g, nm, t, i, at, ng, f);
    }
  }

  lemma LeafCarries(g: Graph, nm: string -> string, t: nat, i: nat, at: Place)
    requires Closed(g) && t in g && i < |g[t]| && g[t][i].ftype.Leaf?
    ensures Carries(g, t, at, LeafField(nm, g[t][i], i, at))
  {
    var d, f := g[t][i], LeafField(nm, g[t][i], i, at);
    assert f.index[|at.index|..] == [i] && [i][1..] == [];
    assert DeclsOn(g, t, [i]) == [d] && [d][1..] == [];
    assert GoPath(SubPath(d, at.path), []) == SubPath(d, at.path);
  }

  lemma CarriesOut(g: Graph, nm: string -> string, t: nat, i: nat, at: Place, ng: nat, f: Field)
    requires Closed(g) && t in g && i < |g[t]| && !g[t][i].ftype.Leaf?
    requires Carries(g, g[t][i].ftype.t, Inside(nm, g[t][i], i, at, ng), f)
    ensures Carries(g, t, at, f)
  {
    var d := g[t][i];
    var inside := Inside(nm, d, i, at, ng);
    var rel, sub := f.index[|at.index|..], f.index[|inside.index|..];
    assert f.index[|at.index|] == inside.index[|at.index|] == i;
    assert rel[0] == i && rel[1..] == sub;
    RowReader.LeafPathThrough(g, d.ftype, sub);
    var ds := DeclsOn(g, t, rel);
    assert ds[0] == d && ds[1..] == DeclsOn(g, d.ftype.t, sub);
  }

  // p comes before q in declaration order.
  ghost predicate Before(p: seq<nat>, q: seq<nat>) {
    exists k :: BeforeAt(p, q, k)
  }

  predicate BeforeAt(p: seq<nat>, q: seq<nat>, k: nat) {
    k < |p| && k < |q| && p[..k] == q[..k] && p[k] < q[k]
  }

  ghost predicate InOrder(fields: seq<Field>) {
    forall a, b :: 0 <= a < b < |fields| ==> Before(fields[a].index, fields[b].index)
  }

  lemma {:induction false} WalkInOrder(g: Graph, nm: string -> string, t: nat, i: nat, at: Place, seen: set<nat>,
                                       ng: nat)
    requires Closed(g) && t in g && i <= |g[t]|
    ensures InOrder(Walk(g, nm, t, i, at, seen, ng).fields)
    decreases g.Keys - seen, |g[t]| - i
  {
    if i < |g[t]| {
      var d := g[t][i];
      var v := Visit(g, nm, t, i, at, seen, ng);
      var rest := Walk(g, nm, t, i + 1, at, seen, ng + |v.groups|);
      WalkInOrder(g, nm, t, i + 1, at, seen, ng + |v.groups|);
      if !Skipped(d) && !d.ftype.Leaf? && d.ftype.t !in seen {
        assert d.ftype.t in g.Keys - seen;
        WalkInOrder(g, nm, d.ftype.t, 0, Inside(nm, d, i, at, ng), seen + {d.ftype.t}, ng + |Entered(d, i, at)|);
      }
      hide Walk, Visit, Before;
      forall f, f' | f in v.fields && f' in rest.fields
        ensures Before(f.index, f'.index)
      {
        VisitThenRest(g, nm, t, i, at, seen, ng, f, f');
      }
      OrderAppend(v.fields, rest.fields);
    }
  }

  lemma VisitThenRest(g: Graph, nm: string -> string, t: nat, i: nat, at: Place, seen: set<nat>, ng: nat,
                      f: Field, f': Field)
    requires Closed(g) && t in g && i < |g[t]| && f in Visit(g, nm, t, i, at, seen, ng).fields
    requires f' in Walk(g, nm, t, i + 1, at, seen, ng + |Visit(g, nm, t, i, at, seen, ng).groups|).fields
    ensures Before(f.index, f'.index)
  {
    hide Walk, Visit;
    VisitSound(g, nm, t, i, at, seen, ng, f);
    WalkSound(g, nm, t, i + 1, at, seen, ng + |Visit(g, nm, t, i, at, seen, ng).groups|, f');
    assert f'.index[|at.index|..][0] == f'.index[|at.index|];
    assert BeforeAt(f.index, f'.index, |at.index|);
  }

  lemma OrderAppend(a: seq<Field>, b: seq<Field>)
    requires InOrder(a) && InOrder(b)
    requires forall f, f' :: f in a && f' in b ==> Before(f.index, f'.index)
    ensures InOrder(a + b)
  {
    hide Before;
    var c := a + b;
    forall i, j | 0 <= i < j < |c|
      ensures Before(c[i].index, c[j].index)
    {
      if j < |a| {
        assert c[i] == a[i] && c[j] == a[j];
      } else if i >= |a| {
        assert c[i] == b[i - |a|] && c[j] == b[j - |a|];
      } else {
        assert c[i] == a[i] && c[j] == b[j - |a|];
      }
    }
  }

  // Every field of a mapping: its column is what the declarations on its path
  // spell, it has its leaf's options and its Go path, and fields come in
  // declaration order.
  lemma FieldsExactly(g: Graph, nm: string -> string, t: nat, f: Field)
    requires Closed(g) && t in g && f in WalkRoot(g, nm, t).fields
    ensures f.index != [] && LeafPath(g, Struct(t), f.index)
    ensures var ds := DeclsOn(g, t, f.index);
            && f.column == Spelled(nm, ds)
            && f.pk == ds[|ds| - 1].tag.pk && f.readonly == ds[|ds| - 1].tag.readonly
            && f.path == GoPath("", ds)
    ensures Open(DeclsOn(g, t, f.index)) && NoRepeat(TypesOn(g, t, f.index))
    ensures InOrder(WalkRoot(g, nm, t).fields)
  {
    hide Walk, Mapped, ColumnOf, LeafPath, DeclsOn, TypesOn, InOrder;
    MappingIsExact(g, nm, t);
    MappedExactly(g, t, f.index);
    ColumnIsSpelled(g, nm, t, {t}, "", f.index);
    WalkCarries(g, nm, t, 0, ROOT, {t}, 0, f);
    assert f.index[0..] == f.index;
    WalkInOrder(g, nm, t, 0, ROOT, {t}, 0);
  }

  // ----- clashes and keys

  // A clash names the first field whose column an earlier one has, and that one.
  lemma {:induction false} ClashReports(fields: seq<Field>)
    requires FirstClash(fields).Some?
    ensures var c := FirstClash(fields).value;
            exists i, j :: 0 <= i < j < |fields| && fields[i].column == fields[j].column == c.column
              && c.first == fields[i].path && c.second == fields[j].path
              && (forall a, b :: 0 <= a < b < j ==> fields[a].column != fields[b].column)
  {
    var m := |fields| - 1;
    var front := fields[..m];
    if FirstClash(front).Some? {
      ClashReports(front);
      var c := FirstClash(front).value;
      var i, j :| 0 <= i < j < |front| && front[i].column == front[j].column == c.column
        && c.first == front[i].path && c.second == front[j].path
        && (forall a, b :: 0 <= a < b < j ==> front[a].column != front[b].column);
      assert fields[i].column == fields[j].column == c.column;
      forall a, b | 0 <= a < b < j
        ensures fields[a].column != fields[b].column
      {
        assert front[a].column != front[b].column;
      }
    } else {
      NoClashExactly(front);
      var k := ClaimedBy(front, fields[m].column);
      assert fields[k].column == fields[m].column;
      forall a, b | 0 <= a < b < m
        ensures fields[a].column != fields[b].column
      {
        assert front[a].column != front[b].column;
      }
    }
  }

  // The primary keys are the fields tagged so, in order.
  lemma {:induction false} KeysExactly(fields: seq<Field>)
    ensures var pks := PrimaryKeys(fields);
            && (forall k: nat :: k in pks <==> k < |fields| && fields[k].pk)
            && forall i, j :: 0 <= i < j < |pks| ==> pks[i] < pks[j]
  {
    if fields != [] {
      var m := |fields| - 1;
      KeysExactly(fields[..m]);
      var front, pks := PrimaryKeys(fields[..m]), PrimaryKeys(fields);
      forall k: nat
        ensures k in pks <==> k < |fields| && fields[k].pk
      {
        assert k < m ==> fields[..m][k] == fields[k];
      }
      forall i, j | 0 <= i < j < |pks|
        ensures pks[i] < pks[j]
      {
        if j == |front| {
          assert front[i] in front;
        }
      }
    }
  }

  // ----- an example

  const UNTAGGED: Tag := Tag(false, "", false, false, false, false, "")

  // type User struct { Address Address }; type Address struct { City string }
  const USERS: Graph := map[
    0 := [Decl("Address", true, false, UNTAGGED, Struct(1))],
    1 := [Decl("City", true, false, UNTAGGED, Leaf(false))]]

  lemma AddressCity(nm: string -> string, f: Field)
    requires nm("Address") == "address" && nm("City") == "city"
    requires Closed(USERS) && f in WalkRoot(USERS, nm, 0).fields
    ensures f.column == "address_city"
  {
    hide Walk;
    FieldsExactly(USERS, nm, 0, f);
    TwoLevels(f.index);
    var ds := [USERS[0][0], USERS[1][0]];
    assert ds[1..] == [USERS[1][0]];
    assert Spelled(nm, ds[1..]) == "city";
    assert "address" + "_" + "city" == "address_city";
  }

  lemma TwoLevels(path: seq<nat>)
    requires Closed(USERS) && path != [] && LeafPath(USERS, Struct(0), path)
    ensures DeclsOn(USERS, 0, path) == [USERS[0][0], USERS[1][0]]
  {
    var tail := path[1..];
    assert path[0] == 0 && LeafPath(USERS, Struct(1), tail);
    assert tail != [] && tail[0] == 0 && LeafPath(USERS, Leaf(false), tail[1..]);
    assert tail[1..] == [];
    assert DeclsOn(USERS, 1, tail) == [USERS[1][0]];
  }
}
