// What the walk enumerates: exactly the reachable leaf paths, each once, and for
// each of them the chain of pointer structs it lies in.

module MapperStructure {
  import opened Mapper

  // ----- the leaf paths of a type, defined without the walk

  // The path goes through fields that are not skipped, never enters a type it
  // is already inside, and ends at a leaf.
  predicate Mapped(g: Graph, t: nat, seen: set<nat>, path: seq<nat>)
    requires Closed(g) && t in g
    decreases |path|
  {
    && path != [] && path[0] < |g[t]|
    && var d := g[t][path[0]];
       && !Skipped(d)
       && (if |path| == 1 then d.ftype.Leaf?
           else !d.ftype.Leaf? && d.ftype.t !in seen && Mapped(g, d.ftype.t, seen + {d.ftype.t}, path[1..]))
  }

  function ColumnOf(g: Graph, nm: string -> string, t: nat, seen: set<nat>, prefix: string, path: seq<nat>): string
    requires Closed(g) && t in g && Mapped(g, t, seen, path)
    decreases |path|
  {
    var d := g[t][path[0]];
    if |path| == 1 then prefix + NameOf(nm, d)
    else ColumnOf(g, nm, d.ftype.t, seen + {d.ftype.t}, SubPrefix(nm, d, prefix), path[1..])
  }

  // The path ends at a struct reached through a pointer.
  predicate PointerPath(g: Graph, t: nat, path: seq<nat>)
    requires Closed(g) && t in g
    decreases |path|
  {
    && path != [] && path[0] < |g[t]|
    && var ft := g[t][path[0]].ftype;
       if |path| == 1 then ft.Pointer? else !ft.Leaf? && PointerPath(g, ft.t, path[1..])
  }

  lemma {:induction false} PrefixFree(g: Graph, t: nat, seen: set<nat>, p: seq<nat>, q: seq<nat>)
    requires Closed(g) && t in g
    requires Mapped(g, t, seen, p) && Mapped(g, t, seen, q) && p <= q
    ensures p == q
    decreases |p|
  {
    if |p| > 1 {
      var d := g[t][p[0]];
      assert p[1..] <= q[1..];
      PrefixFree(g, d.ftype.t, seen + {d.ftype.t}, p[1..], q[1..]);
      assert p == [p[0]] + p[1..] && q == [q[0]] + q[1..];
    } else {
      assert p[0] == q[0];
      assert |q| == 1;
    }
  }

  // ----- the walk enumerates them

  // f was found below `at`, at a path from its i-th field on.
  predicate FoundAt(g: Graph, nm: string -> string, t: nat, i: nat, at: Place, seen: set<nat>, f: Field)
    requires Closed(g) && t in g
  {
    && at.index <= f.index
    && var rel := f.index[|at.index|..];
       Mapped(g, t, seen, rel) && i <= rel[0] && f.column == ColumnOf(g, nm, t, seen, at.prefix, rel)
  }

  lemma {:induction false} VisitSound(g: Graph, nm: string -> string, t: nat, i: nat, at: Place, seen: set<nat>,
                                      ng: nat, f: Field)
    requires Closed(g) && t in g && i < |g[t]| && f in Visit(g, nm, t, i, at, seen, ng).fields
    ensures FoundAt(g, nm, t, i, at, seen, f) && f.index[|at.index|] == i
    decreases g.Keys - seen, 0, 0
  {
    var d := g[t][i];
    if d.ftype.Leaf? {
      assert f.index[|at.index|..] == [i];
    } else {
      assert d.ftype.t in g.Keys - seen;
      var inside := Inside(nm, d, i, at, ng);
      var seen' := seen + {d.ftype.t};
      WalkSound(g, nm, d.ftype.t, 0, inside, seen', ng + |Entered(d, i, at)|, f);
      var rel, sub := f.index[|at.index|..], f.index[|inside.index|..];
      assert inside.index <= f.index && |inside.index| == |at.index| + 1;
      assert f.index[|at.index|] == inside.index[|at.index|] == i;
      assert rel[0] == i && rel[1..] == sub;
    }
  }

  lemma {:induction false} WalkSound(g: Graph, nm: string -> string, t: nat, i: nat, at: Place, seen: set<nat>,
                                     ng: nat, f: Field)
    requires Closed(g) && t in g && i <= |g[t]| && f in Walk(g, nm, t, i, at, seen, ng).fields
    ensures FoundAt(g, nm, t, i, at, seen, f)
    decreases g.Keys - seen, 1, |g[t]| - i
  {
    if i < |g[t]| {
      var v := Visit(g, nm, t, i, at, seen, ng);
      if f in v.fields {
        VisitSound(g, nm, t, i, at, seen, ng, f);
      } else {
        WalkSound(g, nm, t, i + 1, at, seen, ng + |v.groups|, f);
      }
    }
  }

  lemma {:induction false} WalkComplete(g: Graph, nm: string -> string, t: nat, i: nat, at: Place, seen: set<nat>,
                                        ng: nat, path: seq<nat>)
    requires Closed(g) && t in g && i <= |g[t]|
    requires Mapped(g, t, seen, path) && i <= path[0]
    ensures exists f :: f in Walk(g, nm, t, i, at, seen, ng).fields && f.index == at.index + path
    decreases g.Keys - seen, |g[t]| - i
  {
    var v := Visit(g, nm, t, i, at, seen, ng);
    var d := g[t][i];
    if i < path[0] {
      WalkComplete(g, nm, t, i + 1, at, seen, ng + |v.groups|, path);
    } else if |path| == 1 {
      assert path == [i];
      assert LeafField(nm, d, i, at) in v.fields;
    } else {
      assert d.ftype.t in g.Keys - seen;
      var inside := Inside(nm, d, i, at, ng);
      WalkComplete(g, nm, d.ftype.t, 0, inside, seen + {d.ftype.t}, ng + |Entered(d, i, at)|, path[1..]);
      assert at.index + path == inside.index + path[1..];
    }
  }

  // No two fields have the same path.
  predicate Distinct(fields: seq<Field>) {
    forall a, b :: 0 <= a < b < |fields| ==> fields[a].index != fields[b].index
  }

  lemma {:induction false} WalkDistinct(g: Graph, nm: string -> string, t: nat, i: nat, at: Place, seen: set<nat>,
                                        ng: nat)
    requires Closed(g) && t in g && i <= |g[t]|
    ensures Distinct(Walk(g, nm, t, i, at, seen, ng).fields)
    decreases g.Keys - seen, |g[t]| - i
  {
    if i < |g[t]| {
      var d := g[t][i];
      var v := Visit(g, nm, t, i, at, seen, ng);
      var rest := Walk(g, nm, t, i + 1, at, seen, ng + |v.groups|);
      WalkDistinct(g, nm, t, i + 1, at, seen, ng + |v.groups|);
      if !Skipped(d) && !d.ftype.Leaf? && d.ftype.t !in seen {
        assert d.ftype.t in g.Keys - seen;
        WalkDistinct(g, nm, d.ftype.t, 0, Inside(nm, d, i, at, ng), seen + {d.ftype.t}, ng + |Entered(d, i, at)|);
      }
      forall f, f' | f in v.fields && f' in rest.fields
        ensures f.index != f'.index
      {
        VisitSound(g, nm, t, i, at, seen, ng, f);
        WalkSound(g, nm, t, i + 1, at, seen, ng + |v.groups|, f');
        assert f'.index[|at.index|..][0] == f'.index[|at.index|];
      }
      DistinctAppend(v.fields, rest.fields);
    }
  }

  lemma DistinctAppend(a: seq<Field>, b: seq<Field>)
    requires Distinct(a) && Distinct(b)
    requires forall f, f' :: f in a && f' in b ==> f.index != f'.index
    ensures Distinct(a + b)
  {
    var c := a + b;
    forall i, j | 0 <= i < j < |c|
      ensures c[i].index != c[j].index
    {
      if j < |a| {
        assert c[i] == a[i] && c[j] == a[j];
      } else if i >= |a| {
        assert c[i] == b[i - |a|] && c[j] == b[j - |a|];
      } else {
        assert c[i] == a[i] && c[j] == b[j - |a|];
      }
    }
  }

  // The fields of a type are its leaf paths, each once, with the columns their
  // paths spell; no path is a prefix of another.
  lemma MappingIsExact(g: Graph, nm: string -> string, t: nat)
    requires Closed(g) && t in g
    ensures var fields := WalkRoot(g, nm, t).fields;
            && Distinct(fields)
            && (forall path :: Mapped(g, t, {t}, path) <==> exists f :: f in fields && f.index == path)
            && (forall f :: f in fields ==>
                Mapped(g, t, {t}, f.index) && f.column == ColumnOf(g, nm, t, {t}, "", f.index))
            && (forall f, f' :: f in fields && f' in fields && f.index <= f'.index ==> f.index == f'.index)
  {
    var fields := WalkRoot(g, nm, t).fields;
    WalkDistinct(g, nm, t, 0, ROOT, {t}, 0);
    forall f | f in fields
      ensures Mapped(g, t, {t}, f.index) && f.column == ColumnOf(g, nm, t, {t}, "", f.index)
    {
      WalkSound(g, nm, t, 0, ROOT, {t}, 0, f);
      assert f.index[0..] == f.index;
    }
    forall path | Mapped(g, t, {t}, path)
      ensures exists f :: f in fields && f.index == path
    {
      WalkComplete(g, nm, t, 0, ROOT, {t}, 0, path);
      assert [] + path == path;
    }
    forall f, f' | f in fields && f' in fields && f.index <= f'.index
      ensures f.index == f'.index
    {
      PrefixFree(g, t, {t}, f.index, f'.index);
    }
  }

  // Two leaf paths that claim one column.
  ghost predicate Contested(g: Graph, nm: string -> string, t: nat, p: seq<nat>, q: seq<nat>)
    requires Closed(g) && t in g
  {
    && p != q && Mapped(g, t, {t}, p) && Mapped(g, t, {t}, q)
    && ColumnOf(g, nm, t, {t}, "", p) == ColumnOf(g, nm, t, {t}, "", q)
  }

  // The mapping fails exactly when two leaf paths claim one column.
  lemma ClashExactly(g: Graph, nm: string -> string, t: nat)
    requires Closed(g) && t in g
    ensures FirstClash(WalkRoot(g, nm, t).fields).Some? <==> exists p, q :: Contested(g, nm, t, p, q)
  {
    hide WalkRoot, FirstClash, Mapped, ColumnOf, Contested;
    var fields := WalkRoot(g, nm, t).fields;
    NoClashExactly(fields);
    if FirstClash(fields).Some? {
      var i, j :| 0 <= i < j < |fields| && fields[i].column == fields[j].column;
      SameColumn(g, nm, t, i, j);
    } else {
      forall p, q
        ensures !Contested(g, nm, t, p, q)
      {
        if Contested(g, nm, t, p, q) {
          ContestedFields(g, nm, t, p, q);
        }
      }
    }
  }

  lemma SameColumn(g: Graph, nm: string -> string, t: nat, i: nat, j: nat)
    requires Closed(g) && t in g
    requires var fields := WalkRoot(g, nm, t).fields; i < j < |fields| && fields[i].column == fields[j].column
    ensures var fields := WalkRoot(g, nm, t).fields; Contested(g, nm, t, fields[i].index, fields[j].index)
  {
    hide WalkRoot, Mapped, ColumnOf;
    MappingIsExact(g, nm, t);
    var fields := WalkRoot(g, nm, t).fields;
    assert fields[i] in fields && fields[j] in fields;
  }

  lemma ContestedFields(g: Graph, nm: string -> string, t: nat, p: seq<nat>, q: seq<nat>)
    requires Closed(g) && t in g && Contested(g, nm, t, p, q)
    ensures var fields := WalkRoot(g, nm, t).fields;
            exists i, j :: 0 <= i < j < |fields| && fields[i].column == fields[j].column
  {
    hide WalkRoot, Mapped, ColumnOf;
    MappingIsExact(g, nm, t);
    var fields := WalkRoot(g, nm, t).fields;
    var f :| f in fields && f.index == p;
    var f' :| f' in fields && f'.index == q;
    var i :| 0 <= i < |fields| && fields[i] == f;
    var j :| 0 <= j < |fields| && fields[j] == f';
    var lo, hi := if i < j then i else j, if i < j then j else i;
    assert 0 <= lo < hi < |fields| && fields[lo].column == fields[hi].column;
  }

  // ----- groups

  predicate ParentsBelow(groups: seq<Group>) {
    forall k :: 0 <= k < |groups| ==> -1 <= groups[k].parent < k
  }

  // groups holds w from position ng on.
  predicate Segment(groups: seq<Group>, ng: nat, w: seq<Group>) {
    ng + |w| <= |groups| && groups[ng..ng + |w|] == w
  }

  lemma SegmentSplit(groups: seq<Group>, ng: nat, a: seq<Group>, b: seq<Group>)
    requires Segment(groups, ng, a + b)
    ensures Segment(groups, ng, a) && Segment(groups, ng + |a|, b)
  {
    assert groups[ng..ng + |a|] == (a + b)[..|a|];
    assert groups[ng + |a|..ng + |a| + |b|] == (a + b)[|a|..];
  }

  // Whether following parent links from group h passes through group k.
  predicate InChain(groups: seq<Group>, h: int, k: int)
    requires ParentsBelow(groups) && h < |groups|
    decreases if h < 0 then 0 else h + 1
  {
    h >= 0 && (h == k || InChain(groups, groups[h].parent, k))
  }

  lemma {:induction false} ChainDescends(groups: seq<Group>, h: int, k: int)
    requires ParentsBelow(groups) && h < |groups| && InChain(groups, h, k)
    ensures k <= h
    decreases if h < 0 then 0 else h + 1
  {
    if h != k {
      ChainDescends(groups, groups[h].parent, k);
    }
  }

  // Each group's parent is before it, counting ng groups before w.
  predicate ParentsFrom(w: seq<Group>, ng: nat) {
    forall j :: 0 <= j < |w| ==> -1 <= w[j].parent < ng + j
  }

  // The parent of each new group is the enclosing group or an earlier new one.
  lemma {:induction false} WalkParents(g: Graph, nm: string -> string, t: nat, i: nat, at: Place, seen: set<nat>,
                                       ng: nat)
    requires Closed(g) && t in g && i <= |g[t]| && -1 <= at.group < ng
    ensures ParentsFrom(Walk(g, nm, t, i, at, seen, ng).groups, ng)
    decreases g.Keys - seen, 1, |g[t]| - i
  {
    if i < |g[t]| {
      var v := Visit(g, nm, t, i, at, seen, ng);
      VisitParents(g, nm, t, i, at, seen, ng);
      WalkParents(g, nm, t, i + 1, at, seen, ng + |v.groups|);
      ParentsAppend(v.groups, Walk(g, nm, t, i + 1, at, seen, ng + |v.groups|).groups, ng);
    }
  }

  lemma {:induction false} VisitParents(g: Graph, nm: string -> string, t: nat, i: nat, at: Place, seen: set<nat>,
                                        ng: nat)
    requires Closed(g) && t in g && i < |g[t]| && -1 <= at.group < ng
    ensures ParentsFrom(Visit(g, nm, t, i, at, seen, ng).groups, ng)
    decreases g.Keys - seen, 0, 0
  {
    var d := g[t][i];
    if !Skipped(d) && !d.ftype.Leaf? && d.ftype.t !in seen {
      hide Walk;
      assert d.ftype.t in g.Keys - seen;
      var own, inside, seen' := Entered(d, i, at), Inside(nm, d, i, at, ng), seen + {d.ftype.t};
      WalkParents(g, nm, d.ftype.t, 0, inside, seen', ng + |own|);
      ParentsAppend(own, Walk(g, nm, d.ftype.t, 0, inside, seen', ng + |own|).groups, ng);
    }
  }

  lemma ParentsAppend(a: seq<Group>, b: seq<Group>, ng: nat)
    requires ParentsFrom(a, ng) && ParentsFrom(b, ng + |a|)
    ensures ParentsFrom(a + b, ng)
  {
    forall j | 0 <= j < |a + b|
      ensures -1 <= (a + b)[j].parent < ng + j
    {
      if j >= |a| {
        assert (a + b)[j] == b[j - |a|];
      }
    }
  }

  // Each new group lies below `at`, from its i-th field on, and is a pointer.
  lemma {:induction false} WalkGroups(g: Graph, nm: string -> string, t: nat, i: nat, at: Place, seen: set<nat>,
                                      ng: nat, h: Group)
    requires Closed(g) && t in g && i <= |g[t]| && h in Walk(g, nm, t, i, at, seen, ng).groups
    ensures at.index <= h.index && |at.index| < |h.index| && i <= h.index[|at.index|]
    ensures PointerPath(g, t, h.index[|at.index|..])
    decreases g.Keys - seen, |g[t]| - i
  {
    if i < |g[t]| {
      var d := g[t][i];
      var v := Visit(g, nm, t, i, at, seen, ng);
      if h in v.groups {
        VisitGroups(g, nm, t, i, at, seen, ng, h);
        if !(h in Entered(d, i, at)) {
          assert d.ftype.t in g.Keys - seen;
          var inside := Inside(nm, d, i, at, ng);
          WalkGroups(g, nm, d.ftype.t, 0, inside, seen + {d.ftype.t}, ng + |Entered(d, i, at)|, h);
          assert h.index[|at.index|] == inside.index[|at.index|] == i;
          assert h.index[|at.index|..][1..] == h.index[|inside.index|..];
        }
      } else {
        WalkGroups(g, nm, t, i + 1, at, seen, ng + |v.groups|, h);
      }
    }
  }

  lemma VisitGroups(g: Graph, nm: string -> string, t: nat, i: nat, at: Place, seen: set<nat>, ng: nat, h: Group)
    requires Closed(g) && t in g && i < |g[t]| && h in Visit(g, nm, t, i, at, seen, ng).groups
    ensures var d := g[t][i];
            && !Skipped(d) && !d.ftype.Leaf? && d.ftype.t !in seen
            && (h in Entered(d, i, at) ==>
                h.index == at.index + [i] && h.index[|at.index|..] == [i] && d.ftype.Pointer?)
            && (h !in Entered(d, i, at) ==>
                  h in Walk(g, nm, d.ftype.t, 0, Inside(nm, d, i, at, ng), seen + {d.ftype.t},
                            ng + |Entered(d, i, at)|).groups)
  {
  }

  lemma SegmentAt(groups: seq<Group>, ng: nat, w: seq<Group>, k: nat)
    requires Segment(groups, ng, w) && ng <= k < ng + |w|
    ensures groups[k] == w[k - ng] && groups[k] in w
  {
    assert groups[k] == groups[ng..ng + |w|][k - ng];
  }

  // The chain of a field in terms of index paths, among the groups that exist
  // (those before ng) and the new ones.
  predicate ChainIs(groups: seq<Group>, h: int, index: seq<nat>, outer: int, ng: nat, end: nat, k: nat)
    requires ParentsBelow(groups) && h < |groups| && outer < |groups| && k < |groups|
  {
    && (k < ng ==> (InChain(groups, h, k) <==> InChain(groups, outer, k)))
    && (ng <= k < end ==> (InChain(groups, h, k) <==> groups[k].index <= index))
  }

  lemma {:induction false} VisitChain(g: Graph, nm: string -> string, t: nat, i: nat, at: Place, seen: set<nat>,
                                      ng: nat, groups: seq<Group>, f: Field, k: nat)
    requires Closed(g) && t in g && i < |g[t]| && -1 <= at.group < ng
    requires var v := Visit(g, nm, t, i, at, seen, ng); Segment(groups, ng, v.groups) && f in v.fields
    requires ParentsBelow(groups) && k < |groups|
    ensures var end := ng + |Visit(g, nm, t, i, at, seen, ng).groups|;
            -1 <= f.group < end && ChainIs(groups, f.group, f.index, at.group, ng, end, k)
    decreases g.Keys - seen, 0, 0
  {
    var d := g[t][i];
    if !d.ftype.Leaf? {
      hide Walk, PointerPath, Mapped, ColumnOf;
      assert d.ftype.t in g.Keys - seen;
      var own, inside, seen' := Entered(d, i, at), Inside(nm, d, i, at, ng), seen + {d.ftype.t};
      var ng' := ng + |own|;
      var inner := Walk(g, nm, d.ftype.t, 0, inside, seen', ng');
      SegmentSplit(groups, ng, own, inner.groups);
      WalkChain(g, nm, d.ftype.t, 0, inside, seen', ng', groups, f, k);
      if d.ftype.Pointer? {
        SegmentAt(groups, ng, own, ng);
        assert groups[ng].parent == at.group && groups[ng].index == inside.index;
        WalkSound(g, nm, d.ftype.t, 0, inside, seen', ng', f);
      }
    }
  }

  lemma {:induction false} WalkChain(g: Graph, nm: string -> string, t: nat, i: nat, at: Place, seen: set<nat>, ng: nat,
                                     groups: seq<Group>, f: Field, k: nat)
    requires Closed(g) && t in g && i <= |g[t]| && -1 <= at.group < ng
    requires var w := Walk(g, nm, t, i, at, seen, ng); Segment(groups, ng, w.groups) && f in w.fields
    requires ParentsBelow(groups) && k < |groups|
    ensures var end := ng + |Walk(g, nm, t, i, at, seen, ng).groups|;
            -1 <= f.group < end && ChainIs(groups, f.group, f.index, at.group, ng, end, k)
    decreases g.Keys - seen, 1, |g[t]| - i
  {
    var v := Visit(g, nm, t, i, at, seen, ng);
    var ng' := ng + |v.groups|;
    var rest := Walk(g, nm, t, i + 1, at, seen, ng');
    SegmentSplit(groups, ng, v.groups, rest.groups);
    hide Visit, InChain, Segment;
    if f in v.fields {
      VisitChain(g, nm, t, i, at, seen, ng, groups, f, k);
      hide Walk;
      NotAfter(g, nm, t, i, at, seen, ng, groups, f, k);
    } else {
      WalkChain(g, nm, t, i + 1, at, seen, ng', groups, f, k);
      hide Walk;
      NotBefore(g, nm, t, i, at, seen, ng, groups, f, k);
    }
  }

  // The groups of later fields enclose nothing of an earlier one.
  lemma {:induction false} NotAfter(g: Graph, nm: string -> string, t: nat, i: nat, at: Place, seen: set<nat>, ng: nat,
                 groups: seq<Group>, f: Field, k: nat)
    requires Closed(g) && t in g && i < |g[t]| && ParentsBelow(groups) && k < |groups|
    requires var v := Visit(g, nm, t, i, at, seen, ng);
             && f in v.fields && f.group < ng + |v.groups| && f.group < |groups|
             && Segment(groups, ng + |v.groups|, Walk(g, nm, t, i + 1, at, seen, ng + |v.groups|).groups)
    ensures var v := Visit(g, nm, t, i, at, seen, ng);
            var ng' := ng + |v.groups|;
            ng' <= k < ng' + |Walk(g, nm, t, i + 1, at, seen, ng').groups| ==>
              !InChain(groups, f.group, k) && !(groups[k].index <= f.index)
  {
    hide Visit, Walk;
    var ng' := ng + |Visit(g, nm, t, i, at, seen, ng).groups|;
    var rest := Walk(g, nm, t, i + 1, at, seen, ng');
    VisitSound(g, nm, t, i, at, seen, ng, f);
    if ng' <= k < ng' + |rest.groups| {
      SegmentAt(groups, ng', rest.groups, k);
      WalkGroups(g, nm, t, i + 1, at, seen, ng', groups[k]);
      NotInChain(groups, f.group, k);
    }
  }

  // The groups of earlier fields enclose nothing of a later one.
  lemma {:induction false} NotBefore(g: Graph, nm: string -> string, t: nat, i: nat, at: Place, seen: set<nat>, ng: nat,
                  groups: seq<Group>, f: Field, k: nat)
    requires Closed(g) && t in g && i < |g[t]| && ParentsBelow(groups) && k < |groups| && -1 <= at.group < ng
    requires var v := Visit(g, nm, t, i, at, seen, ng);
             && Segment(groups, ng, v.groups) && f in Walk(g, nm, t, i + 1, at, seen, ng + |v.groups|).fields
    ensures var v := Visit(g, nm, t, i, at, seen, ng);
            ng <= k < ng + |v.groups| ==> !InChain(groups, at.group, k) && !(groups[k].index <= f.index)
  {
    hide Visit, Walk;
    var v := Visit(g, nm, t, i, at, seen, ng);
    WalkSound(g, nm, t, i + 1, at, seen, ng + |v.groups|, f);
    assert f.index[|at.index|..][0] == f.index[|at.index|];
    if ng <= k < ng + |v.groups| {
      SegmentAt(groups, ng, v.groups, k);
      VisitGroupsAt(g, nm, t, i, at, seen, ng, groups[k]);
      NotInChain(groups, at.group, k);
    }
  }

  lemma NotInChain(groups: seq<Group>, h: int, k: int)
    requires ParentsBelow(groups) && h < |groups| && h < k
    ensures !InChain(groups, h, k)
  {
    if InChain(groups, h, k) {
      ChainDescends(groups, h, k);
    }
  }

  lemma VisitGroupsAt(g: Graph, nm: string -> string, t: nat, i: nat, at: Place, seen: set<nat>, ng: nat, h: Group)
    requires Closed(g) && t in g && i < |g[t]| && h in Visit(g, nm, t, i, at, seen, ng).groups
    ensures at.index <= h.index && |at.index| < |h.index| && h.index[|at.index|] == i
  {
    VisitGroups(g, nm, t, i, at, seen, ng, h);
    var d := g[t][i];
    if h !in Entered(d, i, at) {
      var inside := Inside(nm, d, i, at, ng);
      WalkGroups(g, nm, d.ftype.t, 0, inside, seen + {d.ftype.t}, ng + |Entered(d, i, at)|, h);
      assert h.index[|at.index|] == inside.index[|at.index|] == i;
    }
  }

  // Every struct on a field's path that is reached through a pointer has a group.
  lemma {:induction false} PointersAreGroups(g: Graph, nm: string -> string, t: nat, i: nat, at: Place,
                                             seen: set<nat>, ng: nat,
                                             f: Field, n: nat)
    requires Closed(g) && t in g && i <= |g[t]| && f in Walk(g, nm, t, i, at, seen, ng).fields
    requires |at.index| < n < |f.index| && PointerPath(g, t, f.index[|at.index|..n])
    ensures exists h :: h in Walk(g, nm, t, i, at, seen, ng).groups && h.index == f.index[..n]
    decreases g.Keys - seen, |g[t]| - i
  {
    var d := g[t][i];
    var v := Visit(g, nm, t, i, at, seen, ng);
    if f in v.fields {
      VisitSound(g, nm, t, i, at, seen, ng, f);
      assert d.ftype.t in g.Keys - seen;
      var own, inside, seen' := Entered(d, i, at), Inside(nm, d, i, at, ng), seen + {d.ftype.t};
      WalkSound(g, nm, d.ftype.t, 0, inside, seen', ng + |own|, f);
      var path := f.index[|at.index|..n];
      assert path[0] == f.index[|at.index|] == i;
      if |path| == 1 {
        assert f.index[..n] == at.index + [i];
        assert own[0] in v.groups && own[0].index == f.index[..n];
      } else {
        assert path[1..] == f.index[|inside.index|..n];
        PointersAreGroups(g, nm, d.ftype.t, 0, inside, seen', ng + |own|, f, n);
      }
    } else {
      PointersAreGroups(g, nm, t, i + 1, at, seen, ng + |v.groups|, f, n);
    }
  }

  // The parent of a group encloses it.
  predicate Enclosed(groups: seq<Group>, h: Group) {
    -1 <= h.parent < |groups| && (h.parent >= 0 ==> groups[h.parent].index < h.index)
  }

  predicate EnclosedAt(groups: seq<Group>, at: Place, ng: nat) {
    -1 <= at.group < ng <= |groups| && (at.group >= 0 ==> groups[at.group].index <= at.index)
  }

  lemma {:induction false} ParentEncloses(g: Graph, nm: string -> string, t: nat, i: nat, at: Place, seen: set<nat>,
                                          ng: nat, groups: seq<Group>, h: Group)
    requires Closed(g) && t in g && i <= |g[t]| && EnclosedAt(groups, at, ng)
    requires var w := Walk(g, nm, t, i, at, seen, ng); Segment(groups, ng, w.groups) && h in w.groups
    ensures Enclosed(groups, h)
    decreases g.Keys - seen, 1, |g[t]| - i
  {
    var v := Visit(g, nm, t, i, at, seen, ng);
    var rest := Walk(g, nm, t, i + 1, at, seen, ng + |v.groups|);
    hide Visit, Enclosed, EnclosedAt;
    SegmentSplit(groups, ng, v.groups, rest.groups);
    if h in v.groups {
      VisitEncloses(g, nm, t, i, at, seen, ng, groups, h);
    } else {
      ParentEncloses(g, nm, t, i + 1, at, seen, ng + |v.groups|, groups, h);
    }
  }

  lemma {:induction false} VisitEncloses(g: Graph, nm: string -> string, t: nat, i: nat, at: Place, seen: set<nat>,
                                         ng: nat, groups: seq<Group>, h: Group)
    requires Closed(g) && t in g && i < |g[t]| && EnclosedAt(groups, at, ng)
    requires var v := Visit(g, nm, t, i, at, seen, ng); Segment(groups, ng, v.groups) && h in v.groups
    ensures Enclosed(groups, h)
    decreases g.Keys - seen, 0, 0
  {
    hide Walk;
    var d := g[t][i];
    VisitGroups(g, nm, t, i, at, seen, ng, h);
    assert d.ftype.t in g.Keys - seen;
    var own, inside, seen' := Entered(d, i, at), Inside(nm, d, i, at, ng), seen + {d.ftype.t};
    if h in own {
      assert h == own[0];
    } else {
      SegmentSplit(groups, ng, own, Walk(g, nm, d.ftype.t, 0, inside, seen', ng + |own|).groups);
      if d.ftype.Pointer? {
        SegmentAt(groups, ng, own, ng);
      }
      ParentEncloses(g, nm, d.ftype.t, 0, inside, seen', ng + |own|, groups, h);
    }
  }

  // The groups of a type: parents come first and enclose; following the parent
  // links of a field gives exactly the pointer structs on its path, and each of
  // those has a group.
  lemma GroupsAreExact(g: Graph, nm: string -> string, t: nat)
    requires Closed(g) && t in g
    ensures var w := WalkRoot(g, nm, t);
            && ParentsBelow(w.groups)
            && (forall h :: h in w.groups ==> PointerPath(g, t, h.index))
            && (forall h :: h in w.groups && h.parent >= 0 ==>
                h.parent < |w.groups| && w.groups[h.parent].index < h.index)
            && (forall f :: f in w.fields ==> -1 <= f.group < |w.groups|)
            && (forall f, k :: f in w.fields && 0 <= k < |w.groups| ==>
                  (InChain(w.groups, f.group, k) <==> w.groups[k].index <= f.index))
            && (forall f, n :: f in w.fields && 0 < n < |f.index| && PointerPath(g, t, f.index[..n]) ==>
                  exists h :: h in w.groups && h.index == f.index[..n])
  {
    var w := WalkRoot(g, nm, t);
    var groups := w.groups;
    assert groups[0..|groups|] == groups;
    WalkParents(g, nm, t, 0, ROOT, {t}, 0);
    assert ParentsBelow(groups);
    forall h | h in groups
      ensures PointerPath(g, t, h.index)
      ensures h.parent >= 0 ==> h.parent < |groups| && groups[h.parent].index < h.index
    {
      WalkGroups(g, nm, t, 0, ROOT, {t}, 0, h);
      assert h.index[0..] == h.index;
      ParentEncloses(g, nm, t, 0, ROOT, {t}, 0, groups, h);
    }
    forall f | f in w.fields
      ensures -1 <= f.group < |groups|
      ensures forall k :: 0 <= k < |groups| ==> (InChain(groups, f.group, k) <==> groups[k].index <= f.index)
    {
      FieldChain(g, nm, t, f);
    }
    forall f, n | f in w.fields && 0 < n < |f.index| && PointerPath(g, t, f.index[..n])
      ensures exists h :: h in groups && h.index == f.index[..n]
    {
      assert f.index[0..n] == f.index[..n];
      PointersAreGroups(g, nm, t, 0, ROOT, {t}, 0, f, n);
    }
  }

  lemma FieldChain(g: Graph, nm: string -> string, t: nat, f: Field)
    requires Closed(g) && t in g && f in WalkRoot(g, nm, t).fields
    requires ParentsBelow(WalkRoot(g, nm, t).groups)
    ensures var groups := WalkRoot(g, nm, t).groups;
            && -1 <= f.group < |groups|
            && forall k :: 0 <= k < |groups| ==> (InChain(groups, f.group, k) <==> groups[k].index <= f.index)
  {
    hide Walk, InChain;
    var groups := WalkRoot(g, nm, t).groups;
    assert groups[0..|groups|] == groups;
    if |groups| == 0 {
      FieldGroup(g, nm, t, 0, ROOT, {t}, 0, f);
    } else {
      WalkChain(g, nm, t, 0, ROOT, {t}, 0, groups, f, 0);
    }
    forall k | 0 <= k < |groups|
      ensures InChain(groups, f.group, k) <==> groups[k].index <= f.index
    {
      WalkChain(g, nm, t, 0, ROOT, {t}, 0, groups, f, k);
    }
  }

  lemma {:induction false} FieldGroup(g: Graph, nm: string -> string, t: nat, i: nat, at: Place, seen: set<nat>,
                                      ng: nat, f: Field)
    requires Closed(g) && t in g && i <= |g[t]| && f in Walk(g, nm, t, i, at, seen, ng).fields
    requires Walk(g, nm, t, i, at, seen, ng).groups == []
    ensures f.group == at.group
    decreases g.Keys - seen, |g[t]| - i
  {
    var d := g[t][i];
    var v := Visit(g, nm, t, i, at, seen, ng);
    if f in v.fields {
      if !d.ftype.Leaf? {
        assert d.ftype.t in g.Keys - seen;
        FieldGroup(g, nm, d.ftype.t, 0, Inside(nm, d, i, at, ng), seen + {d.ftype.t}, ng + |Entered(d, i, at)|, f);
      }
    } else {
      FieldGroup(g, nm, t, i + 1, at, seen, ng + |v.groups|, f);
    }
  }
}
