// Writing the rows a RETURNING clause gives back into the elements they belong to.

module WriteBack {
  import opened Wrappers
  import opened Mapper
  import opened MapperStructure
  import opened RowValues
  import RowReader

  // ----- one row into one element

  // A type and how it is mapped; strict makes a returned column without a field
  // an error.
  datatype Target = Target(
    g: Graph, rank: nat -> nat, t: nat, fields: seq<Field>, byName: map<string, nat>, strict: bool)

  ghost predicate Usable(w: Target) {
    && World(w.g, w.rank) && w.t in w.g && Indexed(w.fields, w.byName)
    && forall k :: 0 <= k < |w.fields| ==> LeafPath(w.g, Struct(w.t), w.fields[k].index)
  }

  ghost predicate Element(w: Target, v: Val) {
    Usable(w) && Typed(w.g, Struct(w.t), v)
  }

  function PathFor(w: Target, column: string): seq<nat>
    requires Usable(w) && column in w.byName
  {
    w.fields[w.byName[column]].index
  }

  // An element as some columns of its row leave it; or a column that does not
  // fit, or that lies behind a nil pointer that cannot be set, which panics.
  datatype Back = Now(v: Val) | Misfit | Stuck

  function PutAt(w: Target, v: Val, column: string, cell: Cell): (b: Back)
    requires Element(w, v)
    ensures b.Now? ==> Element(w, b.v)
  {
    if column !in w.byName then (if w.strict then Misfit else Now(v))
    else
      var path := PathFor(w, column);
      if Blocked(w.g, Struct(w.t), v, path) then Stuck
      else if !Assignable(LeafAt(w.g, Struct(w.t), path), cell) then Misfit
      else Now(SetAt(w.g, w.rank, Struct(w.t), v, path, cell))
  }

  // An element after the first n columns of its returned row.
  function Returned(w: Target, v: Val, cols: seq<string>, row: seq<Cell>, n: nat): (b: Back)
    requires Element(w, v) && |cols| == |row| && n <= |cols|
    ensures b.Now? ==> Element(w, b.v)
  {
    if n == 0 then Now(v)
    else
      var before := Returned(w, v, cols, row, n - 1);
      if before.Now? then PutAt(w, before.v, cols[n - 1], row[n - 1]) else before
  }

  lemma {:induction false} ReturnedStops(w: Target, v: Val, cols: seq<string>, row: seq<Cell>, n: nat, m: nat)
    requires Element(w, v) && |cols| == |row| && n <= m <= |cols|
    requires !Returned(w, v, cols, row, n).Now?
    ensures Returned(w, v, cols, row, m) == Returned(w, v, cols, row, n)
  {
    if n < m {
      ReturnedStops(w, v, cols, row, n, m - 1);
    }
  }

  // A write into an element panics exactly when, somewhere on its path, an
  // embedded pointer of an unexported type is not set.
  lemma {:induction false} StuckExactly(g: Graph, t: nat, v: Val, path: seq<nat>)
    requires Closed(g) && t in g && LeafPath(g, Struct(t), path) && Typed(g, Struct(t), v)
    ensures Blocked(g, Struct(t), v, path) <==>
            exists n :: 0 < n < |path| && UnsetSealed(g, t, v, path[..n])
    decreases |path|
  {
    var d, tail := g[t][path[0]], path[1..];
    if |path| > 1 {
      var vi := v.fields[path[0]];
      RowReader.LeafPathThrough(g, d.ftype, tail);
      assert forall n :: 0 < n < |path| ==> path[..n][0] == path[0] && path[..n][1..] == tail[..n - 1];
      if vi.NilV? {
        StuckBelowNil(g, t, v, path);
      } else {
        var inner := if vi.PtrV? then vi.to else vi;
        StuckExactly(g, d.ftype.t, inner, tail);
        StuckThrough(g, t, v, path);
      }
    }
  }

  ghost predicate UnsetSealed(g: Graph, t: nat, v: Val, path: seq<nat>)
    requires Closed(g) && t in g
  {
    RowReader.SealedAt(g, t, path) && !Allocated(v, path)
  }

  lemma StuckBelowNil(g: Graph, t: nat, v: Val, path: seq<nat>)
    requires Closed(g) && t in g && LeafPath(g, Struct(t), path) && Typed(g, Struct(t), v)
    requires |path| > 1 && v.fields[path[0]].NilV?
    ensures Blocked(g, Struct(t), v, path) <==>
            exists n :: 0 < n < |path| && UnsetSealed(g, t, v, path[..n])
  {
    hide RowReader.SealedAt;
    var tail := path[1..];
    assert Blocked(g, Struct(t), v, path) == Locked(g, Struct(t), path);
    RowReader.LockedExactly(g, t, path);
    forall n | 0 < n < |path|
      ensures !Allocated(v, path[..n])
    {
      assert path[..n][1..] == tail[..n - 1];
    }
    if exists n :: 0 < n < |path| && RowReader.SealedAt(g, t, path[..n]) {
      var n :| 0 < n < |path| && RowReader.SealedAt(g, t, path[..n]);
      assert UnsetSealed(g, t, v, path[..n]);
    }
  }

  lemma StuckThrough(g: Graph, t: nat, v: Val, path: seq<nat>)
    requires Closed(g) && t in g && LeafPath(g, Struct(t), path) && Typed(g, Struct(t), v)
    requires |path| > 1 && !v.fields[path[0]].NilV?
    requires var vi := v.fields[path[0]];
             var inner := if vi.PtrV? then vi.to else vi;
             && !g[t][path[0]].ftype.Leaf? && Typed(g, Struct(g[t][path[0]].ftype.t), inner)
             && LeafPath(g, Struct(g[t][path[0]].ftype.t), path[1..])
             && (Blocked(g, Struct(g[t][path[0]].ftype.t), inner, path[1..]) <==>
                   exists m :: 0 < m < |path[1..]| && UnsetSealed(g, g[t][path[0]].ftype.t, inner, path[1..][..m]))
    ensures Blocked(g, Struct(t), v, path) <==>
            exists n :: 0 < n < |path| && UnsetSealed(g, t, v, path[..n])
  {
    var d, tail, vi := g[t][path[0]], path[1..], v.fields[path[0]];
    var inner := if vi.PtrV? then vi.to else vi;
    hide RowReader.SealedAt;
    forall n | 0 < n < |path|
      ensures UnsetSealed(g, t, v, path[..n]) <==> n > 1 && UnsetSealed(g, d.ftype.t, inner, tail[..n - 1])
    {
      UnsetInside(g, t, v, path, n);
    }
    assert Blocked(g, Struct(t), v, path) == Blocked(g, Struct(d.ftype.t), inner, tail);
    if exists m :: 0 < m < |tail| && UnsetSealed(g, d.ftype.t, inner, tail[..m]) {
      var m :| 0 < m < |tail| && UnsetSealed(g, d.ftype.t, inner, tail[..m]);
      assert UnsetSealed(g, t, v, path[..m + 1]);
    }
  }

  lemma UnsetInside(g: Graph, t: nat, v: Val, path: seq<nat>, n: nat)
    requires Closed(g) && t in g && LeafPath(g, Struct(t), path) && Typed(g, Struct(t), v)
    requires 0 < n < |path| && !v.fields[path[0]].NilV?
    ensures var d, vi := g[t][path[0]], v.fields[path[0]];
            var inner := if vi.PtrV? then vi.to else vi;
            !d.ftype.Leaf? && d.ftype.t in g &&
            (UnsetSealed(g, t, v, path[..n]) <==> n > 1 && UnsetSealed(g, d.ftype.t, inner, path[1..][..n - 1]))
  {
    var d, vi := g[t][path[0]], v.fields[path[0]];
    assert path[..n][0] == path[0] && path[..n][1..] == path[1..][..n - 1];
    assert !d.ftype.Leaf?;
    if n == 1 {
      assert Allocated(v, path[..n]) == vi.PtrV?;
    } else {
      var inner := if vi.PtrV? then vi.to else vi;
      assert path[1..][..n - 1] != [];
      assert Allocated(v, path[..n]) == Allocated(inner, path[1..][..n - 1]);
    }
  }

  lemma {:induction false} SetThenRead(
    g: Graph, rank: nat -> nat, ft: FieldType, v: Val, path: seq<nat>, cell: Cell)
    requires World(g, rank) && Known(g, ft) && Typed(g, ft, v) && LeafPath(g, ft, path)
    requires !Blocked(g, ft, v, path) && Assignable(LeafAt(g, ft, path), cell)
    ensures var r := SetAt(g, rank, ft, v, path, cell);
            Reached(g, ft, r, path) && Lookup(g, ft, r, path) == cell
    decreases |path|, ft.Pointer?
  {
    if ft.Pointer? {
      LockedThrough(g, ft, path);
      ZeroBlocked(g, rank, Struct(ft.t), path);
      SetThenRead(g, rank, Struct(ft.t), if v.NilV? then Zero(g, rank, Struct(ft.t)) else v.to, path, cell);
    } else if ft.Struct? {
      SetThenRead(g, rank, g[ft.t][path[0]].ftype, v.fields[path[0]], path[1..], cell);
    }
  }

  // Setting one leaf leaves every other that was reachable as it was.
  lemma {:induction false} SetElsewhere(
    g: Graph, rank: nat -> nat, ft: FieldType, v: Val, path: seq<nat>, cell: Cell, other: seq<nat>)
    requires World(g, rank) && Known(g, ft) && Typed(g, ft, v) && LeafPath(g, ft, path) && LeafPath(g, ft, other)
    requires !Blocked(g, ft, v, path) && Assignable(LeafAt(g, ft, path), cell)
    requires path != other && Reached(g, ft, v, other)
    ensures var r := SetAt(g, rank, ft, v, path, cell);
            Reached(g, ft, r, other) && Lookup(g, ft, r, other) == Lookup(g, ft, v, other)
    decreases |path|, ft.Pointer?
  {
    if ft.Pointer? {
      SetElsewhere(g, rank, Struct(ft.t), v.to, path, cell, other);
    } else if ft.Struct? && path[0] == other[0] {
      assert path == [path[0]] + path[1..] && other == [other[0]] + other[1..];
      SetElsewhere(g, rank, g[ft.t][path[0]].ftype, v.fields[path[0]], path[1..], cell, other[1..]);
    }
  }

  predicate HasField(w: Target, column: string) {
    exists k :: 0 <= k < |w.fields| && w.fields[k].column == column
  }

  // An embedded pointer of an unexported type is not set, somewhere on the way to
  // the column's field.
  ghost predicate BehindUnset(w: Target, v: Val, column: string)
    requires Usable(w) && column in w.byName
  {
    exists n :: 0 < n < |PathFor(w, column)| && UnsetSealed(w.g, w.t, v, PathFor(w, column)[..n])
  }

  // One returned column, by what it is: one without a field is an error under strict
  // reading and nothing otherwise; one behind an unset pointer panics; NULL for a
  // field that cannot be NULL is an error; any other is read back from its field.
  lemma PutExactly(w: Target, v: Val, column: string, cell: Cell)
    requires Element(w, v)
    ensures HasField(w, column) <==> column in w.byName
    ensures var b := PutAt(w, v, column, cell);
            if !HasField(w, column) then b == if w.strict then Misfit else Now(v)
            else if BehindUnset(w, v, column) then b == Stuck
            else if cell.Null? && !LeafAt(w.g, Struct(w.t), PathFor(w, column)).nullable then b == Misfit
            else
              && b.Now? && Reached(w.g, Struct(w.t), b.v, PathFor(w, column))
              && Lookup(w.g, Struct(w.t), b.v, PathFor(w, column)) == cell
  {
    hide SetAt, Lookup, Reached, LeafPath, LeafAt, Typed, Blocked, UnsetSealed;
    FieldOrNot(w, column);
    if column in w.byName {
      StuckExactly(w.g, w.t, v, PathFor(w, column));
      if PutAt(w, v, column, cell).Now? {
        SetThenRead(w.g, w.rank, Struct(w.t), v, PathFor(w, column), cell);
      }
    }
  }

  lemma FieldOrNot(w: Target, column: string)
    requires Usable(w)
    ensures HasField(w, column) <==> column in w.byName
  {
    hide LeafPath;
    if column in w.byName {
      assert w.fields[w.byName[column]].column == column;
    }
  }

  // A returned value stays what the row says, whatever columns come after it.
  lemma {:induction false} ReturnedReadsBack(w: Target, v: Val, cols: seq<string>, row: seq<Cell>, n: nat, j: nat)
    requires Element(w, v) && |cols| == |row| && j < n <= |cols|
    requires forall a, b :: 0 <= a < b < |cols| ==> cols[a] != cols[b]
    requires forall a, b :: 0 <= a < b < |w.fields| ==> w.fields[a].index != w.fields[b].index
    requires cols[j] in w.byName && Returned(w, v, cols, row, n).Now?
    ensures var r := Returned(w, v, cols, row, n).v;
            && Reached(w.g, Struct(w.t), r, PathFor(w, cols[j]))
            && Lookup(w.g, Struct(w.t), r, PathFor(w, cols[j])) == row[j]
  {
    hide SetAt, Lookup, Reached, LeafPath, Typed, Blocked;
    var before := Returned(w, v, cols, row, n - 1).v;
    var last := cols[n - 1];
    if j == n - 1 {
      SetThenRead(w.g, w.rank, Struct(w.t), before, PathFor(w, last), row[j]);
    } else {
      ReturnedReadsBack(w, v, cols, row, n - 1, j);
      if last in w.byName {
        assert w.byName[last] != w.byName[cols[j]] by {
          assert w.fields[w.byName[last]].column == last;
        }
        SetElsewhere(w.g, w.rank, Struct(w.t), before, PathFor(w, last), row[n - 1], PathFor(w, cols[j]));
      }
    }
  }

  method WriteRow(w: Target, v0: Val, cols: seq<string>, row: seq<Cell>) returns (v: Val, b: Back)
    requires Element(w, v0) && |cols| == |row|
    ensures Element(w, v)
    ensures b == Returned(w, v0, cols, row, |cols|) && (b.Now? ==> v == b.v)
  {
    hide SetAt, LeafPath, Typed, Blocked;
    v := v0;
    for n := 0 to |cols|
      invariant Element(w, v) && Returned(w, v0, cols, row, n) == Now(v)
    {
      b := PutAt(w, v, cols[n], row[n]);
      if !b.Now? {
        ReturnedStops(w, v0, cols, row, n + 1, |cols|);
        return;
      }
      v := b.v;
    }
    b := Now(v);
  }

  // ----- the rows of a reply into the elements of a batch

  // How an insert goes wrong; Panicked is not an error it returns but a panic.
  datatype InsertError =
    | NilElement(i: nat)
    | NoColumns
    | TooWide
    | NoReturning
    | Refused(statement: nat)
    | TooMany
    | TooFew(rows: nat)
    | BadRow(i: nat)
    | Panicked(i: nat)

  // The database's answer to a statement: an error, or rows under column names.
  datatype Reply = Failure | Rows(cols: seq<string>, rows: seq<seq<Cell>>)

  predicate WellFormed(reply: Reply) {
    reply.Rows? ==> forall r :: 0 <= r < |reply.rows| ==> |reply.rows[r]| == |reply.cols|
  }

  // A nil element of the slice is None.
  ghost predicate Elements(w: Target, vs: seq<Option<Val>>) {
    Usable(w) && forall i :: 0 <= i < |vs| ==> vs[i].Some? ==> Element(w, vs[i].value)
  }

  ghost predicate SameOutside(before: seq<Option<Val>>, after: seq<Option<Val>>, lo: int, hi: int)
    requires |before| == |after|
  {
    forall i :: 0 <= i < |before| && !(lo <= i < hi) ==> after[i] == before[i]
  }

  // The elements from lo to hi and a reply meant for them.
  ghost predicate Span(w: Target, vs: seq<Option<Val>>, lo: nat, hi: nat, reply: Reply) {
    && lo <= hi <= |vs| && Elements(w, vs) && WellFormed(reply) && reply.Rows?
    && forall i :: lo <= i < hi ==> vs[i].Some?
  }

  function Shared(lo: nat, hi: nat, reply: Reply): nat
    requires reply.Rows? && lo <= hi
  {
    if |reply.rows| < hi - lo then |reply.rows| else hi - lo
  }

  ghost function RowBack(w: Target, vs: seq<Option<Val>>, lo: nat, hi: nat, reply: Reply, r: nat): (b: Back)
    requires Span(w, vs, lo, hi, reply) && r < Shared(lo, hi, reply)
    ensures b.Now? ==> Element(w, b.v)
  {
    Returned(w, vs[lo + r].value, reply.cols, reply.rows[r], |reply.cols|)
  }

  // The first row from r on that cannot be written back, or their number.
  ghost function FirstBad(w: Target, vs: seq<Option<Val>>, lo: nat, hi: nat, reply: Reply, r: nat): (k: nat)
    requires Span(w, vs, lo, hi, reply) && r <= Shared(lo, hi, reply)
    ensures r <= k <= Shared(lo, hi, reply)
    ensures forall j :: r <= j < k ==> RowBack(w, vs, lo, hi, reply, j).Now?
    ensures k < Shared(lo, hi, reply) ==> !RowBack(w, vs, lo, hi, reply, k).Now?
    decreases Shared(lo, hi, reply) - r
  {
    if r == Shared(lo, hi, reply) || !RowBack(w, vs, lo, hi, reply, r).Now? then r
    else FirstBad(w, vs, lo, hi, reply, r + 1)
  }

  // How writing a reply back ends: at its first bad row, else by their number.
  ghost function BackEnd(w: Target, vs: seq<Option<Val>>, lo: nat, hi: nat, reply: Reply): Option<InsertError>
    requires Span(w, vs, lo, hi, reply)
  {
    var k := FirstBad(w, vs, lo, hi, reply, 0);
    if k < Shared(lo, hi, reply) then
      Some(if RowBack(w, vs, lo, hi, reply, k).Stuck? then Panicked(lo + k) else BadRow(lo + k))
    else if |reply.rows| > hi - lo then Some(TooMany)
    else if |reply.rows| < hi - lo then Some(TooFew(|reply.rows|))
    else None
  }

  // It ends well exactly when there is one row for each element and each fits.
  lemma BackEndsWell(w: Target, vs: seq<Option<Val>>, lo: nat, hi: nat, reply: Reply)
    requires Span(w, vs, lo, hi, reply)
    ensures BackEnd(w, vs, lo, hi, reply).None? <==>
            && |reply.rows| == hi - lo
            && forall r :: 0 <= r < hi - lo ==> RowBack(w, vs, lo, hi, reply, r).Now?
  {
    hide RowBack;
  }

  // Which error it ends with: that of the first row that does not fit, if there is
  // one among the rows that have an element; else by their number.
  lemma EndsExactly(w: Target, vs: seq<Option<Val>>, lo: nat, hi: nat, reply: Reply, k: nat)
    requires Span(w, vs, lo, hi, reply)
    ensures var end, n := BackEnd(w, vs, lo, hi, reply), |reply.rows|;
            && (end == Some(BadRow(lo + k)) <==> BadFirst(w, vs, lo, hi, reply, k, Misfit))
            && (end == Some(Panicked(lo + k)) <==> BadFirst(w, vs, lo, hi, reply, k, Stuck))
            && (end == Some(TooMany) <==> n > hi - lo && AllBack(w, vs, lo, hi, reply, hi - lo))
            && (end == Some(TooFew(k)) <==> k == n < hi - lo && AllBack(w, vs, lo, hi, reply, n))
  {
    hide RowBack;
  }

  // The first n rows, each of which has an element, fit.
  ghost predicate AllBack(w: Target, vs: seq<Option<Val>>, lo: nat, hi: nat, reply: Reply, n: nat)
    requires Span(w, vs, lo, hi, reply)
  {
    n <= |reply.rows| && n <= hi - lo && forall r :: 0 <= r < n ==> RowBack(w, vs, lo, hi, reply, r).Now?
  }

  ghost predicate BadFirst(w: Target, vs: seq<Option<Val>>, lo: nat, hi: nat, reply: Reply, k: nat, b: Back)
    requires Span(w, vs, lo, hi, reply)
  {
    k < |reply.rows| && k < hi - lo && AllBack(w, vs, lo, hi, reply, k) && RowBack(w, vs, lo, hi, reply, k) == b
  }

  // The elements of the first n rows hold them.
  ghost predicate WrittenBack(
    w: Target, before: seq<Option<Val>>, after: seq<Option<Val>>, lo: nat, hi: nat, reply: Reply, n: nat)
    requires |before| == |after| && Span(w, before, lo, hi, reply) && n <= Shared(lo, hi, reply)
  {
    forall r :: 0 <= r < n ==> BackAt(w, before, after, lo, hi, reply, r)
  }

  ghost predicate BackAt(
    w: Target, before: seq<Option<Val>>, after: seq<Option<Val>>, lo: nat, hi: nat, reply: Reply, r: nat)
    requires |before| == |after| && Span(w, before, lo, hi, reply) && r < Shared(lo, hi, reply)
  {
    after[lo + r].Some? && RowBack(w, before, lo, hi, reply, r) == Now(after[lo + r].value)
  }

  // How far into the batch elements are touched: the first bad row's is, too.
  ghost function Reach(w: Target, vs: seq<Option<Val>>, lo: nat, hi: nat, reply: Reply): nat
    requires Span(w, vs, lo, hi, reply)
  {
    var k := FirstBad(w, vs, lo, hi, reply, 0);
    if k < Shared(lo, hi, reply) then k + 1 else k
  }

  // A reply has been written back to the elements from lo to hi, as far as it goes.
  ghost predicate Replied(
    w: Target, before: seq<Option<Val>>, after: seq<Option<Val>>, lo: nat, hi: nat, reply: Reply)
    requires |before| == |after| && Span(w, before, lo, hi, reply)
  {
    && WrittenBack(w, before, after, lo, hi, reply, FirstBad(w, before, lo, hi, reply, 0))
    && SameOutside(before, after, lo, lo + Reach(w, before, lo, hi, reply))
  }

  lemma FirstBadIs(w: Target, vs: seq<Option<Val>>, lo: nat, hi: nat, reply: Reply, k: nat)
    requires Span(w, vs, lo, hi, reply) && k <= Shared(lo, hi, reply)
    requires forall j :: 0 <= j < k ==> RowBack(w, vs, lo, hi, reply, j).Now?
    requires k == Shared(lo, hi, reply) || !RowBack(w, vs, lo, hi, reply, k).Now?
    ensures FirstBad(w, vs, lo, hi, reply, 0) == k
  {
    hide RowBack;
  }

  lemma OneMoreBack(w: Target, before: seq<Option<Val>>, mid: seq<Option<Val>>, after: seq<Option<Val>>,
                    lo: nat, hi: nat, reply: Reply, n: nat)
    requires |before| == |mid| == |after| && Span(w, before, lo, hi, reply) && n < Shared(lo, hi, reply)
    requires WrittenBack(w, before, mid, lo, hi, reply, n)
    requires BackAt(w, before, after, lo, hi, reply, n)
    requires forall i :: lo <= i < lo + n ==> after[i] == mid[i]
    ensures WrittenBack(w, before, after, lo, hi, reply, n + 1)
  {
    hide RowBack, Span, Shared;
    SpanBounds(w, before, lo, hi, reply);
    forall r | 0 <= r < n
      ensures BackAt(w, before, after, lo, hi, reply, r)
    {
      assert BackAt(w, before, mid, lo, hi, reply, r);
    }
  }

  lemma SpanBounds(w: Target, vs: seq<Option<Val>>, lo: nat, hi: nat, reply: Reply)
    requires Span(w, vs, lo, hi, reply)
    ensures lo <= hi <= |vs| && lo + Shared(lo, hi, reply) <= hi
  {
  }

  // Row r of the reply goes to element lo + r; the end is the one the rows call
  // for, and no element but theirs is touched.
  method ScanBack(w: Target, vs: array<Option<Val>>, lo: nat, hi: nat, reply: Reply)
    returns (error: Option<InsertError>)
    requires Span(w, vs[..], lo, hi, reply)
    modifies vs
    ensures Elements(w, vs[..])
    ensures error == BackEnd(w, old(vs[..]), lo, hi, reply)
    ensures Replied(w, old(vs[..]), vs[..], lo, hi, reply)
  {
    hide Returned, Usable, Typed;
    ghost var before := vs[..];
    var n := 0;
    while n < |reply.rows|
      invariant 0 <= n <= Shared(lo, hi, reply)
      invariant Elements(w, vs[..]) && SameOutside(before, vs[..], lo, lo + n)
      invariant WrittenBack(w, before, vs[..], lo, hi, reply, n)
    {
      if n >= hi - lo {
        EndsAt(w, before, vs[..], lo, hi, reply, n);
        return Some(TooMany);
      }
      ghost var mid := vs[..];
      assert mid[lo + n] == before[lo + n];
      var v, b := WriteRow(w, vs[lo + n].value, reply.cols, reply.rows[n]);
      vs[lo + n] := Some(v);
      assert vs[..] == mid[lo + n := Some(v)];
      StillElements(w, mid, lo + n, v);
      StillOutside(before, mid, lo, n, Some(v));
      if !b.Now? {
        KeptBack(w, before, mid, vs[..], lo, hi, reply, n);
        EndsAt(w, before, vs[..], lo, hi, reply, n);
        return Some(if b.Stuck? then Panicked(lo + n) else BadRow(lo + n));
      }
      OneMoreBack(w, before, mid, vs[..], lo, hi, reply, n);
      n := n + 1;
    }
    EndsAt(w, before, vs[..], lo, hi, reply, n);
    error := if n < hi - lo then Some(TooFew(n)) else None;
  }

  lemma StillElements(w: Target, vs: seq<Option<Val>>, i: nat, v: Val)
    requires Elements(w, vs) && i < |vs| && Element(w, v)
    ensures Elements(w, vs[i := Some(v)])
  {
  }

  lemma StillOutside(before: seq<Option<Val>>, mid: seq<Option<Val>>, lo: nat, n: nat, v: Option<Val>)
    requires |before| == |mid| && lo + n < |mid| && SameOutside(before, mid, lo, lo + n)
    ensures SameOutside(before, mid[lo + n := v], lo, lo + n + 1)
  {
  }

  lemma KeptBack(w: Target, before: seq<Option<Val>>, mid: seq<Option<Val>>, after: seq<Option<Val>>,
                 lo: nat, hi: nat, reply: Reply, n: nat)
    requires |before| == |mid| == |after| && Span(w, before, lo, hi, reply) && n <= Shared(lo, hi, reply)
    requires WrittenBack(w, before, mid, lo, hi, reply, n)
    requires forall i :: lo <= i < lo + n ==> after[i] == mid[i]
    ensures WrittenBack(w, before, after, lo, hi, reply, n)
  {
    hide RowBack, Span, Shared;
    SpanBounds(w, before, lo, hi, reply);
    forall r | 0 <= r < n
      ensures BackAt(w, before, after, lo, hi, reply, r)
    {
      assert BackAt(w, before, mid, lo, hi, reply, r);
    }
  }

  // The loop has stopped at row n, for good or ill.
  lemma EndsAt(w: Target, before: seq<Option<Val>>, after: seq<Option<Val>>, lo: nat, hi: nat, reply: Reply, n: nat)
    requires |before| == |after| && Span(w, before, lo, hi, reply) && n <= Shared(lo, hi, reply)
    requires WrittenBack(w, before, after, lo, hi, reply, n)
    requires n == Shared(lo, hi, reply) || !RowBack(w, before, lo, hi, reply, n).Now?
    requires SameOutside(before, after, lo, if n == Shared(lo, hi, reply) then lo + n else lo + n + 1)
    ensures Replied(w, before, after, lo, hi, reply)
    ensures n < Shared(lo, hi, reply) ==>
              BackEnd(w, before, lo, hi, reply)
              == Some(if RowBack(w, before, lo, hi, reply, n).Stuck? then Panicked(lo + n) else BadRow(lo + n))
    ensures n == Shared(lo, hi, reply) ==>
              BackEnd(w, before, lo, hi, reply)
              == if |reply.rows| > hi - lo then Some(TooMany)
                 else if |reply.rows| < hi - lo then Some(TooFew(|reply.rows|)) else None
  {
    hide RowBack, Span;
    forall j | 0 <= j < n
      ensures RowBack(w, before, lo, hi, reply, j).Now?
    {
      assert BackAt(w, before, after, lo, hi, reply, j);
    }
    FirstBadIs(w, before, lo, hi, reply, n);
  }
}
