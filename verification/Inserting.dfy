// Writing many structs: rows batched under the placeholder limit, one statement
// a batch, and every way in which that can end.

module Inserting {
  import opened Wrappers
  import opened Mapper
  import opened RowValues
  import opened WriteBack
  import opened Dialects
  import Q = Quoting
  import C = Conditions
  import W = ConditionWriter
  import Queries
  import QueryArguments

  // ----- which columns are written

  datatype WriteConfig = WriteConfig(only: seq<string>, omit: seq<string>, returning: seq<string>)

  predicate Selects(c: WriteConfig, column: string) {
    if c.only != [] then column in c.only else column !in c.omit
  }

  predicate Chosen(c: WriteConfig, skipPK: bool, f: Field) {
    !f.readonly && !(skipPK && f.pk) && Selects(c, f.column)
  }

  function Writable(fields: seq<Field>, c: WriteConfig, skipPK: bool): seq<Field> {
    if fields == [] then []
    else (if Chosen(c, skipPK, fields[0]) then [fields[0]] else []) + Writable(fields[1..], c, skipPK)
  }

  lemma {:induction false} WritableExactly(fields: seq<Field>, c: WriteConfig, skipPK: bool)
    ensures forall f :: f in Writable(fields, c, skipPK) <==> f in fields && Chosen(c, skipPK, f)
  {
    if fields != [] {
      WritableExactly(fields[1..], c, skipPK);
    }
  }

  method WritableFields(fields: seq<Field>, c: WriteConfig, skipPK: bool) returns (chosen: seq<Field>)
    ensures chosen == Writable(fields, c, skipPK)
  {
    chosen := [];
    assert fields[0..] == fields;
    for i := 0 to |fields|
      invariant chosen + Writable(fields[i..], c, skipPK) == Writable(fields, c, skipPK)
    {
      hide Selects;
      assert fields[i..][1..] == fields[i + 1..];
      ghost var rest := Writable(fields[i + 1..], c, skipPK);
      assert chosen + [fields[i]] + rest == chosen + ([fields[i]] + rest) && chosen + ([] + rest) == chosen + rest;
      if fields[i].readonly || (skipPK && fields[i].pk) || !Selects(c, fields[i].column) {
        continue;
      }
      chosen := chosen + [fields[i]];
    }
  }

  // ----- the batches

  // Rows per statement: all of them, or as many as the limit has room for.
  function BatchSize(n: nat, perRow: nat, max: int): nat
    requires perRow > 0
  {
    if max > 0 && max / perRow < n then max / perRow else n
  }

  // A statement of a batch stays within a positive limit, and there is room for
  // a row at all exactly when a row's placeholders fit.
  lemma BatchFits(n: nat, perRow: nat, max: int)
    requires perRow > 0 && n > 0
    ensures max > 0 ==> BatchSize(n, perRow, max) * perRow <= max
    ensures BatchSize(n, perRow, max) >= 1 <==> max <= 0 || perRow <= max
  {
    if max > 0 {
      var q := max / perRow;
      assert q * perRow <= max < (q + 1) * perRow;
      assert BatchSize(n, perRow, max) <= q;
      Monotone(BatchSize(n, perRow, max), q, perRow);
    }
  }

  lemma Monotone(a: nat, b: nat, c: nat)
    requires a <= b
    ensures a * c <= b * c
  {
  }

  function Sum(sizes: seq<nat>): nat {
    if sizes == [] then 0 else sizes[0] + Sum(sizes[1..])
  }

  // The sizes of the batches of n rows, in order.
  function Batches(n: nat, batch: nat): (sizes: seq<nat>)
    requires batch > 0
    ensures Sum(sizes) == n
    ensures forall k :: 0 <= k < |sizes| ==> 0 < sizes[k] <= batch
    decreases n
  {
    if n == 0 then [] else if n <= batch then [n] else [batch] + Batches(n - batch, batch)
  }

  lemma {:induction false} SumBound(sizes: seq<nat>, batch: nat)
    requires forall k :: 0 <= k < |sizes| ==> sizes[k] <= batch
    ensures Sum(sizes) <= |sizes| * batch
  {
    if sizes != [] {
      SumBound(sizes[1..], batch);
    }
  }

  lemma {:induction false} BatchCount(n: nat, batch: nat)
    requires batch > 0
    ensures n > 0 ==> (|Batches(n, batch)| - 1) * batch < n
    ensures n == 0 ==> Batches(n, batch) == []
  {
    if n > batch {
      BatchCount(n - batch, batch);
    }
  }

  lemma FewestBatches(n: nat, batch: nat, sizes: seq<nat>)
    requires batch > 0 && Sum(sizes) == n && forall k :: 0 <= k < |sizes| ==> sizes[k] <= batch
    ensures |Batches(n, batch)| <= |sizes|
  {
    hide Batches, Sum;
    BatchCount(n, batch);
    SumBound(sizes, batch);
    if |sizes| < |Batches(n, batch)| {
      Monotone(|sizes|, |Batches(n, batch)| - 1, batch);
    }
  }

  lemma WithinLimit(size: nat, perRow: nat, max: nat)
    requires perRow > 0 && size * perRow <= max
    ensures size <= max / perRow
  {
    if size > max / perRow {
      Monotone(max / perRow + 1, size, perRow);
    }
  }

  // No way of splitting the rows into statements within the limit uses fewer.
  lemma FewestStatements(n: nat, perRow: nat, max: int, sizes: seq<nat>)
    requires perRow > 0 && n > 0 && BatchSize(n, perRow, max) >= 1
    requires Sum(sizes) == n
    requires max > 0 ==> forall k :: 0 <= k < |sizes| ==> sizes[k] * perRow <= max
    ensures |Batches(n, BatchSize(n, perRow, max))| <= |sizes|
  {
    hide Sum;
    var batch := BatchSize(n, perRow, max);
    if batch < n {
      forall k | 0 <= k < |sizes|
        ensures sizes[k] <= batch
      {
        WithinLimit(sizes[k], perRow, max);
      }
      FewestBatches(n, batch, sizes);
    } else {
      assert Batches(n, batch) == [n];
      assert sizes != [] by {
        if sizes == [] {
          SumBound(sizes, 0);
        }
      }
    }
  }

  // ----- the statements

  datatype Statement = Statement(text: string, args: seq<Value>)

  function ArgOf(cell: Cell): Value {
    if cell.Null? then Value.Null else Scalar(cell.n)
  }

  predicate Columns(w: Target, chosen: seq<Field>)
    requires Usable(w)
  {
    forall j :: 0 <= j < |chosen| ==> LeafPath(w.g, Struct(w.t), chosen[j].index)
  }

  // The values one element binds, in column order; a nil element binds nothing.
  function RowArgs(w: Target, chosen: seq<Field>, v: Option<Val>): (r: seq<Value>)
    requires Usable(w) && Columns(w, chosen) && (v.Some? ==> Element(w, v.value))
    ensures v.Some? ==> |r| == |chosen|
  {
    if v.None? then []
    else seq(|chosen|, j requires 0 <= j < |chosen| => ArgOf(Lookup(w.g, Struct(w.t), v.value, chosen[j].index)))
  }

  function RowsArgs(w: Target, chosen: seq<Field>, vs: seq<Option<Val>>): (rows: seq<seq<Value>>)
    requires Elements(w, vs) && Columns(w, chosen)
    ensures |rows| == |vs| && forall i :: 0 <= i < |vs| ==> rows[i] == RowArgs(w, chosen, vs[i])
  {
    seq(|vs|, i requires 0 <= i < |vs| => RowArgs(w, chosen, vs[i]))
  }

  function BatchPieces(prefix: string, tail: seq<C.Piece>, rows: seq<seq<Value>>): seq<C.Piece> {
    [C.Verbatim(prefix)] + Queries.Tuples(rows) + tail
  }

  function StatementOf(d: Dialect, prefix: string, tail: seq<C.Piece>, rows: seq<seq<Value>>): Statement {
    var ps := BatchPieces(prefix, tail, rows);
    Statement(C.Written(d, ps, 0), C.Args(ps))
  }

  // All the statements that insert rows, batch by batch.
  function Statements(d: Dialect, prefix: string, tail: seq<C.Piece>, rows: seq<seq<Value>>, batch: nat): seq<Statement>
    requires batch > 0
  {
    if rows == [] then []
    else if |rows| <= batch then [StatementOf(d, prefix, tail, rows)]
    else [StatementOf(d, prefix, tail, rows[..batch])] + Statements(d, prefix, tail, rows[batch..], batch)
  }

  predicate Unbound(tail: seq<C.Piece>) {
    C.Args(tail) == []
  }

  // A statement binds its rows' values, row after row.
  lemma StatementArgs(d: Dialect, prefix: string, tail: seq<C.Piece>, rows: seq<seq<Value>>)
    requires Unbound(tail)
    ensures StatementOf(d, prefix, tail, rows).args == QueryArguments.Flat(rows)
  {
    hide C.Written, Queries.Tuples, C.Args;
    QueryArguments.TuplesBind(rows);
    C.ArgsAppend([C.Verbatim(prefix)] + Queries.Tuples(rows), tail);
    C.ArgsAppend([C.Verbatim(prefix)], Queries.Tuples(rows));
    C.ArgsOne(C.Verbatim(prefix));
    assert [] + QueryArguments.Flat(rows) + [] == QueryArguments.Flat(rows);
  }

  lemma {:induction false} FlatSize(rows: seq<seq<Value>>, perRow: nat)
    requires forall i :: 0 <= i < |rows| ==> |rows[i]| == perRow
    ensures |QueryArguments.Flat(rows)| == |rows| * perRow
  {
    if rows != [] {
      FlatSize(rows[1..], perRow);
    }
  }

  lemma {:induction false} FlatAppend(a: seq<seq<Value>>, b: seq<seq<Value>>)
    ensures QueryArguments.Flat(a + b) == QueryArguments.Flat(a) + QueryArguments.Flat(b)
  {
    if a == [] {
      assert a + b == b;
    } else {
      assert (a + b)[1..] == a[1..] + b;
      FlatAppend(a[1..], b);
    }
  }

  function AllArgs(sts: seq<Statement>): seq<Value> {
    if sts == [] then [] else sts[0].args + AllArgs(sts[1..])
  }

  // The statements carry every row's values once, in order, each row whole in
  // one statement; none binds more than the limit, and there are as many of them
  // as there are batches.
  lemma {:induction false} StatementsCarryRows(
    d: Dialect, prefix: string, tail: seq<C.Piece>, rows: seq<seq<Value>>, batch: nat, perRow: nat)
    requires batch > 0 && Unbound(tail) && forall i :: 0 <= i < |rows| ==> |rows[i]| == perRow
    ensures var sts := Statements(d, prefix, tail, rows, batch);
            && AllArgs(sts) == QueryArguments.Flat(rows)
            && |sts| == |Batches(|rows|, batch)|
            && forall k :: 0 <= k < |sts| ==> |sts[k].args| == Batches(|rows|, batch)[k] * perRow
    decreases |rows|
  {
    hide StatementOf, Unbound;
    if 0 < |rows| <= batch {
      StatementArgs(d, prefix, tail, rows);
      FlatSize(rows, perRow);
    } else if rows != [] {
      var first, rest := rows[..batch], rows[batch..];
      StatementArgs(d, prefix, tail, first);
      FlatSize(first, perRow);
      StatementsCarryRows(d, prefix, tail, rest, batch, perRow);
      FlatAppend(first, rest);
      assert first + rest == rows;
      hide QueryArguments.Flat;
      assert AllArgs(Statements(d, prefix, tail, rows, batch))
          == StatementOf(d, prefix, tail, first).args + AllArgs(Statements(d, prefix, tail, rest, batch));
    }
  }

  // With a positive limit, no statement binds more than it.
  lemma StatementsWithinLimit(d: Dialect, prefix: string, tail: seq<C.Piece>, rows: seq<seq<Value>>, perRow: nat,
                              k: nat)
    requires perRow > 0 && Unbound(tail) && forall i :: 0 <= i < |rows| ==> |rows[i]| == perRow
    requires d.maxPlaceholders > 0 && rows != [] && BatchSize(|rows|, perRow, d.maxPlaceholders) > 0
    requires k < |Statements(d, prefix, tail, rows, BatchSize(|rows|, perRow, d.maxPlaceholders))|
    ensures |Statements(d, prefix, tail, rows,
                        BatchSize(|rows|, perRow, d.maxPlaceholders))[k].args| <= d.maxPlaceholders
  {
    hide Statements, Batches, BatchSize;
    var batch := BatchSize(|rows|, perRow, d.maxPlaceholders);
    StatementsCarryRows(d, prefix, tail, rows, batch, perRow);
    BatchFits(|rows|, perRow, d.maxPlaceholders);
    Monotone(Batches(|rows|, batch)[k], batch, perRow);
  }

  // ----- building one

  method WriteTuple(b: W.Writer, w: Target, chosen: seq<Field>, v: Val)
    requires b.Valid() && Element(w, v) && Columns(w, chosen)
    modifies b
    ensures b.Valid()
    ensures b.pieces == old(b.pieces) + ([C.Open] + Queries.Binds(RowArgs(w, chosen, Some(v))) + [C.Close])
  {
    hide C.Written, C.Args, C.PieceText, C.PieceArgs, Lookup, LeafPath, Typed, W.Writer.Valid, Queries.Binds;
    ghost var before := b.pieces;
    ghost var vals := RowArgs(w, chosen, Some(v));
    b.Str(C.Open);
    ghost var total := before + [C.Open] + Queries.Binds(vals);
    assert vals[0..] == vals;
    assert b.pieces + [] + Queries.Binds(vals[0..]) == total;
    for j := 0 to |chosen|
      invariant b.Valid()
      invariant b.pieces + Queries.Sep(0 < j < |chosen|) + Queries.Binds(vals[j..]) == total
    {
      ghost var sep := Queries.Sep(0 < j);
      ghost var sep' := Queries.Sep(j + 1 < |chosen|);
      Queries.BindsStep(vals, j);
      W.Joined(b.pieces, sep, [C.Bound(vals[j])], sep', Queries.Binds(vals[j + 1..]), total);
      if j > 0 {
        b.Str(Queries.SEP);
      }
      var cell := FieldValue(w.g, Struct(w.t), v, chosen[j].index);
      b.Bind(ArgOf(cell));
    }
    assert vals[|chosen|..] == [];
    NothingLeft();
    assert b.pieces == total;
    b.Str(C.Close);
    assert b.pieces == before + ([C.Open] + Queries.Binds(vals) + [C.Close]);
  }

  lemma NothingLeft()
    ensures Queries.Binds([]) == [] && Queries.Tuples([]) == []
  {
  }

  function Names(d: Dialect, cols: seq<string>): seq<C.Piece> {
    if cols == [] then []
    else [C.Verbatim(Q.Quoted(cols[0], d.quote))] + Queries.Sep(|cols| > 1) + Names(d, cols[1..])
  }

  function Tail(d: Dialect, returning: seq<string>): seq<C.Piece> {
    if returning == [] then [] else [C.Verbatim(" RETURNING ")] + Names(d, returning)
  }

  lemma {:induction false} NamesUnbound(d: Dialect, cols: seq<string>)
    ensures Unbound(Names(d, cols))
  {
    if cols != [] {
      var sep := Queries.Sep(|cols| > 1);
      var head := C.Verbatim(Q.Quoted(cols[0], d.quote));
      NamesUnbound(d, cols[1..]);
      C.ArgsAppend([head] + sep, Names(d, cols[1..]));
      C.ArgsAppend([head], sep);
      C.ArgsOne(head);
      C.ArgsOne(Queries.SEP);
    }
  }

  lemma TailUnbound(d: Dialect, returning: seq<string>)
    ensures Unbound(Tail(d, returning))
  {
    NamesUnbound(d, returning);
    C.ArgsAppend([C.Verbatim(" RETURNING ")], Names(d, returning));
    C.ArgsOne(C.Verbatim(" RETURNING "));
  }

  method AppendReturning(b: W.Writer, returning: seq<string>) returns (ok: bool)
    requires b.Valid()
    modifies b
    ensures b.Valid() && ok == (returning == [] || b.d.returning)
    ensures ok ==> b.pieces == old(b.pieces) + Tail(b.d, returning)
  {
    hide C.Written, C.Args, C.PieceText, C.PieceArgs, Q.Quoted, W.Writer.Valid, Names;
    if returning == [] {
      return true;
    }
    if !b.d.returning {
      return false;
    }
    ghost var total := b.pieces + Tail(b.d, returning);
    b.Str(C.Verbatim(" RETURNING "));
    assert returning[0..] == returning;
    assert b.pieces + [] + Names(b.d, returning) == total;
    for i := 0 to |returning|
      invariant b.Valid()
      invariant b.pieces + Queries.Sep(0 < i < |returning|) + Names(b.d, returning[i..]) == total
    {
      ghost var sep := Queries.Sep(0 < i);
      ghost var sep' := Queries.Sep(i + 1 < |returning|);
      var name := C.Verbatim(Q.Quoted(returning[i], b.d.quote));
      NameStep(b.d, returning, i, sep');
      W.Joined(b.pieces, sep, [name], sep', Names(b.d, returning[i + 1..]), total);
      if i > 0 {
        b.Str(Queries.SEP);
      }
      b.Str(name);
    }
    NoNames(b.d, returning[|returning|..]);
    ok := true;
  }

  lemma NameStep(d: Dialect, cols: seq<string>, i: nat, sep: seq<C.Piece>)
    requires i < |cols| && sep == Queries.Sep(i + 1 < |cols|)
    ensures Names(d, cols[i..]) == [C.Verbatim(Q.Quoted(cols[i], d.quote))] + sep + Names(d, cols[i + 1..])
  {
    assert cols[i..][1..] == cols[i + 1..];
  }

  lemma NoNames(d: Dialect, cols: seq<string>)
    requires |cols| == 0
    ensures Names(d, cols) == []
  {
  }

  // The rows of one statement, up to a nil element if there is one.
  method WriteRows(b: W.Writer, w: Target, chosen: seq<Field>, vs: seq<Option<Val>>) returns (nilAt: Option<nat>)
    requires b.Valid() && Elements(w, vs) && Columns(w, chosen)
    modifies b
    ensures b.Valid()
    ensures nilAt.None? <==> forall i :: 0 <= i < |vs| ==> vs[i].Some?
    ensures nilAt.None? ==> b.pieces == old(b.pieces) + Queries.Tuples(RowsArgs(w, chosen, vs))
    ensures nilAt.Some? ==>
              nilAt.value < |vs| && vs[nilAt.value].None? && forall i :: 0 <= i < nilAt.value ==> vs[i].Some?
  {
    hide C.Written, C.Args, C.PieceText, C.PieceArgs, Queries.Binds;
    hide Queries.Tuples, RowArgs, Usable, Typed, Columns, W.Writer.Valid;
    ghost var all := RowsArgs(w, chosen, vs);
    ghost var total := b.pieces + Queries.Tuples(all);
    assert all[0..] == all;
    for i := 0 to |vs|
      invariant b.Valid()
      invariant forall j :: 0 <= j < i ==> vs[j].Some?
      invariant b.pieces + Queries.Sep(0 < i < |vs|) + Queries.Tuples(all[i..]) == total
    {
      if vs[i].None? {
        return Some(i);
      }
      ghost var sep := Queries.Sep(0 < i);
      ghost var sep' := Queries.Sep(i + 1 < |vs|);
      Queries.TuplesStep(all, i);
      W.Joined(b.pieces, sep, [C.Open] + Queries.Binds(all[i]) + [C.Close], sep', Queries.Tuples(all[i + 1..]), total);
      if i > 0 {
        b.Str(Queries.SEP);
      }
      WriteTuple(b, w, chosen, vs[i].value);
    }
    assert all[|vs|..] == [];
    NothingLeft();
    nilAt := None;
  }

  // ----- inserting

  function TableName(parts: seq<string>, q: char): string {
    if parts == [] then ""
    else Q.Quoted(parts[0], q) + (if |parts| > 1 then "." else "") + TableName(parts[1..], q)
  }

  function ColumnNames(d: Dialect, chosen: seq<Field>): string {
    if chosen == [] then ""
    else Q.Quoted(chosen[0].column, d.quote) + (if |chosen| > 1 then ", " else "") + ColumnNames(d, chosen[1..])
  }

  function Prefix(d: Dialect, table: string, chosen: seq<Field>): string {
    "INSERT INTO " + TableName(C.Split(table), d.quote) + " (" + ColumnNames(d, chosen) + ") VALUES "
  }

  // ----- the job

  // What an insert works with once its columns are known: the text before the
  // rows, the columns asked back, the rows of a statement, and what the database
  // answers to each.
  datatype Job = Job(
    d: Dialect, prefix: string, returning: seq<string>, w: Target, chosen: seq<Field>, batch: nat,
    replies: nat -> Reply)

  ghost predicate Ready(job: Job, vs: seq<Option<Val>>) {
    && Elements(job.w, vs) && Columns(job.w, job.chosen) && job.batch > 0
    && forall k :: WellFormed(job.replies(k))
  }

  ghost function Planned(job: Job, vs: seq<Option<Val>>): seq<Statement>
    requires Ready(job, vs)
  {
    Statements(job.d, job.prefix, Tail(job.d, job.returning), RowsArgs(job.w, job.chosen, vs), job.batch)
  }

  function Least(a: nat, b: nat): nat {
    if a < b then a else b
  }

  // Where the k-th batch of n elements starts and ends.
  function Lo(job: Job, n: nat, k: nat): (lo: nat)
    ensures lo <= n
  {
    Least(k * job.batch, n)
  }

  function Hi(job: Job, n: nat, k: nat): (hi: nat)
    ensures Lo(job, n, k) <= hi <= n
  {
    Least(k * job.batch + job.batch, n)
  }

  // The first nil element from lo on, or hi.
  function FirstNil(vs: seq<Option<Val>>, lo: nat, hi: nat): (i: nat)
    requires lo <= hi <= |vs|
    ensures lo <= i <= hi
    ensures forall j :: lo <= j < i ==> vs[j].Some?
    ensures i < hi ==> vs[i].None?
    decreases hi - lo
  {
    if lo == hi || vs[lo].None? then lo else FirstNil(vs, lo + 1, hi)
  }

  // How building the statement of a batch ends.
  function BuildEnd(job: Job, vs: seq<Option<Val>>, lo: nat, hi: nat): Option<InsertError>
    requires lo <= hi <= |vs|
  {
    if FirstNil(vs, lo, hi) < hi then Some(NilElement(FirstNil(vs, lo, hi)))
    else if job.returning != [] && !job.d.returning then Some(NoReturning)
    else None
  }

  // How sending it ends.
  ghost function SendEnd(job: Job, vs: seq<Option<Val>>, lo: nat, hi: nat, k: nat): Option<InsertError>
    requires Ready(job, vs) && lo <= hi <= |vs| && BuildEnd(job, vs, lo, hi).None?
  {
    if job.replies(k).Failure? then Some(Refused(k))
    else if job.returning == [] then None
    else BackEnd(job.w, vs, lo, hi, job.replies(k))
  }

  // How the k-th batch ends.
  ghost function EndOf(job: Job, vs: seq<Option<Val>>, k: nat): Option<InsertError>
    requires Ready(job, vs)
  {
    var lo, hi := Lo(job, |vs|, k), Hi(job, |vs|, k);
    if BuildEnd(job, vs, lo, hi).Some? then BuildEnd(job, vs, lo, hi) else SendEnd(job, vs, lo, hi, k)
  }

  // The rows returned for the k-th batch are where they belong, as far as it went.
  ghost predicate BatchReplied(job: Job, before: seq<Option<Val>>, after: seq<Option<Val>>, k: nat)
    requires |before| == |after| && Ready(job, before)
  {
    var lo, hi, reply := Lo(job, |before|, k), Hi(job, |before|, k), job.replies(k);
    && Span(job.w, before, lo, hi, reply)
    && WrittenBack(job.w, before, after, lo, hi, reply, FirstBad(job.w, before, lo, hi, reply, 0))
  }

  // The first n batches ended well; if rows were asked back they were written
  // back, and otherwise nothing was touched.
  ghost predicate Done(job: Job, before: seq<Option<Val>>, after: seq<Option<Val>>, n: nat)
    requires |before| == |after| && Ready(job, before)
  {
    && (forall k :: 0 <= k < n ==> EndOf(job, before, k).None?)
    && (if job.returning == [] then after == before
        else forall k :: 0 <= k < n ==> BatchReplied(job, before, after, k))
  }

  predicate BeforeSending(e: InsertError) {
    e.NilElement? || e.NoReturning?
  }

  // After n batches that ended well the next one ended with e: what it touched
  // are the elements its reply reached, and nothing after them is touched.
  ghost predicate Halted(job: Job, before: seq<Option<Val>>, after: seq<Option<Val>>, n: nat, e: InsertError)
    requires |before| == |after| && Ready(job, before)
  {
    && Done(job, before, after, n)
    && n * job.batch < |before| && EndOf(job, before, n) == Some(e)
    && var lo, hi, reply := Lo(job, |before|, n), Hi(job, |before|, n), job.replies(n);
       if job.returning == [] || BeforeSending(e) || e.Refused? then SameOutside(before, after, 0, lo)
       else
         && BatchReplied(job, before, after, n)
         && SameOutside(before, after, 0, lo + Reach(job.w, before, lo, hi, reply))
  }

  // How the whole job ends. The statement of the batch that fails is sent unless
  // building it is what failed.
  ghost predicate Finished(
    job: Job, before: seq<Option<Val>>, after: seq<Option<Val>>, sent: seq<Statement>, error: Option<InsertError>)
    requires |before| == |after| && Ready(job, before)
  {
    if error.None? then
      sent == Planned(job, before) && |before| <= |sent| * job.batch && Done(job, before, after, |sent|)
    else
      && sent <= Planned(job, before)
      && var unsent := BeforeSending(error.value);
         (unsent || sent != []) && Halted(job, before, after, if unsent then |sent| else |sent| - 1, error.value)
  }

  // The job ends well if and only if no element is nil, the dialect can return
  // rows if any are asked for, and every batch gets a reply, with, if rows are
  // asked for, one for each element that fits it.
  lemma FinishesWellExactly(
    job: Job, before: seq<Option<Val>>, after: seq<Option<Val>>, sent: seq<Statement>, error: Option<InsertError>)
    requires |before| == |after| && Ready(job, before) && before != [] && Finished(job, before, after, sent, error)
    ensures error.None? <==>
            && (forall i :: 0 <= i < |before| ==> before[i].Some?)
            && (job.returning == [] || job.d.returning)
            && forall k :: 0 <= k && k * job.batch < |before| ==> ReplyFits(job, before, k)
  {
    hide Planned, Ready, BatchReplied, Statements, EndOf, ReplyFits;
    forall k | 0 <= k && k * job.batch < |before|
      ensures EndOf(job, before, k).None? ==>
                BatchNotNil(job, before, k) && (job.returning == [] || job.d.returning) && ReplyFits(job, before, k)
      ensures BatchNotNil(job, before, k) && (job.returning == [] || job.d.returning) && ReplyFits(job, before, k) ==>
                EndOf(job, before, k).None?
    {
      EndsWellExactly(job, before, k);
    }
    if error.None? {
      forall k | 0 <= k && k * job.batch < |before|
        ensures k < |sent|
      {
        if k >= |sent| {
          Monotone(|sent|, k, job.batch);
        }
      }
      forall i | 0 <= i < |before|
        ensures before[i].Some?
      {
        BatchHolding(job, before, i);
        var k := i / job.batch;
        assert EndOf(job, before, k).None?;
      }
      assert EndOf(job, before, 0).None?;
    }
  }

  ghost predicate BatchNotNil(job: Job, vs: seq<Option<Val>>, k: nat) {
    forall i :: Lo(job, |vs|, k) <= i < Hi(job, |vs|, k) ==> vs[i].Some?
  }

  ghost predicate ReplyFits(job: Job, vs: seq<Option<Val>>, k: nat)
    requires Ready(job, vs)
  {
    var lo, hi, reply := Lo(job, |vs|, k), Hi(job, |vs|, k), job.replies(k);
    && reply.Rows?
    && (job.returning != [] && BatchNotNil(job, vs, k) ==>
          |reply.rows| == hi - lo && forall r :: 0 <= r < hi - lo ==> RowBack(job.w, vs, lo, hi, reply, r).Now?)
  }

  lemma EndsWellExactly(job: Job, vs: seq<Option<Val>>, k: nat)
    requires Ready(job, vs)
    ensures EndOf(job, vs, k).None? <==>
            BatchNotNil(job, vs, k) && (job.returning == [] || job.d.returning) && ReplyFits(job, vs, k)
  {
    hide RowBack, BackEnd, Usable;
    var lo, hi, reply := Lo(job, |vs|, k), Hi(job, |vs|, k), job.replies(k);
    if BuildEnd(job, vs, lo, hi).None? && reply.Rows? && job.returning != [] {
      BackEndsWell(job.w, vs, lo, hi, reply);
    }
  }

  // What each error says: of the first nil element, with its batch and those after
  // it unsent; of a dialect that cannot return rows, with nothing sent; of the
  // statement sent last, that it was refused or that its rows do not fit.
  lemma FinishReports(
    job: Job, before: seq<Option<Val>>, after: seq<Option<Val>>, sent: seq<Statement>, error: InsertError)
    requires |before| == |after| && Ready(job, before) && Finished(job, before, after, sent, Some(error))
    ensures error.NilElement? ==>
              && error.i < |before| && before[error.i].None? && (forall j :: 0 <= j < error.i ==> before[j].Some?)
              && |sent| * job.batch <= error.i < |sent| * job.batch + job.batch
    ensures error.NoReturning? ==> sent == [] && job.returning != [] && !job.d.returning
    ensures error.Refused? ==> |sent| == error.statement + 1 && job.replies(error.statement).Failure?
    ensures error != NoColumns && error != TooWide
    ensures error.TooMany? || error.TooFew? || error.BadRow? || error.Panicked? ==>
              sent != [] && job.returning != [] && RowsRefused(job, before, |sent| - 1, error)
  {
    hide Planned, Ready, BatchReplied, FirstNil, BackEnd, Reach;
    var n := if BeforeSending(error) then |sent| else |sent| - 1;
    var lo, hi := Lo(job, |before|, n), Hi(job, |before|, n);
    assert lo == n * job.batch && hi <= lo + job.batch;
    BackErrors(job, before, n);
    if error.NilElement? {
      forall j | 0 <= j < error.i
        ensures before[j].Some?
      {
        EarlierNotNil(job, before, n, j);
      }
    }
    assert n > 0 ==> EndOf(job, before, 0).None?;
  }

  // The rows replied to the k-th statement do not fit its elements.
  ghost predicate RowsRefused(job: Job, vs: seq<Option<Val>>, k: nat, error: InsertError)
    requires Ready(job, vs)
  {
    var lo, hi, reply := Lo(job, |vs|, k), Hi(job, |vs|, k), job.replies(k);
    Span(job.w, vs, lo, hi, reply) && BackEnd(job.w, vs, lo, hi, reply) == Some(error)
  }

  lemma BackErrors(job: Job, vs: seq<Option<Val>>, k: nat)
    requires Ready(job, vs)
    ensures var lo, hi := Lo(job, |vs|, k), Hi(job, |vs|, k);
            BuildEnd(job, vs, lo, hi).None? && EndOf(job, vs, k).Some? ==>
              var e := EndOf(job, vs, k).value;
              if job.replies(k).Failure? then e == Refused(k)
              else
                && job.returning != [] && RowsRefused(job, vs, k, e)
                && (e.TooMany? || e.TooFew? || e.BadRow? || e.Panicked?)
  {
    hide RowBack, FirstBad, Usable;
  }

  // No element up to the first nil one of the n-th batch is nil.
  lemma EarlierNotNil(job: Job, vs: seq<Option<Val>>, n: nat, j: nat)
    requires Ready(job, vs) && n * job.batch < |vs| && j < FirstNil(vs, Lo(job, |vs|, n), Hi(job, |vs|, n))
    requires forall k :: 0 <= k < n ==> EndOf(job, vs, k).None?
    ensures vs[j].Some?
  {
    hide FirstNil, Ready, SendEnd;
    if j < Lo(job, |vs|, n) {
      BatchHolding(job, vs, j);
      var k := j / job.batch;
      if k >= n {
        Monotone(n, k, job.batch);
      }
      assert EndOf(job, vs, k).None?;
    }
  }

  lemma BatchHolding(job: Job, vs: seq<Option<Val>>, i: nat)
    requires job.batch > 0 && i < |vs|
    ensures var k := i / job.batch; k * job.batch < |vs| && Lo(job, |vs|, k) <= i < Hi(job, |vs|, k)
  {
    var k := i / job.batch;
    assert k * job.batch <= i < k * job.batch + job.batch;
  }

  // ----- batch by batch

  // One statement, ready to send.
  method BuildBatch(job: Job, vs: array<Option<Val>>, lo: nat, hi: nat)
    returns (st: Statement, error: Option<InsertError>)
    requires lo <= hi <= vs.Length && Ready(job, vs[..])
    ensures error == BuildEnd(job, vs[..], lo, hi)
    ensures error.None? ==>
              st == StatementOf(job.d, job.prefix, Tail(job.d, job.returning), RowsArgs(job.w, job.chosen, vs[lo..hi]))
  {
    hide C.Written, C.Args, C.PieceText, C.PieceArgs, Queries.Tuples, Tail, Usable, Typed, Columns, RowsArgs;
    var b := new W.Writer(job.d);
    b.Str(C.Verbatim(job.prefix));
    assert b.pieces == [C.Verbatim(job.prefix)];
    st := Statement("", []);
    var nilAt := WriteRows(b, job.w, job.chosen, vs[lo..hi]);
    NilIsFirst(vs[..], lo, hi, nilAt);
    if nilAt.Some? {
      return st, Some(NilElement(lo + nilAt.value));
    }
    var ok := AppendReturning(b, job.returning);
    if !ok {
      return st, Some(NoReturning);
    }
    error := None;
    st := Statement(b.b, b.args);
  }

  lemma NilIsFirst(vs: seq<Option<Val>>, lo: nat, hi: nat, nilAt: Option<nat>)
    requires lo <= hi <= |vs|
    requires nilAt.None? ==> forall i :: 0 <= i < hi - lo ==> vs[lo..hi][i].Some?
    requires nilAt.Some? ==>
               && nilAt.value < hi - lo && vs[lo..hi][nilAt.value].None?
               && forall i :: 0 <= i < nilAt.value ==> vs[lo..hi][i].Some?
    ensures FirstNil(vs, lo, hi) == if nilAt.Some? then lo + nilAt.value else hi
  {
    var at := FirstNil(vs, lo, hi);
    if at < hi {
      assert vs[lo..hi][at - lo].None?;
    }
    if nilAt.Some? {
      assert vs[lo + nilAt.value] == vs[lo..hi][nilAt.value];
    }
  }

  // One statement sent, and its rows written back when any were asked for.
  method SendBatch(job: Job, vs: array<Option<Val>>, lo: nat, hi: nat, k: nat) returns (error: Option<InsertError>)
    requires lo <= hi <= vs.Length && Ready(job, vs[..]) && BuildEnd(job, vs[..], lo, hi).None?
    modifies vs
    ensures Elements(job.w, vs[..])
    ensures error == SendEnd(job, old(vs[..]), lo, hi, k)
    ensures if job.returning == [] || job.replies(k).Failure? then vs[..] == old(vs[..])
            else
              && Span(job.w, old(vs[..]), lo, hi, job.replies(k))
              && Replied(job.w, old(vs[..]), vs[..], lo, hi, job.replies(k))
  {
    hide Usable, Typed, WrittenBack, BackEnd, Replied, Columns;
    var reply := job.replies(k);
    if reply.Failure? {
      return Some(Refused(k));
    }
    if job.returning == [] {
      return None;
    }
    error := ScanBack(job.w, vs, lo, hi, reply);
  }

  lemma StatementsStep(d: Dialect, prefix: string, tail: seq<C.Piece>, rows: seq<seq<Value>>, batch: nat, start: nat)
    requires batch > 0 && start < |rows|
    ensures var end := Least(start + batch, |rows|);
            Statements(d, prefix, tail, rows[start..], batch)
            == [StatementOf(d, prefix, tail, rows[start..end])] + Statements(d, prefix, tail, rows[end..], batch)
  {
    hide StatementOf;
    var end, rest := Least(start + batch, |rows|), rows[start..];
    if |rest| <= batch {
      assert rows[start..end] == rest && rows[end..] == [];
    } else {
      assert rest[..batch] == rows[start..end] && rest[batch..] == rows[end..];
    }
  }

  // The job ends as every element, reply and limit call for.
  method SendAll(job: Job, vs: array<Option<Val>>) returns (sent: seq<Statement>, error: Option<InsertError>)
    requires Ready(job, vs[..])
    modifies vs
    ensures Finished(job, old(vs[..]), vs[..], sent, error)
  {
    hide Ready, Planned, Done, Halted, EndOf, SentSoFar, BuildEnd, SendEnd, StatementOf, Replied;
    hide Span;
    ghost var before := vs[..];
    sent := [];
    var start := 0;
    NothingSent(job, before);
    ReadyBatch(job, before);
    while start < vs.Length
      invariant start <= vs.Length && SentSoFar(job, before, vs[..], sent, start)
      decreases vs.Length - start
    {
      ghost var now := vs[..];
      SentReady(job, before, now, sent, start);
      var end := Least(start + job.batch, vs.Length);
      var st;
      st, error := BuildBatch(job, vs, start, end);
      if error.Some? {
        UnbuiltHalts(job, before, now, sent, start, end, error.value);
        return;
      }
      error := SendBatch(job, vs, start, end, |sent|);
      SentOneMore(job, before, now, vs[..], sent, start, end, st, error);
      sent := sent + [st];
      if error.Some? {
        return;
      }
      start := end;
    }
    SentAll(job, before, vs[..], sent, start);
    error := None;
  }

  // Where the loop over batches stands: the statements sent so far end at start.
  ghost predicate SentSoFar(job: Job, before: seq<Option<Val>>, now: seq<Option<Val>>, sent: seq<Statement>, start: nat)
    requires |before| == |now| && Ready(job, before)
  {
    && start == Lo(job, |before|, |sent|)
    && SentUpTo(job, before, sent, start)
    && Done(job, before, now, |sent|)
    && SameOutside(before, now, 0, start) && Elements(job.w, now)
  }

  ghost predicate SentUpTo(job: Job, before: seq<Option<Val>>, sent: seq<Statement>, start: nat)
    requires Ready(job, before) && start <= |before|
  {
    var rows, tail := RowsArgs(job.w, job.chosen, before), Tail(job.d, job.returning);
    sent + Statements(job.d, job.prefix, tail, rows[start..], job.batch) == Planned(job, before)
  }

  lemma NothingSent(job: Job, before: seq<Option<Val>>)
    requires Ready(job, before)
    ensures SentSoFar(job, before, before, [], 0)
  {
    hide Statements, RowsArgs, Columns, Usable, Tail;
    var rows := RowsArgs(job.w, job.chosen, before);
    assert rows[0..] == rows;
  }

  lemma ReadyBatch(job: Job, vs: seq<Option<Val>>)
    requires Ready(job, vs)
    ensures job.batch > 0 && forall k :: WellFormed(job.replies(k))
  {
  }

  // The elements of the next batch are untouched.
  lemma SentReady(job: Job, before: seq<Option<Val>>, now: seq<Option<Val>>, sent: seq<Statement>, start: nat)
    requires |before| == |now| && Ready(job, before) && SentSoFar(job, before, now, sent, start)
    ensures Ready(job, now)
  {
    hide Columns, Usable, SentUpTo, Done;
  }

  lemma PrefixSent(job: Job, before: seq<Option<Val>>, sent: seq<Statement>, start: nat)
    requires Ready(job, before) && start <= |before| && SentUpTo(job, before, sent, start)
    ensures sent <= Planned(job, before)
  {
    hide Planned, Statements, RowsArgs, Ready;
  }

  // What is judged of a batch depends on its own elements alone.
  lemma SameBuild(job: Job, before: seq<Option<Val>>, now: seq<Option<Val>>, lo: nat, hi: nat)
    requires lo <= hi <= |before| == |now| && forall i :: lo <= i < hi ==> now[i] == before[i]
    ensures BuildEnd(job, now, lo, hi) == BuildEnd(job, before, lo, hi)
  {
    var a, b := FirstNil(now, lo, hi), FirstNil(before, lo, hi);
    assert a == b;
  }

  lemma SameBack(w: Target, before: seq<Option<Val>>, now: seq<Option<Val>>, lo: nat, hi: nat, reply: Reply)
    requires |before| == |now| && Span(w, now, lo, hi, reply) && Elements(w, before)
    requires forall i :: lo <= i < hi ==> now[i] == before[i]
    ensures Span(w, before, lo, hi, reply)
    ensures FirstBad(w, now, lo, hi, reply, 0) == FirstBad(w, before, lo, hi, reply, 0)
    ensures forall r :: 0 <= r < Shared(lo, hi, reply) ==>
              RowBack(w, now, lo, hi, reply, r) == RowBack(w, before, lo, hi, reply, r)
    ensures BackEnd(w, now, lo, hi, reply) == BackEnd(w, before, lo, hi, reply)
    ensures Reach(w, now, lo, hi, reply) == Reach(w, before, lo, hi, reply)
  {
    hide Usable, Returned, Element, FirstBad;
    forall r | 0 <= r < Shared(lo, hi, reply)
      ensures RowBack(w, now, lo, hi, reply, r) == RowBack(w, before, lo, hi, reply, r)
    {
      assert now[lo + r] == before[lo + r];
    }
    hide RowBack;
    FirstBadIs(w, before, lo, hi, reply, FirstBad(w, now, lo, hi, reply, 0));
  }

  // What one batch's reply did is what it would have done to the elements at first.
  lemma RepliedFromStart(w: Target, before: seq<Option<Val>>, now: seq<Option<Val>>, next: seq<Option<Val>>,
                         lo: nat, hi: nat, reply: Reply)
    requires |before| == |now| == |next| && Elements(w, before) && SameOutside(before, now, 0, lo)
    requires Span(w, now, lo, hi, reply) && Replied(w, now, next, lo, hi, reply)
    ensures Span(w, before, lo, hi, reply)
    ensures WrittenBack(w, before, next, lo, hi, reply, FirstBad(w, before, lo, hi, reply, 0))
    ensures SameOutside(before, next, 0, lo + Reach(w, before, lo, hi, reply))
    ensures SameOutside(now, next, lo, hi)
  {
    SameBack(w, before, now, lo, hi, reply);
    hide RowBack, FirstBad, BackEnd, Span;
    SpanBounds(w, now, lo, hi, reply);
    var n := FirstBad(w, before, lo, hi, reply, 0);
    forall r | 0 <= r < n
      ensures BackAt(w, before, next, lo, hi, reply, r)
    {
      assert BackAt(w, now, next, lo, hi, reply, r);
    }
  }

  // Later batches leave the elements of earlier ones alone.
  lemma DoneKept(job: Job, before: seq<Option<Val>>, now: seq<Option<Val>>, next: seq<Option<Val>>, n: nat)
    requires |before| == |now| == |next| && Ready(job, before) && Done(job, before, now, n)
    requires job.returning == [] ==> next == now
    requires forall i :: 0 <= i < Lo(job, |before|, n) ==> next[i] == now[i]
    ensures Done(job, before, next, n)
  {
    hide EndOf, Ready, BatchReplied;
    if job.returning != [] {
      forall k | 0 <= k < n
        ensures BatchReplied(job, before, next, k)
      {
        Earlier(job, |before|, k, n);
        ReplyKept(job, before, now, next, k);
      }
    }
  }

  lemma Earlier(job: Job, len: nat, k: nat, n: nat)
    requires k < n
    ensures Hi(job, len, k) <= Lo(job, len, n)
  {
    Monotone(k + 1, n, job.batch);
  }

  lemma ReplyKept(job: Job, before: seq<Option<Val>>, now: seq<Option<Val>>, next: seq<Option<Val>>, k: nat)
    requires |before| == |now| == |next| && Ready(job, before) && BatchReplied(job, before, now, k)
    requires forall i :: 0 <= i < Hi(job, |before|, k) ==> next[i] == now[i]
    ensures BatchReplied(job, before, next, k)
  {
    hide RowBack, FirstBad, Ready, Span, Shared;
    var lo, hi, reply := Lo(job, |before|, k), Hi(job, |before|, k), job.replies(k);
    SpanBounds(job.w, before, lo, hi, reply);
    forall r | 0 <= r < FirstBad(job.w, before, lo, hi, reply, 0)
      ensures BackAt(job.w, before, next, lo, hi, reply, r)
    {
      assert BackAt(job.w, before, now, lo, hi, reply, r);
    }
  }

  // A statement that cannot be built ends the job before it is sent.
  lemma UnbuiltHalts(job: Job, before: seq<Option<Val>>, now: seq<Option<Val>>, sent: seq<Statement>,
                     start: nat, end: nat, e: InsertError)
    requires |before| == |now| && Ready(job, before) && SentSoFar(job, before, now, sent, start)
    requires start < |before| && end == Least(start + job.batch, |before|)
    requires BuildEnd(job, now, start, end) == Some(e)
    ensures Finished(job, before, now, sent, Some(e))
  {
    hide Planned, Ready, SendEnd, SentUpTo, Elements;
    hide Done;
    NextBatch(job, |before|, |sent|, start, end);
    SameBuild(job, before, now, start, end);
    PrefixSent(job, before, sent, start);
  }

  lemma NextBatch(job: Job, len: nat, n: nat, start: nat, end: nat)
    requires start == Lo(job, len, n) && start < len && end == Least(start + job.batch, len)
    ensures start == n * job.batch && start <= end <= len && end == Hi(job, len, n) == Lo(job, len, n + 1)
  {
    assert (n + 1) * job.batch == n * job.batch + job.batch;
  }

  // One statement more has been sent.
  lemma SentOneMore(job: Job, before: seq<Option<Val>>, now: seq<Option<Val>>, next: seq<Option<Val>>,
                    sent: seq<Statement>, start: nat, end: nat, st: Statement, error: Option<InsertError>)
    requires |before| == |now| == |next| && Ready(job, before) && Ready(job, now) && Elements(job.w, next)
    requires SentSoFar(job, before, now, sent, start)
    requires start < |before| && end == Least(start + job.batch, |before|) && start <= end <= |before|
    requires BuildEnd(job, now, start, end).None? && error == SendEnd(job, now, start, end, |sent|)
    requires st
          == StatementOf(job.d, job.prefix, Tail(job.d, job.returning), RowsArgs(job.w, job.chosen, now[start..end]))
    requires if job.returning == [] || job.replies(|sent|).Failure? then next == now
             else
               && Span(job.w, now, start, end, job.replies(|sent|))
               && Replied(job.w, now, next, start, end, job.replies(|sent|))
    ensures error.None? ==> SentSoFar(job, before, next, sent + [st], end)
    ensures error.Some? ==> Finished(job, before, next, sent + [st], error)
  {
    hide Planned, Ready, SentUpTo, Done, Halted, EndOf;
    hide SendEnd, BuildEnd, Elements, Span, Replied, StatementOf, RowsArgs;
    NextBatch(job, |before|, |sent|, start, end);
    SentStatement(job, before, now, sent, start, end, st);
    PrefixSent(job, before, sent + [st], end);
    SentEnd(job, before, now, sent, start, end, error);
    BatchDone(job, before, now, next, |sent|, start, end, error);
  }

  lemma SentEnd(job: Job, before: seq<Option<Val>>, now: seq<Option<Val>>, sent: seq<Statement>,
                start: nat, end: nat, error: Option<InsertError>)
    requires |before| == |now| && Ready(job, before) && Ready(job, now) && SameOutside(before, now, 0, start)
    requires start == Lo(job, |before|, |sent|) && end == Hi(job, |before|, |sent|)
    requires BuildEnd(job, now, start, end).None? && error == SendEnd(job, now, start, end, |sent|)
    ensures EndOf(job, before, |sent|) == error
    ensures error.Some? ==> !BeforeSending(error.value)
    ensures error.Some? && error.value.Refused? <==> job.replies(|sent|).Failure?
  {
    hide RowBack, Usable, Columns;
    SameBuild(job, before, now, start, end);
    if job.returning != [] && job.replies(|sent|).Rows? {
      SameBack(job.w, before, now, start, end, job.replies(|sent|));
    }
  }

  lemma BatchDone(job: Job, before: seq<Option<Val>>, now: seq<Option<Val>>, next: seq<Option<Val>>, n: nat,
                  start: nat, end: nat, error: Option<InsertError>)
    requires |before| == |now| == |next| && Ready(job, before)
    requires Done(job, before, now, n) && SameOutside(before, now, 0, start)
    requires start == Lo(job, |before|, n) == n * job.batch && end == Hi(job, |before|, n) && start < |before|
    requires EndOf(job, before, n) == error && (error.Some? ==> !BeforeSending(error.value))
    requires error.Some? && error.value.Refused? <==> job.replies(n).Failure?
    requires if job.returning == [] || job.replies(n).Failure? then next == now
             else Span(job.w, now, start, end, job.replies(n)) && Replied(job.w, now, next, start, end, job.replies(n))
    ensures error.None? ==> Done(job, before, next, n + 1) && SameOutside(before, next, 0, end)
    ensures error.Some? ==> Halted(job, before, next, n, error.value)
  {
    hide EndOf, Span, Replied, WrittenBack, Columns, Usable, BatchReplied, Reach;
    if job.returning != [] && job.replies(n).Rows? {
      RepliedFromStart(job.w, before, now, next, start, end, job.replies(n));
      SpanReach(job.w, before, start, end, job.replies(n));
      BatchRepliedHere(job, before, next, n);
    }
    DoneKept(job, before, now, next, n);
  }

  lemma BatchRepliedHere(job: Job, before: seq<Option<Val>>, next: seq<Option<Val>>, n: nat)
    requires |before| == |next| && Ready(job, before)
    requires var lo, hi, reply := Lo(job, |before|, n), Hi(job, |before|, n), job.replies(n);
             && Span(job.w, before, lo, hi, reply)
             && WrittenBack(job.w, before, next, lo, hi, reply, FirstBad(job.w, before, lo, hi, reply, 0))
    ensures BatchReplied(job, before, next, n)
  {
  }

  lemma SpanReach(w: Target, vs: seq<Option<Val>>, lo: nat, hi: nat, reply: Reply)
    requires Span(w, vs, lo, hi, reply)
    ensures lo + Reach(w, vs, lo, hi, reply) <= hi <= |vs|
  {
    hide RowBack;
  }

  lemma SentStatement(job: Job, before: seq<Option<Val>>, now: seq<Option<Val>>, sent: seq<Statement>,
                      start: nat, end: nat, st: Statement)
    requires |before| == |now| && Ready(job, before) && Ready(job, now) && SameOutside(before, now, 0, start)
    requires start < |before| && end == Least(start + job.batch, |before|) && start <= end <= |before|
    requires SentUpTo(job, before, sent, start)
    requires st
          == StatementOf(job.d, job.prefix, Tail(job.d, job.returning), RowsArgs(job.w, job.chosen, now[start..end]))
    ensures SentUpTo(job, before, sent + [st], end)
  {
    hide Planned, Statements, Columns, Usable, StatementOf, Tail, RowArgs;
    var rows, tail := RowsArgs(job.w, job.chosen, before), Tail(job.d, job.returning);
    assert now[start..end] == before[start..end];
    assert RowsArgs(job.w, job.chosen, before[start..end]) == rows[start..end];
    hide RowsArgs;
    StatementsStep(job.d, job.prefix, tail, rows, job.batch, start);
    var rest := Statements(job.d, job.prefix, tail, rows[end..], job.batch);
    assert sent + ([st] + rest) == sent + [st] + rest;
  }

  lemma SentAll(job: Job, before: seq<Option<Val>>, now: seq<Option<Val>>, sent: seq<Statement>, start: nat)
    requires |before| == |now| && Ready(job, before) && SentSoFar(job, before, now, sent, start) && start == |before|
    ensures Finished(job, before, now, sent, None)
  {
    hide RowsArgs, Ready, StatementOf, Done;
  }

  // ----- inserting

  // The job an insert comes down to, when it comes that far.
  function JobFor(d: Dialect, table: string, c: WriteConfig, w: Target, n: nat, replies: nat -> Reply): Job
    requires Writable(w.fields, c, false) != []
  {
    var chosen := Writable(w.fields, c, false);
    Job(d, Prefix(d, table, chosen), c.returning, w, chosen, BatchSize(n, |chosen|, d.maxPlaceholders), replies)
  }

  // The outcome of inserting all of vs: nothing to do, one of the refusals made
  // before anything is sent, or the end of the job.
  ghost predicate Inserted(d: Dialect, table: string, c: WriteConfig, w: Target, before: seq<Option<Val>>,
                           after: seq<Option<Val>>, replies: nat -> Reply, sent: seq<Statement>,
                           error: Option<InsertError>)
    requires |before| == |after| && Elements(w, before) && forall k :: WellFormed(replies(k))
  {
    var chosen := Writable(w.fields, c, false);
    WritableColumns(w, c);
    if before == [] then error.None? && sent == []
    else if before[0].None? then error == Some(NilElement(0)) && sent == [] && after == before
    else if chosen == [] then error == Some(NoColumns) && sent == [] && after == before
    else
      var job := JobFor(d, table, c, w, |before|, replies);
      if job.batch < 1 then error == Some(TooWide) && sent == [] && after == before
      else Finished(job, before, after, sent, error)
  }

  lemma WritableColumns(w: Target, c: WriteConfig)
    requires Usable(w)
    ensures Columns(w, Writable(w.fields, c, false))
  {
    var chosen := Writable(w.fields, c, false);
    WritableExactly(w.fields, c, false);
    forall j | 0 <= j < |chosen|
      ensures LeafPath(w.g, Struct(w.t), chosen[j].index)
    {
      assert chosen[j] in w.fields;
    }
  }

  method InsertMany(d: Dialect, table: string, c: WriteConfig, w: Target, vs: array<Option<Val>>, replies: nat -> Reply)
    returns (sent: seq<Statement>, error: Option<InsertError>)
    requires Elements(w, vs[..]) && forall k :: WellFormed(replies(k))
    modifies vs
    ensures Inserted(d, table, c, w, old(vs[..]), vs[..], replies, sent, error)
  {
    hide Usable, Typed, Columns, Prefix, Finished;
    sent := [];
    if vs.Length == 0 {
      return [], None;
    }
    assert vs[..][0] == vs[0];
    if vs[0].None? {
      return [], Some(NilElement(0));
    }
    var chosen := WritableFields(w.fields, c, false);
    WritableColumns(w, c);
    if |chosen| == 0 {
      return [], Some(NoColumns);
    }
    var batch := BatchSize(vs.Length, |chosen|, d.maxPlaceholders);
    if batch < 1 {
      return [], Some(TooWide);
    }
    sent, error := SendAll(Job(d, Prefix(d, table, chosen), c.returning, w, chosen, batch, replies), vs);
  }

  // When inserting succeeds, the statements sent carry every element's values
  // once, in order, each row whole; none binds more than a positive limit, and no
  // split of whole rows that respects the limit takes fewer statements.
  lemma InsertedExactly(d: Dialect, table: string, c: WriteConfig, w: Target, before: seq<Option<Val>>,
                        after: seq<Option<Val>>, replies: nat -> Reply, sent: seq<Statement>, sizes: seq<nat>)
    requires |before| == |after| && Elements(w, before) && before != [] && forall k :: WellFormed(replies(k))
    requires Inserted(d, table, c, w, before, after, replies, sent, None)
    ensures var chosen := Writable(w.fields, c, false);
            && chosen != [] && Columns(w, chosen)
            && AllArgs(sent) == QueryArguments.Flat(RowsArgs(w, chosen, before))
            && (forall k :: 0 <= k < |sent| && d.maxPlaceholders > 0 ==> |sent[k].args| <= d.maxPlaceholders)
            && (Sum(sizes) == |before|
                && (forall k :: 0 <= k < |sizes| && d.maxPlaceholders > 0 ==> sizes[k] * |chosen| <= d.maxPlaceholders)
                ==> |sent| <= |sizes|)
  {
    hide Statements, Batches, BatchSize, Usable, RowArgs, Prefix, Tail, Done, Sum, Columns;
    var job := JobFor(d, table, c, w, |before|, replies);
    var chosen := job.chosen;
    WritableColumns(w, c);
    var rows, tail := RowsArgs(w, chosen, before), Tail(d, c.returning);
    TailUnbound(d, c.returning);
    FinishesWellExactly(job, before, after, sent, None);
    RowWidths(w, chosen, before);
    StatementsCarryRows(d, job.prefix, tail, rows, job.batch, |chosen|);
    forall k | 0 <= k < |sent| && d.maxPlaceholders > 0
      ensures |sent[k].args| <= d.maxPlaceholders
    {
      StatementsWithinLimit(d, job.prefix, tail, rows, |chosen|, k);
    }
    if Sum(sizes) == |before|
       && forall k :: 0 <= k < |sizes| && d.maxPlaceholders > 0 ==> sizes[k] * |chosen| <= d.maxPlaceholders {
      FewestStatements(|before|, |chosen|, d.maxPlaceholders, sizes);
    }
  }

  lemma RowWidths(w: Target, chosen: seq<Field>, vs: seq<Option<Val>>)
    requires Elements(w, vs) && Columns(w, chosen) && forall i :: 0 <= i < |vs| ==> vs[i].Some?
    ensures forall i :: 0 <= i < |vs| ==> |RowsArgs(w, chosen, vs)[i]| == |chosen|
  {
    hide Lookup, LeafPath, Typed;
  }
}
