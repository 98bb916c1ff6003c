// The text of every statement that inserts rows: the names in it are read back out
// of it, and each is the column its placeholders' values are taken from.

module InsertText {
  import opened Wrappers
  import opened Mapper
  import opened RowValues
  import opened WriteBack
  import opened Dialects
  import opened NameLists
  import opened Inserting
  import C = Conditions
  import CE = ConditionErrors
  import CA = ConditionArguments
  import Q = Quoting
  import Queries
  import QueryArguments
  import QueryText
  import Layout

  // ----- the columns written

  function ColumnsOf(fields: seq<Field>): (columns: seq<string>)
    ensures |columns| == |fields| && forall k :: 0 <= k < |fields| ==> columns[k] == fields[k].column
  {
    seq(|fields|, k requires 0 <= k < |fields| => fields[k].column)
  }

  function WrittenColumns(w: Target, c: WriteConfig): seq<string> {
    ColumnsOf(Writable(w.fields, c, false))
  }

  ghost predicate FromOn(fields: seq<Field>, byName: map<string, nat>, start: nat) {
    forall k :: 0 <= k < |fields| ==> fields[k].column in byName && byName[fields[k].column] >= start
  }

  ghost predicate Ascending(fields: seq<Field>, byName: map<string, nat>)
    requires FromOn(fields, byName, 0)
  {
    forall j, l :: 0 <= j < l < |fields| ==> byName[fields[j].column] < byName[fields[l].column]
  }

  lemma {:induction false} InFieldOrder(fields: seq<Field>, c: WriteConfig, byName: map<string, nat>, start: nat)
    requires forall k :: 0 <= k < |fields| ==> fields[k].column in byName && byName[fields[k].column] == start + k
    ensures FromOn(Writable(fields, c, false), byName, start)
    ensures Ascending(Writable(fields, c, false), byName)
  {
    hide Chosen;
    if fields != [] {
      InFieldOrder(fields[1..], c, byName, start + 1);
      var rest := Writable(fields[1..], c, false);
      if Chosen(c, false, fields[0]) {
        assert Writable(fields, c, false) == [fields[0]] + rest;
      } else {
        assert Writable(fields, c, false) == rest;
      }
    }
  }

  // The columns written are, in field order, those that are not readonly and that
  // Only names, or, without Only, that Omit does not name.
  lemma WrittenExactly(w: Target, c: WriteConfig)
    requires Usable(w)
    ensures var columns := WrittenColumns(w, c);
            && (forall i :: 0 <= i < |w.fields| ==>
                  var f := w.fields[i];
                  f.column in columns <==>
                  !f.readonly && (if c.only == [] then f.column !in c.omit else f.column in c.only))
            && (forall j :: 0 <= j < |columns| ==> columns[j] in w.byName)
            && forall j, l :: 0 <= j < l < |columns| ==> w.byName[columns[j]] < w.byName[columns[l]]
  {
    hide LeafPath, Writable;
    var chosen := Writable(w.fields, c, false);
    var columns := WrittenColumns(w, c);
    WritableExactly(w.fields, c, false);
    InFieldOrder(w.fields, c, w.byName, 0);
    assert forall j :: 0 <= j < |columns| ==> columns[j] == chosen[j].column && chosen[j].column in w.byName;
    forall i | 0 <= i < |w.fields|
      ensures w.fields[i].column in columns <==> Chosen(c, false, w.fields[i])
    {
      var f := w.fields[i];
      if f.column in columns {
        var j :| 0 <= j < |columns| && columns[j] == f.column;
        assert chosen[j] in w.fields;
        var l :| 0 <= l < |w.fields| && w.fields[l] == chosen[j];
        assert w.byName[f.column] == l && w.byName[f.column] == i;
      }
      if Chosen(c, false, f) {
        assert f in chosen;
        var j :| 0 <= j < |chosen| && chosen[j] == f;
        assert columns[j] == f.column;
      }
    }
  }

  // ----- the text of one statement

  // Names that are quoted whole, dots and all.
  function Whole(names: seq<string>): (columns: seq<seq<string>>)
    ensures |columns| == |names| && forall k :: 0 <= k < |names| ==> columns[k] == [names[k]]
  {
    seq(|names|, k requires 0 <= k < |names| => [names[k]])
  }

  lemma WholeStep(names: seq<string>, q: char)
    requires names != []
    ensures QuotedColumns(Whole(names), q) ==
            Q.Quoted(names[0], q) + (if |names| > 1 then ", " else "") + QuotedColumns(Whole(names[1..]), q)
  {
    hide Q.Quoted;
    assert Whole(names)[1..] == Whole(names[1..]);
    assert [names[0]][1..] == [];
    var first := Q.Quoted(names[0], q);
    assert QuotedList([names[0]], q, ".") == first + "" + QuotedList([], q, ".");
    assert first + "" + "" == first;
  }

  lemma {:induction false} TableText(parts: seq<string>, q: char)
    ensures TableName(parts, q) == QuotedList(parts, q, ".")
  {
    hide Q.Quoted;
    if parts != [] {
      TableText(parts[1..], q);
    }
  }

  lemma {:induction false} ColumnsText(d: Dialect, chosen: seq<Field>)
    ensures ColumnNames(d, chosen) == QuotedColumns(Whole(ColumnsOf(chosen)), d.quote)
  {
    hide Q.Quoted;
    if chosen != [] {
      ColumnsText(d, chosen[1..]);
      assert ColumnsOf(chosen)[1..] == ColumnsOf(chosen[1..]);
      hide QuotedColumns;
      WholeStep(ColumnsOf(chosen), d.quote);
    }
  }

  lemma {:induction false} NamesText(d: Dialect, names: seq<string>, n: nat)
    ensures C.Written(d, Names(d, names), n) == QuotedColumns(Whole(names), d.quote)
  {
    hide Q.Quoted, C.Written, C.Args;
    if names == [] {
      QueryText.NothingWritten(d, n);
    } else {
      var name := C.Verbatim(Q.Quoted(names[0], d.quote));
      var sep := Queries.Sep(|names| > 1);
      NamesText(d, names[1..], n);
      CA.NoArgs([name]);
      CA.NoArgs(sep);
      QueryText.InThree(d, [name], sep, Names(d, names[1..]), n, n, n);
      C.WrittenOne(d, name, n);
      QueryText.SepText(d, |names| > 1, n);
      hide QuotedColumns;
      WholeStep(names, d.quote);
    }
  }

  function BackText(d: Dialect, returning: seq<string>): string {
    if returning == [] then "" else " RETURNING " + QuotedColumns(Whole(returning), d.quote)
  }

  lemma TailText(d: Dialect, returning: seq<string>, n: nat)
    ensures C.Written(d, Tail(d, returning), n) == BackText(d, returning)
  {
    hide C.Written, C.Args, Names, QuotedColumns;
    if returning == [] {
      QueryText.NothingWritten(d, n);
    } else {
      var word := C.Verbatim(" RETURNING ");
      CA.NoArgs([word]);
      C.WrittenOne(d, word, n);
      NamesText(d, returning, n);
      C.WrittenAppend(d, [word], Names(d, returning), n);
    }
  }

  lemma BatchText(d: Dialect, prefix: string, returning: seq<string>, rows: seq<seq<Value>>)
    ensures StatementOf(d, prefix, Tail(d, returning), rows).text
         == prefix + CE.Listed(QueryText.TupleTexts(d, 0, rows), ", ") + BackText(d, returning)
  {
    hide C.Written, C.Args, Queries.Tuples, Tail, BackText, CE.Listed, QueryText.TupleTexts;
    CA.NoArgs([C.Verbatim(prefix)]);
    C.WrittenOne(d, C.Verbatim(prefix), 0);
    QueryText.TuplesText(d, rows, 0);
    var m := |C.Args(Queries.Tuples(rows))|;
    TailText(d, returning, m);
    QueryText.InThree(d, [C.Verbatim(prefix)], Queries.Tuples(rows), Tail(d, returning), 0, 0, m);
  }

  // The r-th row of placeholders, numbered on from the rows before it.
  function TupleAt(d: Dialect, width: nat, r: nat): string {
    "(" + CE.Listed(seq(width, j requires 0 <= j < width => Layout.Mark(d, r * width + j + 1)), ", ") + ")"
  }

  function TuplesOf(d: Dialect, count: nat, width: nat): string {
    CE.Listed(seq(count, r requires 0 <= r < count => TupleAt(d, width, r)), ", ")
  }

  lemma {:induction false} MarksAt(d: Dialect, n: nat, count: nat)
    ensures QueryText.MarkTexts(d, n, count) == seq(count, j requires 0 <= j < count => Layout.Mark(d, n + j + 1))
    decreases count
  {
    hide Layout.Mark;
    if count > 0 {
      MarksAt(d, n + 1, count - 1);
      var all := seq(count, j requires 0 <= j < count => Layout.Mark(d, n + j + 1));
      var rest := seq(count - 1, j requires 0 <= j < count - 1 => Layout.Mark(d, n + 1 + j + 1));
      assert forall j :: 0 <= j < count - 1 ==> rest[j] == all[j + 1];
      assert all == [Layout.Mark(d, n + 1)] + rest;
    }
  }

  lemma {:induction false} TuplesAt(d: Dialect, rows: seq<seq<Value>>, width: nat, start: nat)
    requires forall i :: 0 <= i < |rows| ==> |rows[i]| == width
    ensures QueryText.TupleTexts(d, start * width, rows)
         == seq(|rows|, r requires 0 <= r < |rows| => TupleAt(d, width, start + r))
    decreases |rows|
  {
    hide Layout.Mark, CE.Listed, QueryText.MarkTexts;
    if rows != [] {
      TuplesAt(d, rows[1..], width, start + 1);
      MarksAt(d, start * width, width);
      assert (start + 1) * width == start * width + width;
      var all := seq(|rows|, r requires 0 <= r < |rows| => TupleAt(d, width, start + r));
      var rest := seq(|rows| - 1, r requires 0 <= r < |rows| - 1 => TupleAt(d, width, start + 1 + r));
      assert forall r :: 0 <= r < |rows| - 1 ==> rest[r] == all[r + 1];
      assert all == [TupleAt(d, width, start)] + rest;
    }
  }

  lemma TuplesAre(d: Dialect, rows: seq<seq<Value>>, width: nat)
    requires forall i :: 0 <= i < |rows| ==> |rows[i]| == width
    ensures CE.Listed(QueryText.TupleTexts(d, 0, rows), ", ") == TuplesOf(d, |rows|, width)
  {
    hide TupleAt, CE.Listed, QueryText.TupleTexts;
    TuplesAt(d, rows, width, 0);
    var a := seq(|rows|, r requires 0 <= r < |rows| => TupleAt(d, width, 0 + r));
    var b := seq(|rows|, r requires 0 <= r < |rows| => TupleAt(d, width, r));
    assert a == b;
  }

  // What a statement says: the table's parts, the columns, as many rows of
  // placeholders as there are rows, and the columns asked back.
  predicate Says(d: Dialect, text: string, table: seq<string>, columns: seq<string>, count: nat,
                 returning: seq<string>)
  {
    var head := ReadInsert(text, d.quote);
    var tuples := TuplesOf(d, count, |columns|);
    && head.Some? && head.value.table == table && head.value.columns == Whole(columns)
    && StartsWith(head.value.rest, tuples)
    && var back := head.value.rest[|tuples|..];
       if returning == [] then back == "" else ReadReturning(back, d.quote) == Some(Whole(returning))
  }

  lemma StatementSays(d: Dialect, table: string, chosen: seq<Field>, returning: seq<string>, rows: seq<seq<Value>>)
    requires chosen != [] && QuoteByte(d.quote) && forall i :: 0 <= i < |rows| ==> |rows[i]| == |chosen|
    ensures Says(d, StatementOf(d, Prefix(d, table, chosen), Tail(d, returning), rows).text, C.Split(table),
                 ColumnsOf(chosen), |rows|, returning)
  {
    hide *;
    var columns, returned := ColumnsOf(chosen), BackText(d, returning);
    TuplesAre(d, rows, |chosen|);
    PrefixText(d, table, chosen);
    BatchText(d, Prefix(d, table, chosen), returning, rows);
    TextSays(d, C.Split(table), columns, |rows|, returning);
  }

  function HeadText(parts: seq<string>, columns: seq<string>, q: char): string {
    "INSERT INTO " + QuotedList(parts, q, ".") + " (" + QuotedColumns(Whole(columns), q) + ") VALUES "
  }

  lemma PrefixText(d: Dialect, table: string, chosen: seq<Field>)
    ensures Prefix(d, table, chosen) == HeadText(C.Split(table), ColumnsOf(chosen), d.quote)
  {
    hide TableName, ColumnNames, QuotedList, QuotedColumns, Whole, ColumnsOf, C.Split;
    TableText(C.Split(table), d.quote);
    ColumnsText(d, chosen);
  }

  lemma TextSays(d: Dialect, parts: seq<string>, columns: seq<string>, count: nat, returning: seq<string>)
    requires parts != [] && columns != [] && QuoteByte(d.quote)
    ensures Says(d, HeadText(parts, columns, d.quote) + TuplesOf(d, count, |columns|) + BackText(d, returning), parts,
                 columns, count, returning)
  {
    hide QuotedList, QuotedColumns, ReadInsert, ReadReturning, TuplesOf;
    var q, names := d.quote, Whole(columns);
    var tuples, back := TuplesOf(d, count, |columns|), BackText(d, returning);
    InsertHeadReadsBack(parts, names, q, tuples + back);
    Grouped("INSERT INTO ", QuotedList(parts, q, "."), " (", QuotedColumns(names, q), ") VALUES ", tuples, back);
    assert (tuples + back)[|tuples|..] == back;
    if returning != [] {
      ReturningReadsBack(Whole(returning), q);
    }
  }

  lemma Grouped(a: string, b: string, c: string, e: string, f: string, g: string, h: string)
    ensures a + b + c + e + f + g + h == a + (b + (c + (e + (f + (g + h)))))
  {
  }

  // ----- the values of one statement

  // The j-th value of the r-th row.
  function Arg(args: seq<Value>, width: nat, r: nat, j: nat): Option<Value> {
    if r * width + j < |args| then Some(args[r * width + j]) else None
  }

  lemma {:induction false} FlatAt(rows: seq<seq<Value>>, width: nat, r: nat, j: nat)
    requires (forall i :: 0 <= i < |rows| ==> |rows[i]| == width) && r < |rows| && j < width
    ensures Arg(QueryArguments.Flat(rows), width, r, j) == Some(rows[r][j])
  {
    var rest := QueryArguments.Flat(rows[1..]);
    if r > 0 {
      FlatAt(rows[1..], width, r - 1, j);
      assert r * width + j == width + ((r - 1) * width + j);
    }
  }

  lemma {:induction false} StatementAt(d: Dialect, prefix: string, tail: seq<C.Piece>, rows: seq<seq<Value>>,
                                       batch: nat, k: nat)
    requires batch > 0 && k < |Statements(d, prefix, tail, rows, batch)|
    ensures k * batch < |rows|
    ensures Statements(d, prefix, tail, rows, batch)[k]
         == StatementOf(d, prefix, tail, rows[k * batch..Least(k * batch + batch, |rows|)])
    decreases k
  {
    hide StatementOf;
    if k == 0 {
      assert rows[0..Least(batch, |rows|)] == if |rows| <= batch then rows else rows[..batch];
    } else {
      var rest := rows[batch..];
      StatementAt(d, prefix, tail, rest, batch, k - 1);
      assert k * batch == (k - 1) * batch + batch;
      var lo := (k - 1) * batch;
      var hi := Least(lo + batch, |rest|);
      assert batch + hi == Least(k * batch + batch, |rows|);
      assert rest[lo..hi] == rows[batch + lo..batch + hi];
      assert rest[lo..Least(lo + batch, |rest|)] == rows[k * batch..Least(k * batch + batch, |rows|)];
    }
  }

  function CellUnder(w: Target, v: Val, column: string): Cell
    requires Element(w, v) && column in w.byName
  {
    Lookup(w.g, Struct(w.t), v, PathFor(w, column))
  }

  // The values of a statement: of each element in turn, under each column in turn,
  // the cell its field of that name reads.
  ghost predicate Carries(w: Target, columns: seq<string>, args: seq<Value>, vs: seq<Option<Val>>) {
    && |args| == |vs| * |columns|
    && forall r, j :: 0 <= r < |vs| && 0 <= j < |columns| ==>
         && vs[r].Some? && Element(w, vs[r].value) && columns[j] in w.byName
         && var cell := CellUnder(w, vs[r].value, columns[j]);
            Arg(args, |columns|, r, j) == Some(if cell.Null? then Value.Null else Scalar(cell.n))
  }

  lemma ChosenCell(w: Target, c: WriteConfig, v: Val, j: nat)
    requires Element(w, v) && Columns(w, Writable(w.fields, c, false)) && j < |WrittenColumns(w, c)|
    ensures var column := WrittenColumns(w, c)[j];
            && column in w.byName
            && RowArgs(w, Writable(w.fields, c, false), Some(v))[j] == ArgOf(CellUnder(w, v, column))
  {
    hide LeafPath, Writable, Typed, Lookup;
    var chosen := Writable(w.fields, c, false);
    WritableExactly(w.fields, c, false);
    assert chosen[j] in w.fields;
  }

  lemma StatementCarries(d: Dialect, prefix: string, w: Target, c: WriteConfig, vs: seq<Option<Val>>)
    requires Elements(w, vs) && forall i :: 0 <= i < |vs| ==> vs[i].Some?
    ensures var chosen := Writable(w.fields, c, false);
            && Columns(w, chosen)
            && Carries(w, WrittenColumns(w, c),
                       StatementOf(d, prefix, Tail(d, c.returning), RowsArgs(w, chosen, vs)).args, vs)
  {
    hide Element, Usable, Writable, QueryArguments.Flat, Arg, CellUnder, Columns, StatementOf, Tail, RowArgs;
    var chosen, columns := Writable(w.fields, c, false), WrittenColumns(w, c);
    WritableColumns(w, c);
    var rows := RowsArgs(w, chosen, vs);
    RowWidths(w, chosen, vs);
    TailUnbound(d, c.returning);
    StatementArgs(d, prefix, Tail(d, c.returning), rows);
    FlatSize(rows, |chosen|);
    forall r, j | 0 <= r < |vs| && 0 <= j < |columns|
      ensures columns[j] in w.byName
      ensures Arg(QueryArguments.Flat(rows), |columns|, r, j) == Some(ArgOf(CellUnder(w, vs[r].value, columns[j])))
    {
      ChosenCell(w, c, vs[r].value, j);
      FlatAt(rows, |chosen|, r, j);
    }
  }

  // A statement that was sent is the one planned, and its elements are not nil.
  lemma SentAsPlanned(job: Job, before: seq<Option<Val>>, after: seq<Option<Val>>, sent: seq<Statement>,
                      error: Option<InsertError>, k: nat)
    requires |before| == |after| && Ready(job, before) && Finished(job, before, after, sent, error) && k < |sent|
    ensures k < |Planned(job, before)| && sent[k] == Planned(job, before)[k]
    ensures BatchNotNil(job, before, k)
  {
    hide Planned, Ready, BatchReplied, SendEnd;
    assert EndOf(job, before, k).None? || !BeforeSending(EndOf(job, before, k).value);
    assert BuildEnd(job, before, Lo(job, |before|, k), Hi(job, |before|, k)).None?;
  }

  // The k-th batch of some elements.
  function Batch<T>(vs: seq<T>, size: nat, k: nat): seq<T> {
    if k * size >= |vs| then []
    else if k * size + size < |vs| then vs[k * size..k * size + size]
    else vs[k * size..]
  }

  // Every statement that inserting sends, however it ends: it names the table by its
  // parts and the columns written, it has a row of placeholders for each element of
  // its batch, and the value under each column is that element's own.
  lemma SentExactly(d: Dialect, table: string, c: WriteConfig, w: Target, before: seq<Option<Val>>,
                    after: seq<Option<Val>>, replies: nat -> Reply, sent: seq<Statement>,
                    error: Option<InsertError>, k: nat)
    requires |before| == |after| && Elements(w, before) && forall i :: WellFormed(replies(i))
    requires Inserted(d, table, c, w, before, after, replies, sent, error) && k < |sent| && QuoteByte(d.quote)
    ensures var columns, n, max := WrittenColumns(w, c), |before|, d.maxPlaceholders;
            && columns != []
            && var size := if max > 0 && max / |columns| < n then max / |columns| else n;
            && var batch := Batch(before, size, k);
            && batch != []
            && Says(d, sent[k].text, C.Split(table), columns, |batch|, c.returning)
            && Carries(w, columns, sent[k].args, batch)
  {
    hide Finished, Usable, Element, Statements, StatementOf, Carries, Says, Prefix, Tail, C.Split;
    hide RowsArgs, Writable, Columns;
    var job := JobFor(d, table, c, w, |before|, replies);
    WritableColumns(w, c);
    SentAsPlanned(job, before, after, sent, error, k);
    StatementAt(d, job.prefix, Tail(d, c.returning), RowsArgs(w, job.chosen, before), job.batch, k);
    var lo, hi := k * job.batch, Least(k * job.batch + job.batch, |before|);
    BatchRows(w, job.chosen, before, lo, hi);
    NotNilThere(job, before, k);
    assert Batch(before, job.batch, k) == before[lo..hi];
    RowWidths(w, job.chosen, before[lo..hi]);
    StatementSays(d, table, job.chosen, c.returning, RowsArgs(w, job.chosen, before[lo..hi]));
    StatementCarries(d, job.prefix, w, c, before[lo..hi]);
  }

  lemma NotNilThere(job: Job, vs: seq<Option<Val>>, k: nat)
    requires k * job.batch < |vs| && BatchNotNil(job, vs, k)
    ensures var lo, hi := k * job.batch, Least(k * job.batch + job.batch, |vs|);
            forall i :: 0 <= i < hi - lo ==> vs[lo..hi][i].Some?
  {
  }

  lemma BatchRows(w: Target, chosen: seq<Field>, vs: seq<Option<Val>>, lo: nat, hi: nat)
    requires Elements(w, vs) && Columns(w, chosen) && lo <= hi <= |vs|
    ensures Elements(w, vs[lo..hi]) && RowsArgs(w, chosen, vs[lo..hi]) == RowsArgs(w, chosen, vs)[lo..hi]
  {
    hide Usable, Typed, LeafPath, RowArgs;
  }
}
