// The statement builders: SELECT, INSERT, UPDATE and DELETE, written through one
// writer, so that placeholders and arguments keep in step across every clause.

module Queries {
  import opened Wrappers
  import opened Numerals
  import opened Dialects
  import opened Conditions
  import opened ConditionErrors
  import opened ConditionWriter

  datatype QueryError =
    | InCondition(error: WriteError)
    | NoTable
    | NoValues
    | RowWidth(row: nat)
    | SetsNothing
    | NoWhere
    | NoReturning

  // A table reference, its text already split, and an ordering term likewise.
  datatype TableRef = Table(name: string) | Aliased(name: string, word: string, alias: string) | Other(text: string)

  datatype OrderTerm = Directed(col: string, direction: string) | Term(text: string)

  datatype Join = Join(kind: string, table: TableRef, on: Expr)

  datatype SelectQuery = SelectQuery(
    distinct: bool, columns: seq<string>, from: Option<TableRef>, joins: seq<Join>, conds: seq<Expr>,
    groupBy: seq<string>, having: seq<Expr>, orderBy: seq<OrderTerm>, limit: Option<int>, offset: Option<int>)

  datatype InsertQuery = InsertQuery(
    table: string, columns: seq<string>, rows: seq<seq<Value>>, conflict: string, returning: seq<string>)

  datatype SetPair = SetTo(col: string, val: Value) | SetExpr(col: string, raw: Expr)

  datatype UpdateQuery = UpdateQuery(table: string, sets: seq<SetPair>, conds: seq<Expr>, returning: seq<string>)

  datatype DeleteQuery = DeleteQuery(table: string, conds: seq<Expr>, returning: seq<string>)

  datatype Built = Built(text: string, args: seq<Value>)

  type Written3 = Result<seq<Piece>, QueryError>

  // ----- what each clause is written as

  const SEP: Piece := Verbatim(", ")

  function Lift(r: Result<seq<Piece>, WriteError>): Written3 {
    if r.Ok? then Ok(r.value) else Err(InCondition(r.error))
  }

  function Sep(more: bool): seq<Piece> {
    if more then [SEP] else []
  }

  function Idents(cols: seq<string>): seq<Piece> {
    if cols == [] then [] else [Column(cols[0])] + Sep(|cols| > 1) + Idents(cols[1..])
  }

  function TablePieces(t: TableRef): seq<Piece> {
    match t
    case Table(name) => [Column(name)]
    case Aliased(name, word, alias) => [Column(name), Verbatim(word), Column(alias)]
    case Other(text) => [Verbatim(text)]
  }

  function JoinPieces(d: Dialect, j: Join): Written3 {
    var head := [Verbatim(" "), Verbatim(j.kind), Verbatim(" ")] + TablePieces(j.table);
    if j.on.Nil? then Ok(head)
    else
      var on :- Lift(Pieces(d, j.on));
      Ok(head + [Verbatim(" ON ")] + on)
  }

  function JoinsPieces(d: Dialect, js: seq<Join>): Written3 {
    if js == [] then Ok([])
    else
      var first :- JoinPieces(d, js[0]);
      var rest :- JoinsPieces(d, js[1..]);
      Ok(first + rest)
  }

  function Clause(d: Dialect, keyword: string, exprs: seq<Expr>): Written3 {
    if exprs == [] then Ok([])
    else
      var ps :- Lift(ClausePieces(d, exprs));
      Ok([Verbatim(keyword)] + ps)
  }

  function ListClause(keyword: string, cols: seq<string>): seq<Piece> {
    if cols == [] then [] else [Verbatim(keyword)] + Idents(cols)
  }

  function TermPieces(t: OrderTerm): seq<Piece> {
    match t
    case Directed(col, direction) => [Column(col), Verbatim(" " + direction)]
    case Term(text) => [Column(text)]
  }

  function Terms(ts: seq<OrderTerm>): seq<Piece> {
    if ts == [] then [] else TermPieces(ts[0]) + Sep(|ts| > 1) + Terms(ts[1..])
  }

  function OrderClause(ts: seq<OrderTerm>): seq<Piece> {
    if ts == [] then [] else [Verbatim(" ORDER BY ")] + Terms(ts)
  }

  function Signed(n: int): string {
    if n < 0 then "-" + Decimal(-n) else Decimal(n)
  }

  function CountClause(keyword: string, n: Option<int>): seq<Piece> {
    if n.None? then [] else [Verbatim(keyword), Verbatim(Signed(n.value))]
  }

  function Returning(d: Dialect, cols: seq<string>): Written3 {
    if cols != [] && !d.returning then Err(NoReturning) else Ok(ListClause(" RETURNING ", cols))
  }

  // ----- the statements

  function SelectHead(q: SelectQuery): seq<Piece> {
    [Verbatim("SELECT ")] + (if q.distinct then [Verbatim("DISTINCT ")] else [])
    + (if q.columns == [] then [Verbatim("*")] else Idents(q.columns))
    + (if q.from.None? then [] else [Verbatim(" FROM ")] + TablePieces(q.from.value))
  }

  function SelectPieces(d: Dialect, q: SelectQuery): Written3 {
    var joins :- JoinsPieces(d, q.joins);
    var conds :- Clause(d, " WHERE ", q.conds);
    var having :- Clause(d, " HAVING ", q.having);
    Ok(SelectHead(q) + joins + conds + ListClause(" GROUP BY ", q.groupBy) + having + OrderClause(q.orderBy)
       + CountClause(" LIMIT ", q.limit) + CountClause(" OFFSET ", q.offset))
  }

  function Binds(vals: seq<Value>): seq<Piece> {
    if vals == [] then [] else [Bound(vals[0])] + Sep(|vals| > 1) + Binds(vals[1..])
  }

  function Tuples(rows: seq<seq<Value>>): seq<Piece> {
    if rows == [] then []
    else ([Open] + Binds(rows[0]) + [Close]) + Sep(|rows| > 1) + Tuples(rows[1..])
  }

  // The first row that does not match the named columns, if any, or |rows|.
  function BadRow(columns: seq<string>, rows: seq<seq<Value>>): (i: nat)
    ensures i <= |rows|
    ensures forall k :: 0 <= k < i ==> columns == [] || |rows[k]| == |columns|
    ensures i < |rows| ==> columns != [] && |rows[i]| != |columns|
  {
    if rows == [] || (columns != [] && |rows[0]| != |columns|) then 0 else 1 + BadRow(columns, rows[1..])
  }

  function NamedColumns(columns: seq<string>): seq<Piece> {
    if columns == [] then [] else [Verbatim(" (")] + Idents(columns) + [Close]
  }

  function Conflict(conflict: string): seq<Piece> {
    if conflict == "" then [] else [Verbatim(" ON CONFLICT "), Verbatim(conflict)]
  }

  function InsertPieces(d: Dialect, q: InsertQuery): Written3 {
    if q.table == "" then Err(NoTable)
    else if q.rows == [] then Err(NoValues)
    else if BadRow(q.columns, q.rows) < |q.rows| then Err(RowWidth(BadRow(q.columns, q.rows)))
    else
      var returning :- Returning(d, q.returning);
      Ok([Verbatim("INSERT INTO "), Column(q.table)]
         + NamedColumns(q.columns)
         + [Verbatim(" VALUES ")] + Tuples(q.rows)
         + Conflict(q.conflict)
         + returning)
  }

  function SetPieces(d: Dialect, s: SetPair): Written3 {
    match s
    case SetTo(col, val) => Ok([Column(col), Verbatim(" = "), Bound(val)])
    case SetExpr(col, raw) =>
      // A nil expression binds NULL, as a pair without one does.
      if raw.Nil? then Ok([Column(col), Verbatim(" = "), Bound(Value.Null)])
      else
        var ps :- Lift(Pieces(d, raw));
        Ok([Column(col), Verbatim(" = ")] + ps)
  }

  function SetsPieces(d: Dialect, sets: seq<SetPair>): Written3 {
    if sets == [] then Ok([])
    else
      var first :- SetPieces(d, sets[0]);
      var rest :- SetsPieces(d, sets[1..]);
      Ok(first + Sep(|sets| > 1) + rest)
  }

  function UpdatePieces(d: Dialect, q: UpdateQuery): Written3 {
    if q.table == "" then Err(NoTable)
    else if q.sets == [] then Err(SetsNothing)
    else if q.conds == [] then Err(NoWhere)
    else
      var sets :- SetsPieces(d, q.sets);
      var conds :- Clause(d, " WHERE ", q.conds);
      var returning :- Returning(d, q.returning);
      Ok([Verbatim("UPDATE "), Column(q.table), Verbatim(" SET ")] + sets + conds + returning)
  }

  function DeletePieces(d: Dialect, q: DeleteQuery): Written3 {
    if q.table == "" then Err(NoTable)
    else if q.conds == [] then Err(NoWhere)
    else
      var conds :- Clause(d, " WHERE ", q.conds);
      var returning :- Returning(d, q.returning);
      Ok([Verbatim("DELETE FROM "), Column(q.table)] + conds + returning)
  }

  // ----- what refuses a statement, in the order it is looked for

  function ConditionRefusal(refusal: Option<WriteError>): Option<QueryError> {
    if refusal.Some? then Some(InCondition(refusal.value)) else None
  }

  // The first join whose condition cannot be written.
  function JoinsRefusal(d: Dialect, js: seq<Join>): Option<QueryError> {
    if js == [] then None
    else if !js[0].on.Nil? && Refusal(d, js[0].on).Some? then ConditionRefusal(Refusal(d, js[0].on))
    else JoinsRefusal(d, js[1..])
  }

  function ReturningRefusal(d: Dialect, cols: seq<string>): Option<QueryError> {
    if |cols| > 0 && !d.returning then Some(NoReturning) else None
  }

  // A SELECT: its joins, then WHERE, then HAVING.
  function SelectRefusal(d: Dialect, q: SelectQuery): Option<QueryError> {
    if JoinsRefusal(d, q.joins).Some? then JoinsRefusal(d, q.joins)
    else if ListRefusal(d, q.conds).Some? then ConditionRefusal(ListRefusal(d, q.conds))
    else ConditionRefusal(ListRefusal(d, q.having))
  }

  // The first row that is not as wide as the columns named.
  function WidthRefusal(columns: seq<string>, rows: seq<seq<Value>>, i: nat): Option<QueryError>
    requires i <= |rows|
    decreases |rows| - i
  {
    if i == |rows| || |columns| == 0 then None
    else if |rows[i]| != |columns| then Some(RowWidth(i))
    else WidthRefusal(columns, rows, i + 1)
  }

  // An INSERT: no table, no rows, a row of the wrong width, RETURNING without support.
  function InsertRefusal(d: Dialect, q: InsertQuery): Option<QueryError> {
    if |q.table| == 0 then Some(NoTable)
    else if |q.rows| == 0 then Some(NoValues)
    else if WidthRefusal(q.columns, q.rows, 0).Some? then WidthRefusal(q.columns, q.rows, 0)
    else ReturningRefusal(d, q.returning)
  }

  // The first assignment whose expression cannot be written.
  function SetsRefusal(d: Dialect, sets: seq<SetPair>): Option<QueryError> {
    if sets == [] then None
    else if sets[0].SetExpr? && !sets[0].raw.Nil? && Refusal(d, sets[0].raw).Some? then
      ConditionRefusal(Refusal(d, sets[0].raw))
    else SetsRefusal(d, sets[1..])
  }

  // An UPDATE: no table, nothing to set, no WHERE, then its parts in turn.
  function UpdateRefusal(d: Dialect, q: UpdateQuery): Option<QueryError> {
    if |q.table| == 0 then Some(NoTable)
    else if |q.sets| == 0 then Some(SetsNothing)
    else if |q.conds| == 0 then Some(NoWhere)
    else if SetsRefusal(d, q.sets).Some? then SetsRefusal(d, q.sets)
    else if ListRefusal(d, q.conds).Some? then ConditionRefusal(ListRefusal(d, q.conds))
    else ReturningRefusal(d, q.returning)
  }

  // A DELETE: no table, no WHERE, then its parts in turn.
  function DeleteRefusal(d: Dialect, q: DeleteQuery): Option<QueryError> {
    if |q.table| == 0 then Some(NoTable)
    else if |q.conds| == 0 then Some(NoWhere)
    else if ListRefusal(d, q.conds).Some? then ConditionRefusal(ListRefusal(d, q.conds))
    else ReturningRefusal(d, q.returning)
  }

  ghost predicate Answers<T>(r: Result<T, QueryError>, refusal: Option<QueryError>) {
    if refusal.Some? then r == Err(refusal.value) else r.Ok?
  }

  lemma ClauseAnswers(d: Dialect, keyword: string, exprs: seq<Expr>)
    ensures Answers(Clause(d, keyword, exprs), ConditionRefusal(ListRefusal(d, exprs)))
  {
    hide ClausePieces;
    ListExactly(d, exprs);
  }

  lemma {:induction false} JoinsAnswer(d: Dialect, js: seq<Join>)
    ensures Answers(JoinsPieces(d, js), JoinsRefusal(d, js))
  {
    hide Pieces, Refusal, TablePieces;
    if js != [] {
      WritesExactly(d, js[0].on);
      JoinsAnswer(d, js[1..]);
    }
  }

  lemma {:induction false} SetsAnswer(d: Dialect, sets: seq<SetPair>)
    ensures Answers(SetsPieces(d, sets), SetsRefusal(d, sets))
  {
    hide Pieces, Refusal;
    if sets != [] {
      if sets[0].SetExpr? {
        WritesExactly(d, sets[0].raw);
      }
      SetsAnswer(d, sets[1..]);
    }
  }

  lemma SelectAnswers(d: Dialect, q: SelectQuery)
    ensures Answers(SelectPieces(d, q), SelectRefusal(d, q))
  {
    hide JoinsPieces, Clause, ListClause, OrderClause, CountClause, SelectHead, JoinsRefusal, ListRefusal;
    JoinsAnswer(d, q.joins);
    ClauseAnswers(d, " WHERE ", q.conds);
    ClauseAnswers(d, " HAVING ", q.having);
  }

  lemma {:induction false} WidthsAnswer(columns: seq<string>, rows: seq<seq<Value>>, i: nat)
    requires i <= |rows|
    ensures var bad := BadRow(columns, rows[i..]);
            WidthRefusal(columns, rows, i) == if bad < |rows| - i then Some(RowWidth(i + bad)) else None
    decreases |rows| - i
  {
    if i < |rows| {
      assert rows[i..][0] == rows[i] && rows[i..][1..] == rows[i + 1..];
      WidthsAnswer(columns, rows, i + 1);
      if columns == [] {
        var bad := BadRow(columns, rows[i..]);
      }
    }
  }

  lemma InsertAnswers(d: Dialect, q: InsertQuery)
    ensures Answers(InsertPieces(d, q), InsertRefusal(d, q))
  {
    hide NamedColumns, Tuples, Conflict, ListClause, BadRow, WidthRefusal;
    assert q.rows[0..] == q.rows;
    WidthsAnswer(q.columns, q.rows, 0);
  }

  lemma UpdateAnswers(d: Dialect, q: UpdateQuery)
    ensures Answers(UpdatePieces(d, q), UpdateRefusal(d, q))
  {
    hide SetsPieces, Clause, ListClause, SetsRefusal, ListRefusal;
    SetsAnswer(d, q.sets);
    ClauseAnswers(d, " WHERE ", q.conds);
  }

  lemma DeleteAnswers(d: Dialect, q: DeleteQuery)
    ensures Answers(DeletePieces(d, q), DeleteRefusal(d, q))
  {
    hide Clause, ListClause, ListRefusal;
    ClauseAnswers(d, " WHERE ", q.conds);
  }

  // Every condition of a list can be written.
  ghost predicate AllWritable(d: Dialect, exprs: seq<Expr>) {
    forall e :: e in exprs ==> !e.Nil? && Refusal(d, e).None?
  }

  lemma {:induction false} ListWritable(d: Dialect, exprs: seq<Expr>)
    ensures ListRefusal(d, exprs).None? <==> AllWritable(d, exprs)
  {
    hide Refusal;
    if exprs != [] {
      ListWritable(d, exprs[1..]);
      assert exprs == [exprs[0]] + exprs[1..];
    }
  }

  // A DELETE builds if and only if it names a table and has a condition, every
  // condition can be written, and RETURNING is absent or supported.
  lemma DeleteBuilds(d: Dialect, q: DeleteQuery)
    ensures DeleteRefusal(d, q).None? <==>
            && q.table != "" && q.conds != [] && AllWritable(d, q.conds) && (q.returning == [] || d.returning)
  {
    hide ListRefusal, AllWritable;
    ListWritable(d, q.conds);
  }

  // An UPDATE, if and only if it also has an assignment, and each can be written.
  lemma UpdateBuilds(d: Dialect, q: UpdateQuery)
    ensures UpdateRefusal(d, q).None? <==>
            && q.table != "" && q.sets != [] && q.conds != [] && AllWritable(d, q.conds)
            && (forall s :: s in q.sets && s.SetExpr? && !s.raw.Nil? ==> Refusal(d, s.raw).None?)
            && (q.returning == [] || d.returning)
  {
    hide ListRefusal, AllWritable, Refusal;
    ListWritable(d, q.conds);
    SetsWritable(d, q.sets);
  }

  lemma {:induction false} SetsWritable(d: Dialect, sets: seq<SetPair>)
    ensures SetsRefusal(d, sets).None? <==>
            forall s :: s in sets && s.SetExpr? && !s.raw.Nil? ==> Refusal(d, s.raw).None?
  {
    hide Refusal;
    if sets != [] {
      SetsWritable(d, sets[1..]);
      assert sets == [sets[0]] + sets[1..];
    }
  }

  // An INSERT, if and only if it names a table and has rows, each as wide as the
  // columns named if any are, and RETURNING is absent or supported.
  lemma InsertBuilds(d: Dialect, q: InsertQuery)
    ensures InsertRefusal(d, q).None? <==>
            && q.table != "" && q.rows != [] && (q.returning == [] || d.returning)
            && (q.columns == [] || forall k :: 0 <= k < |q.rows| ==> |q.rows[k]| == |q.columns|)
  {
    hide WidthRefusal;
    WidthsFit(q.columns, q.rows, 0);
  }

  lemma {:induction false} WidthsFit(columns: seq<string>, rows: seq<seq<Value>>, i: nat)
    requires i <= |rows|
    ensures WidthRefusal(columns, rows, i).None? <==>
            columns == [] || forall k :: i <= k < |rows| ==> |rows[k]| == |columns|
    decreases |rows| - i
  {
    if i < |rows| {
      WidthsFit(columns, rows, i + 1);
    }
  }

  // ----- building them

  // What building promises: the text and arguments of the pieces, or their error.
  ghost predicate Builds(d: Dialect, r: Result<Built, QueryError>, ps: Written3) {
    if ps.Ok? then r == Ok(Built(Written(d, ps.value, 0), Args(ps.value))) else r == Err(ps.error)
  }

  // What writing one part promises of the writer.
  ghost predicate Adds(ps: Written3, before: seq<Piece>, after: seq<Piece>, error: Option<QueryError>) {
    if ps.Ok? then error.None? && after == before + ps.value else error == Some(ps.error)
  }

  lemma NothingLeft()
    ensures Idents([]) == [] && Terms([]) == [] && Binds([]) == [] && Tuples([]) == []
  {
  }

  method WriteIdents(b: Writer, cols: seq<string>)
    requires b.Valid()
    modifies b
    ensures b.Valid() && b.pieces == old(b.pieces) + Idents(cols)
  {
    hide Writer.Valid, Idents;
    ghost var total := b.pieces + Idents(cols);
    assert cols[0..] == cols;
    for i := 0 to |cols|
      invariant b.Valid()
      invariant b.pieces + Sep(0 < i < |cols|) + Idents(cols[i..]) == total
    {
      IdentsStep(cols, i);
      Joined(b.pieces, Sep(0 < i), [Column(cols[i])], Sep(i + 1 < |cols|), Idents(cols[i + 1..]), total);
      if i > 0 {
        b.Str(SEP);
      }
      b.Str(Column(cols[i]));
    }
    assert cols[|cols|..] == [];
    NothingLeft();
  }

  lemma IdentsStep(cols: seq<string>, i: nat)
    requires i < |cols|
    ensures Idents(cols[i..]) == [Column(cols[i])] + Sep(i + 1 < |cols|) + Idents(cols[i + 1..])
  {
    assert cols[i..][1..] == cols[i + 1..];
  }

  method WriteTable(b: Writer, t: TableRef)
    requires b.Valid()
    modifies b
    ensures b.Valid() && b.pieces == old(b.pieces) + TablePieces(t)
  {
    hide Writer.Valid;
    match t {
      case Table(name) => b.Str(Column(name));
      case Aliased(name, word, alias) =>
        b.Str(Column(name));
        b.Str(Verbatim(word));
        b.Str(Column(alias));
      case Other(text) => b.Str(Verbatim(text));
    }
  }

  method WriteExpr(b: Writer, e: Expr) returns (error: Option<QueryError>)
    requires b.Valid()
    modifies b
    ensures b.Valid() && Adds(Lift(Pieces(b.d, e)), old(b.pieces), b.pieces, error)
  {
    hide Writer.Valid, Pieces;
    var failed := b.Write(e);
    error := if failed.Some? then Some(InCondition(failed.value)) else None;
  }

  method WriteJoin(b: Writer, j: Join) returns (error: Option<QueryError>)
    requires b.Valid()
    modifies b
    ensures b.Valid() && Adds(JoinPieces(b.d, j), old(b.pieces), b.pieces, error)
  {
    hide Writer.Valid, Pieces, TablePieces;
    b.Str(Verbatim(" "));
    b.Str(Verbatim(j.kind));
    b.Str(Verbatim(" "));
    WriteTable(b, j.table);
    assert b.pieces == old(b.pieces) + ([Verbatim(" "), Verbatim(j.kind), Verbatim(" ")] + TablePieces(j.table));
    if j.on.Nil? {
      return None;
    }
    b.Str(Verbatim(" ON "));
    error := WriteExpr(b, j.on);
  }

  method WriteJoins(b: Writer, js: seq<Join>) returns (error: Option<QueryError>)
    requires b.Valid()
    modifies b
    ensures b.Valid() && Adds(JoinsPieces(b.d, js), old(b.pieces), b.pieces, error)
  {
    hide Writer.Valid, JoinPieces;
    ghost var before, all := b.pieces, JoinsPieces(b.d, js);
    ghost var total := if all.Ok? then before + all.value else [];
    assert js[0..] == js;
    for i := 0 to |js|
      invariant b.Valid()
      invariant var rest := JoinsPieces(b.d, js[i..]);
                if all.Ok? then rest.Ok? && b.pieces + rest.value == total else rest == all
    {
      assert js[i..][1..] == js[i + 1..];
      if all.Ok? {
        JoinedPlain(b.pieces, JoinPieces(b.d, js[i]).value, JoinsPieces(b.d, js[i + 1..]).value, total);
      }
      error := WriteJoin(b, js[i]);
      if error.Some? {
        return;
      }
    }
    assert js[|js|..] == [];
    error := None;
  }

  lemma JoinedPlain(written: seq<Piece>, first: seq<Piece>, rest: seq<Piece>, total: seq<Piece>)
    requires written + (first + rest) == total
    ensures written + first + rest == total
  {
    assert written + first + rest == written + (first + rest);
  }

  method WriteConditions(b: Writer, keyword: string, exprs: seq<Expr>) returns (error: Option<QueryError>)
    requires b.Valid()
    modifies b
    ensures b.Valid() && Adds(Clause(b.d, keyword, exprs), old(b.pieces), b.pieces, error)
  {
    hide Writer.Valid, ClausePieces;
    if |exprs| == 0 {
      return None;
    }
    b.Str(Verbatim(keyword));
    var failed := b.WriteClause(exprs);
    error := if failed.Some? then Some(InCondition(failed.value)) else None;
    if error.None? {
      assert b.pieces == old(b.pieces) + ([Verbatim(keyword)] + ClausePieces(b.d, exprs).value);
    }
  }

  method WriteListClause(b: Writer, keyword: string, cols: seq<string>)
    requires b.Valid()
    modifies b
    ensures b.Valid() && b.pieces == old(b.pieces) + ListClause(keyword, cols)
  {
    hide Writer.Valid, Idents;
    if |cols| > 0 {
      b.Str(Verbatim(keyword));
      WriteIdents(b, cols);
      assert b.pieces == old(b.pieces) + ([Verbatim(keyword)] + Idents(cols));
    }
  }

  method WriteOrder(b: Writer, ts: seq<OrderTerm>)
    requires b.Valid()
    modifies b
    ensures b.Valid() && b.pieces == old(b.pieces) + OrderClause(ts)
  {
    hide Writer.Valid, TermPieces, Terms;
    if |ts| == 0 {
      return;
    }
    ghost var before := b.pieces;
    b.Str(Verbatim(" ORDER BY "));
    ghost var total := b.pieces + Terms(ts);
    assert total == before + ([Verbatim(" ORDER BY ")] + Terms(ts));
    assert ts[0..] == ts;
    for i := 0 to |ts|
      invariant b.Valid()
      invariant b.pieces + Sep(0 < i < |ts|) + Terms(ts[i..]) == total
    {
      TermsStep(ts, i);
      Joined(b.pieces, Sep(0 < i), TermPieces(ts[i]), Sep(i + 1 < |ts|), Terms(ts[i + 1..]), total);
      if i > 0 {
        b.Str(SEP);
      }
      WriteTerm(b, ts[i]);
    }
    assert ts[|ts|..] == [];
    NothingLeft();
    assert b.pieces == total;
  }

  lemma TermsStep(ts: seq<OrderTerm>, i: nat)
    requires i < |ts|
    ensures Terms(ts[i..]) == TermPieces(ts[i]) + Sep(i + 1 < |ts|) + Terms(ts[i + 1..])
  {
    assert ts[i..][1..] == ts[i + 1..];
  }

  method WriteTerm(b: Writer, t: OrderTerm)
    requires b.Valid()
    modifies b
    ensures b.Valid() && b.pieces == old(b.pieces) + TermPieces(t)
  {
    hide Writer.Valid;
    match t {
      case Directed(col, direction) =>
        b.Str(Column(col));
        b.Str(Verbatim(" " + direction));
      case Term(text) => b.Str(Column(text));
    }
  }

  method WriteCount(b: Writer, keyword: string, n: Option<int>)
    requires b.Valid()
    modifies b
    ensures b.Valid() && b.pieces == old(b.pieces) + CountClause(keyword, n)
  {
    hide Writer.Valid, Signed;
    if n.Some? {
      b.Str(Verbatim(keyword));
      b.Str(Verbatim(Signed(n.value)));
    }
  }

  method WriteReturning(b: Writer, cols: seq<string>) returns (error: Option<QueryError>)
    requires b.Valid()
    modifies b
    ensures b.Valid() && Adds(Returning(b.d, cols), old(b.pieces), b.pieces, error)
  {
    hide Writer.Valid, ListClause;
    if |cols| > 0 && !b.d.returning {
      return Some(NoReturning);
    }
    WriteListClause(b, " RETURNING ", cols);
    error := None;
  }

  // What the writer holds, as text and arguments.
  method Finish(b: Writer) returns (r: Built)
    requires b.Valid()
    ensures r == Built(Written(b.d, b.pieces, 0), Args(b.pieces))
  {
    hide Written, Args;
    r := Built(b.b, b.args);
  }

  method WriteSelectHead(b: Writer, q: SelectQuery)
    requires b.Valid() && b.pieces == []
    modifies b
    ensures b.Valid() && b.pieces == SelectHead(q)
  {
    hide Idents, TablePieces, Writer.Valid;
    b.Str(Verbatim("SELECT "));
    if q.distinct {
      b.Str(Verbatim("DISTINCT "));
    }
    if |q.columns| == 0 {
      b.Str(Verbatim("*"));
    } else {
      WriteIdents(b, q.columns);
    }
    if q.from.Some? {
      ghost var before := b.pieces;
      b.Str(Verbatim(" FROM "));
      WriteTable(b, q.from.value);
      assert b.pieces == before + ([Verbatim(" FROM ")] + TablePieces(q.from.value));
    }
  }

  method BuildSelect(d: Dialect, q: SelectQuery) returns (r: Result<Built, QueryError>)
    ensures Builds(d, r, SelectPieces(d, q))
    ensures Answers(r, SelectRefusal(d, q))
  {
    SelectAnswers(d, q);
    hide SelectRefusal;
    hide JoinsPieces, Clause, ListClause, OrderClause, CountClause, Written, Args, SelectHead, Writer.Valid;
    var b := new Writer(d);
    WriteSelectHead(b, q);
    var error := WriteJoins(b, q.joins);
    if error.Some? {
      return Err(error.value);
    }
    error := WriteConditions(b, " WHERE ", q.conds);
    if error.Some? {
      return Err(error.value);
    }
    WriteListClause(b, " GROUP BY ", q.groupBy);
    error := WriteConditions(b, " HAVING ", q.having);
    if error.Some? {
      return Err(error.value);
    }
    WriteOrder(b, q.orderBy);
    WriteCount(b, " LIMIT ", q.limit);
    WriteCount(b, " OFFSET ", q.offset);
    var built := Finish(b);
    r := Ok(built);
  }

  method WriteBinds(b: Writer, vals: seq<Value>)
    requires b.Valid()
    modifies b
    ensures b.Valid() && b.pieces == old(b.pieces) + Binds(vals)
  {
    hide Writer.Valid, Binds, Tuples, BadRow;
    ghost var total := b.pieces + Binds(vals);
    assert vals[0..] == vals;
    for i := 0 to |vals|
      invariant b.Valid()
      invariant b.pieces + Sep(0 < i < |vals|) + Binds(vals[i..]) == total
    {
      BindsStep(vals, i);
      Joined(b.pieces, Sep(0 < i), [Bound(vals[i])], Sep(i + 1 < |vals|), Binds(vals[i + 1..]), total);
      if i > 0 {
        b.Str(SEP);
      }
      b.Bind(vals[i]);
    }
    assert vals[|vals|..] == [];
    NothingLeft();
  }

  lemma BindsStep(vals: seq<Value>, i: nat)
    requires i < |vals|
    ensures Binds(vals[i..]) == [Bound(vals[i])] + Sep(i + 1 < |vals|) + Binds(vals[i + 1..])
  {
    assert vals[i..][1..] == vals[i + 1..];
  }

  lemma TuplesStep(rows: seq<seq<Value>>, i: nat)
    requires i < |rows|
    ensures Tuples(rows[i..]) == ([Open] + Binds(rows[i]) + [Close]) + Sep(i + 1 < |rows|) + Tuples(rows[i + 1..])
  {
    hide Binds;
    assert rows[i..][1..] == rows[i + 1..];
  }

  method WriteTuple(b: Writer, row: seq<Value>)
    requires b.Valid()
    modifies b
    ensures b.Valid() && b.pieces == old(b.pieces) + ([Open] + Binds(row) + [Close])
  {
    hide Writer.Valid, Binds;
    ghost var before := b.pieces;
    b.Str(Open);
    WriteBinds(b, row);
    b.Str(Close);
    assert b.pieces == before + ([Open] + Binds(row) + [Close]);
  }

  // The rows of an INSERT; each must be as wide as the columns named.
  method WriteTuples(b: Writer, columns: seq<string>, rows: seq<seq<Value>>) returns (error: Option<QueryError>)
    requires b.Valid()
    modifies b
    ensures b.Valid()
    ensures var bad := BadRow(columns, rows);
            if bad < |rows| then error == Some(RowWidth(bad))
            else error.None? && b.pieces == old(b.pieces) + Tuples(rows)
  {
    hide Writer.Valid, Binds, Tuples, BadRow;
    ghost var bad := BadRow(columns, rows);
    ghost var total := b.pieces + Tuples(rows);
    assert rows[0..] == rows;
    for i := 0 to |rows|
      invariant b.Valid() && i <= bad
      invariant b.pieces + Sep(0 < i < |rows|) + Tuples(rows[i..]) == total
    {
      if |columns| > 0 && |rows[i]| != |columns| {
        return Some(RowWidth(i));
      }
      TuplesStep(rows, i);
      ghost var row := [Open] + Binds(rows[i]) + [Close];
      Joined(b.pieces, Sep(0 < i), row, Sep(i + 1 < |rows|), Tuples(rows[i + 1..]), total);
      if i > 0 {
        b.Str(SEP);
      }
      WriteTuple(b, rows[i]);
    }
    assert rows[|rows|..] == [];
    NothingLeft();
    error := None;
  }

  method WriteInsertHead(b: Writer, q: InsertQuery)
    requires b.Valid() && b.pieces == []
    modifies b
    ensures b.Valid() && b.pieces == [Verbatim("INSERT INTO "), Column(q.table)] + NamedColumns(q.columns)
  {
    hide Idents, Writer.Valid;
    b.Str(Verbatim("INSERT INTO "));
    b.Str(Column(q.table));
    ghost var head := b.pieces;
    assert head == [Verbatim("INSERT INTO "), Column(q.table)];
    if |q.columns| > 0 {
      b.Str(Verbatim(" ("));
      WriteIdents(b, q.columns);
      b.Str(Close);
      assert b.pieces == head + ([Verbatim(" (")] + Idents(q.columns) + [Close]);
    }
  }

  method WriteConflict(b: Writer, conflict: string)
    requires b.Valid()
    modifies b
    ensures b.Valid() && b.pieces == old(b.pieces) + Conflict(conflict)
  {
    hide Writer.Valid;
    if conflict != "" {
      b.Str(Verbatim(" ON CONFLICT "));
      b.Str(Verbatim(conflict));
    }
  }

  method BuildInsert(d: Dialect, q: InsertQuery) returns (r: Result<Built, QueryError>)
    ensures Builds(d, r, InsertPieces(d, q))
    ensures Answers(r, InsertRefusal(d, q))
  {
    InsertAnswers(d, q);
    hide InsertRefusal;
    hide NamedColumns, Conflict, Tuples, Returning, Written, Args, Writer.Valid, BadRow;
    if q.table == "" {
      return Err(NoTable);
    }
    if |q.rows| == 0 {
      return Err(NoValues);
    }
    var b := new Writer(d);
    WriteInsertHead(b, q);
    b.Str(Verbatim(" VALUES "));
    var error := WriteTuples(b, q.columns, q.rows);
    if error.Some? {
      return Err(error.value);
    }
    WriteConflict(b, q.conflict);
    error := WriteReturning(b, q.returning);
    if error.Some? {
      return Err(error.value);
    }
    var built := Finish(b);
    r := Ok(built);
  }

  method WriteSet(b: Writer, s: SetPair) returns (error: Option<QueryError>)
    requires b.Valid()
    modifies b
    ensures b.Valid() && Adds(SetPieces(b.d, s), old(b.pieces), b.pieces, error)
  {
    hide Writer.Valid, Pieces;
    b.Str(Column(s.col));
    b.Str(Verbatim(" = "));
    if s.SetExpr? && !s.raw.Nil? {
      error := WriteExpr(b, s.raw);
      return;
    }
    b.Bind(if s.SetTo? then s.val else Value.Null);
    error := None;
  }

  method WriteSets(b: Writer, sets: seq<SetPair>) returns (error: Option<QueryError>)
    requires b.Valid()
    modifies b
    ensures b.Valid() && Adds(SetsPieces(b.d, sets), old(b.pieces), b.pieces, error)
  {
    hide Writer.Valid, SetPieces;
    ghost var before, all := b.pieces, SetsPieces(b.d, sets);
    ghost var total := if all.Ok? then before + all.value else [];
    assert sets[0..] == sets;
    for i := 0 to |sets|
      invariant b.Valid()
      invariant var rest := SetsPieces(b.d, sets[i..]);
                if all.Ok? then rest.Ok? && b.pieces + Sep(0 < i < |sets|) + rest.value == total else rest == all
    {
      assert sets[i..][1..] == sets[i + 1..];
      if all.Ok? {
        Joined(b.pieces, Sep(0 < i), SetPieces(b.d, sets[i]).value, Sep(i + 1 < |sets|),
               SetsPieces(b.d, sets[i + 1..]).value, total);
      }
      if i > 0 {
        b.Str(SEP);
      }
      error := WriteSet(b, sets[i]);
      if error.Some? {
        return;
      }
    }
    assert sets[|sets|..] == [];
    error := None;
  }

  method BuildUpdate(d: Dialect, q: UpdateQuery) returns (r: Result<Built, QueryError>)
    ensures Builds(d, r, UpdatePieces(d, q))
    ensures Answers(r, UpdateRefusal(d, q))
  {
    UpdateAnswers(d, q);
    hide UpdateRefusal;
    hide SetsPieces, Clause, Returning, Written, Args, Writer.Valid;
    if q.table == "" {
      return Err(NoTable);
    }
    if |q.sets| == 0 {
      return Err(SetsNothing);
    }
    if |q.conds| == 0 {
      return Err(NoWhere);
    }
    var b := new Writer(d);
    b.Str(Verbatim("UPDATE "));
    b.Str(Column(q.table));
    b.Str(Verbatim(" SET "));
    assert b.pieces == [Verbatim("UPDATE "), Column(q.table), Verbatim(" SET ")];
    var error := WriteSets(b, q.sets);
    if error.Some? {
      return Err(error.value);
    }
    error := WriteConditions(b, " WHERE ", q.conds);
    if error.Some? {
      return Err(error.value);
    }
    error := WriteReturning(b, q.returning);
    if error.Some? {
      return Err(error.value);
    }
    var built := Finish(b);
    r := Ok(built);
  }

  method BuildDelete(d: Dialect, q: DeleteQuery) returns (r: Result<Built, QueryError>)
    ensures Builds(d, r, DeletePieces(d, q))
    ensures Answers(r, DeleteRefusal(d, q))
  {
    DeleteAnswers(d, q);
    hide DeleteRefusal;
    hide Clause, Returning, Written, Args, Writer.Valid;
    if q.table == "" {
      return Err(NoTable);
    }
    if |q.conds| == 0 {
      return Err(NoWhere);
    }
    var b := new Writer(d);
    b.Str(Verbatim("DELETE FROM "));
    b.Str(Column(q.table));
    assert b.pieces == [Verbatim("DELETE FROM "), Column(q.table)];
    var error := WriteConditions(b, " WHERE ", q.conds);
    if error.Some? {
      return Err(error.value);
    }
    error := WriteReturning(b, q.returning);
    if error.Some? {
      return Err(error.value);
    }
    var built := Finish(b);
    r := Ok(built);
  }
}