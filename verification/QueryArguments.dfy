// What the builders bind, in which order, and how little of the text depends on
// the dialect.

module QueryArguments {
  import opened Wrappers
  import opened Dialects
  import opened Conditions
  import opened ConditionArguments
  import opened Queries

  // ----- the values a statement binds, read off its parts

  function JoinsValues(js: seq<Join>): seq<Value> {
    if js == [] then [] else Values(js[0].on) + JoinsValues(js[1..])
  }

  function SetsValues(sets: seq<SetPair>): seq<Value> {
    if sets == [] then []
    else (if sets[0].SetTo? then [sets[0].val] else if sets[0].raw.Nil? then [Value.Null] else Values(sets[0].raw))
         + SetsValues(sets[1..])
  }

  function Flat(rows: seq<seq<Value>>): seq<Value> {
    if rows == [] then [] else rows[0] + Flat(rows[1..])
  }

  // ----- clauses

  lemma ClauseBinds(d: Dialect, keyword: string, exprs: seq<Expr>)
    requires Clause(d, keyword, exprs).Ok?
    ensures Args(Clause(d, keyword, exprs).value) == ListValues(exprs)
  {
    hide ClausePieces;
    if exprs != [] {
      hide ListValues;
      ListBinds(d, exprs);
      ArgsAppend([Verbatim(keyword)], ClausePieces(d, exprs).value);
      NoArgs([Verbatim(keyword)]);
      assert [] + ListValues(exprs) == ListValues(exprs);
    }
  }

  lemma {:induction false} IdentsBindNothing(cols: seq<string>)
    ensures forall p :: p in Idents(cols) ==> !p.Bound?
  {
    if cols != [] {
      IdentsBindNothing(cols[1..]);
    }
  }

  lemma {:induction false} TermsBindNothing(ts: seq<OrderTerm>)
    ensures forall p :: p in Terms(ts) ==> !p.Bound?
  {
    if ts != [] {
      TermsBindNothing(ts[1..]);
    }
  }

  lemma ListClauseBinds(keyword: string, cols: seq<string>)
    ensures Args(ListClause(keyword, cols)) == []
  {
    IdentsBindNothing(cols);
    NoArgs(ListClause(keyword, cols));
  }

  lemma {:induction false} JoinsBind(d: Dialect, js: seq<Join>)
    requires JoinsPieces(d, js).Ok?
    ensures Args(JoinsPieces(d, js).value) == JoinsValues(js)
  {
    hide JoinPieces, Values;
    if js != [] {
      JoinBinds(d, js[0]);
      JoinsBind(d, js[1..]);
      ArgsAppend(JoinPieces(d, js[0]).value, JoinsPieces(d, js[1..]).value);
    }
  }

  lemma JoinBinds(d: Dialect, j: Join)
    requires JoinPieces(d, j).Ok?
    ensures Args(JoinPieces(d, j).value) == Values(j.on)
  {
    hide Pieces;
    var head := [Verbatim(" "), Verbatim(j.kind), Verbatim(" ")] + TablePieces(j.table);
    NoArgs(head);
    if !j.on.Nil? {
      var on := Pieces(d, j.on).value;
      ConditionBinds(d, j.on);
      Args3(head, [Verbatim(" ON ")], on);
      NoArgs([Verbatim(" ON ")]);
      assert [] + [] + Args(on) == Args(on);
    }
  }

  lemma {:induction false} BindsBind(vals: seq<Value>)
    ensures Args(Binds(vals)) == vals
  {
    if vals != [] {
      BindsBind(vals[1..]);
      Args3([Bound(vals[0])], Sep(|vals| > 1), Binds(vals[1..]));
      ArgsOne(Bound(vals[0]));
      NoArgs(Sep(|vals| > 1));
      assert [vals[0]] + [] + vals[1..] == vals;
    }
  }

  lemma {:induction false} TuplesBind(rows: seq<seq<Value>>)
    ensures Args(Tuples(rows)) == Flat(rows)
  {
    hide Binds;
    if rows != [] {
      BindsBind(rows[0]);
      TuplesBind(rows[1..]);
      hide Args;
      WrappedArgs(Open, Binds(rows[0]), Close);
      JoinedArgs([Open] + Binds(rows[0]) + [Close], Sep(|rows| > 1), Tuples(rows[1..]));
    }
  }

  lemma SetBinds(d: Dialect, s: SetPair)
    requires SetPieces(d, s).Ok?
    ensures Args(SetPieces(d, s).value)
         == if s.SetTo? then [s.val] else if s.raw.Nil? then [Value.Null] else Values(s.raw)
  {
    hide Pieces;
    var head := [Column(s.col), Verbatim(" = ")];
    NoArgs(head);
    if s.SetExpr? && !s.raw.Nil? {
      var ps := Pieces(d, s.raw).value;
      ConditionBinds(d, s.raw);
      ArgsAppend(head, ps);
      assert [] + Args(ps) == Args(ps);
    } else {
      var v := if s.SetTo? then s.val else Value.Null;
      ArgsAppend(head, [Bound(v)]);
      ArgsOne(Bound(v));
      assert head + [Bound(v)] == [Column(s.col), Verbatim(" = "), Bound(v)];
    }
  }

  lemma {:induction false} SetsBind(d: Dialect, sets: seq<SetPair>)
    requires SetsPieces(d, sets).Ok?
    ensures Args(SetsPieces(d, sets).value) == SetsValues(sets)
  {
    hide SetPieces, Values, PieceArgs;
    if sets != [] {
      var first, rest := SetPieces(d, sets[0]).value, SetsPieces(d, sets[1..]).value;
      SetBinds(d, sets[0]);
      SetsBind(d, sets[1..]);
      JoinedArgs(first, Sep(|sets| > 1), rest);
    }
  }

  // ----- statements

  // Across the clauses of a SELECT the values are bound in the order of the
  // text: joins, then WHERE, then HAVING.
  lemma SelectBinds(d: Dialect, q: SelectQuery)
    requires SelectPieces(d, q).Ok?
    ensures Args(SelectPieces(d, q).value) == JoinsValues(q.joins) + ListValues(q.conds) + ListValues(q.having)
  {
    hide JoinsPieces, Clause, ListClause, Args, JoinsValues, ListValues, SelectHead;
    var head, joins := SelectHead(q), JoinsPieces(d, q.joins).value;
    var conds, having := Clause(d, " WHERE ", q.conds).value, Clause(d, " HAVING ", q.having).value;
    var group := ListClause(" GROUP BY ", q.groupBy);
    var order := OrderClause(q.orderBy);
    var limit, offset := CountClause(" LIMIT ", q.limit), CountClause(" OFFSET ", q.offset);
    SelectHeadBinds(q);
    OrderBinds(q.orderBy);
    hide OrderClause;
    NoArgs(limit);
    NoArgs(offset);
    JoinsBind(d, q.joins);
    ClauseBinds(d, " WHERE ", q.conds);
    ClauseBinds(d, " HAVING ", q.having);
    ListClauseBinds(" GROUP BY ", q.groupBy);
    Args8(head, joins, conds, group, having, order, limit, offset);
  }

  // Eight parts, of which the second, third and fifth bind values.
  lemma Args8(a: seq<Piece>, b: seq<Piece>, c: seq<Piece>, d: seq<Piece>, e: seq<Piece>, f: seq<Piece>, g: seq<Piece>,
              h: seq<Piece>)
    requires Args(a) == Args(d) == Args(f) == Args(g) == Args(h) == []
    ensures Args(a + b + c + d + e + f + g + h) == Args(b) + Args(c) + Args(e)
  {
    hide Args;
    Args3(a, b, c);
    Args3(a + b + c, d, e);
    Args3(a + b + c + d + e, f, g);
    ArgsAppend(a + b + c + d + e + f + g, h);
    var x, y, z := Args(b), Args(c), Args(e);
    assert [] + x + y + [] + z + [] + [] + [] == x + y + z;
  }

  lemma Args4(a: seq<Piece>, b: seq<Piece>, c: seq<Piece>, d: seq<Piece>)
    requires Args(a) == Args(d) == []
    ensures Args(a + b + c + d) == Args(b) + Args(c)
  {
    hide Args;
    Args3(a, b, c);
    ArgsAppend(a + b + c, d);
    var x, y := Args(b), Args(c);
    assert [] + x + y + [] == x + y;
  }

  lemma OrderBinds(ts: seq<OrderTerm>)
    ensures Args(OrderClause(ts)) == []
  {
    TermsBindNothing(ts);
    NoArgs(OrderClause(ts));
  }

  lemma NamedBinds(columns: seq<string>)
    ensures Args(NamedColumns(columns)) == []
  {
    IdentsBindNothing(columns);
    NoArgs(NamedColumns(columns));
  }

  lemma SelectHeadBinds(q: SelectQuery)
    ensures Args(SelectHead(q)) == []
  {
    IdentsBindNothing(q.columns);
    NoArgs(SelectHead(q));
  }

  lemma InsertBinds(d: Dialect, q: InsertQuery)
    requires InsertPieces(d, q).Ok?
    ensures Args(InsertPieces(d, q).value) == Flat(q.rows)
    ensures forall k :: 0 <= k < |q.rows| ==> q.columns == [] || |q.rows[k]| == |q.columns|
  {
    hide Tuples, ListClause, Flat, Args;
    var head, named := [Verbatim("INSERT INTO "), Column(q.table)], NamedColumns(q.columns);
    var tuples, conflict, returning := Tuples(q.rows), Conflict(q.conflict), ListClause(" RETURNING ", q.returning);
    NoArgs(head);
    NamedBinds(q.columns);
    NoArgs([Verbatim(" VALUES ")]);
    TuplesBind(q.rows);
    NoArgs(conflict);
    ListClauseBinds(" RETURNING ", q.returning);
    Args6(head, named, [Verbatim(" VALUES ")], tuples, conflict, returning);
  }

  // Six parts, of which the fourth binds values.
  lemma Args6(a: seq<Piece>, b: seq<Piece>, c: seq<Piece>, d: seq<Piece>, e: seq<Piece>, f: seq<Piece>)
    requires Args(a) == Args(b) == Args(c) == Args(e) == Args(f) == []
    ensures Args(a + b + c + d + e + f) == Args(d)
  {
    hide Args;
    Args3(a, b, c);
    Args3(a + b + c, d, e);
    ArgsAppend(a + b + c + d + e, f);
    var x := Args(d);
    assert [] + [] + [] + x + [] + [] == x;
  }

  lemma UpdateBinds(d: Dialect, q: UpdateQuery)
    requires UpdatePieces(d, q).Ok?
    ensures Args(UpdatePieces(d, q).value) == SetsValues(q.sets) + ListValues(q.conds)
  {
    hide SetsPieces, Clause, ListClause, SetsValues, ListValues;
    var head, sets := [Verbatim("UPDATE "), Column(q.table), Verbatim(" SET ")], SetsPieces(d, q.sets).value;
    var conds, returning := Clause(d, " WHERE ", q.conds).value, ListClause(" RETURNING ", q.returning);
    NoArgs(head);
    SetsBind(d, q.sets);
    ClauseBinds(d, " WHERE ", q.conds);
    ListClauseBinds(" RETURNING ", q.returning);
    Args4(head, sets, conds, returning);
  }

  lemma DeleteBinds(d: Dialect, q: DeleteQuery)
    requires DeletePieces(d, q).Ok?
    ensures Args(DeletePieces(d, q).value) == ListValues(q.conds)
  {
    var head := [Verbatim("DELETE FROM "), Column(q.table)];
    var conds, returning := Clause(d, " WHERE ", q.conds).value, ListClause(" RETURNING ", q.returning);
    NoArgs(head);
    ClauseBinds(d, " WHERE ", q.conds);
    ListClauseBinds(" RETURNING ", q.returning);
    hide Clause, ListClause, Args;
    Args3(head, conds, returning);
    assert [] + ListValues(q.conds) + [] == ListValues(q.conds);
  }

  // ----- what depends on the dialect

  // The text between the placeholders.
  function Segments(d: Dialect, ps: seq<Piece>): (segs: seq<string>)
    ensures segs != []
  {
    if ps == [] then [""]
    else
      var rest := Segments(d, ps[1..]);
      if ps[0].Bound? then [""] + rest else [PieceText(d, ps[0], 0) + rest[0]] + rest[1..]
  }

  // The segments with the placeholders n + 1, n + 2, … between them.
  function Interleaved(d: Dialect, segs: seq<string>, n: nat): string
    requires segs != []
  {
    if |segs| == 1 then segs[0]
    else segs[0] + Placeholder(d, n + 1) + Interleaved(d, segs[1..], n + 1)
  }

  // Whatever is written, its placeholders are numbered 1, 2, … from left to
  // right, one for each argument.
  lemma {:induction false} PlaceholdersNumbered(d: Dialect, ps: seq<Piece>, n: nat)
    ensures |Segments(d, ps)| == |Args(ps)| + 1
    ensures Written(d, ps, n) == Interleaved(d, Segments(d, ps), n)
    decreases |ps|
  {
    hide Placeholder, Ident, OperatorText;
    if ps != [] {
      var rest := Segments(d, ps[1..]);
      if ps[0].Bound? {
        PlaceholdersNumbered(d, ps[1..], n + 1);
        assert ([""] + rest)[1..] == rest;
        assert "" + Placeholder(d, n + 1) + Interleaved(d, rest, n + 1)
            == Placeholder(d, n + 1) + Interleaved(d, rest, n + 1);
      } else {
        PlaceholdersNumbered(d, ps[1..], n);
        assert PieceText(d, ps[0], n) == PieceText(d, ps[0], 0);
        PrependSegment(d, PieceText(d, ps[0], 0), rest, n);
      }
    }
  }

  lemma PrependSegment(d: Dialect, text: string, segs: seq<string>, n: nat)
    requires segs != []
    ensures Interleaved(d, [text + segs[0]] + segs[1..], n) == text + Interleaved(d, segs, n)
  {
    hide Placeholder;
    var more := [text + segs[0]] + segs[1..];
    assert more[1..] == segs[1..];
    if |segs| > 1 {
      var p, tail := Placeholder(d, n + 1), Interleaved(d, segs[1..], n + 1);
      assert text + segs[0] + p + tail == text + (segs[0] + p + tail);
    }
  }

  // Two dialects that differ at most in their placeholders, and in names other
  // than PostgreSQL's.
  predicate Alike(d: Dialect, d': Dialect) {
    d.quote == d'.quote && d.returning == d'.returning && (d.name == "postgres" <==> d'.name == "postgres")
  }

  lemma {:induction false} SegmentsAlike(d: Dialect, d': Dialect, ps: seq<Piece>)
    requires Alike(d, d')
    ensures Segments(d, ps) == Segments(d', ps)
  {
    hide OperatorText;
    if ps != [] {
      SegmentsAlike(d, d', ps[1..]);
    }
  }

  lemma {:induction false} PiecesAlike(d: Dialect, d': Dialect, e: Expr)
    requires Alike(d, d')
    ensures Pieces(d, e) == Pieces(d', e)
    decreases e, 1, 0
  {
    match e
    case Group(_, parts) =>
      if |parts| == 1 {
        PiecesAlike(d, d', parts[0]);
      } else {
        PartsAlike(d, d', e, 0);
      }
    case Not(inner) => PiecesAlike(d, d', inner);
    case _ =>
  }

  lemma {:induction false} PartsAlike(d: Dialect, d': Dialect, e: Expr, i: nat)
    requires Alike(d, d') && e.Group? && i <= |e.parts|
    ensures PartsPieces(d, e, i) == PartsPieces(d', e, i)
    decreases e, 0, |e.parts| - i
  {
    if i < |e.parts| {
      PiecesAlike(d, d', e.parts[i]);
      PartsAlike(d, d', e, i + 1);
    }
  }

  lemma {:induction false} ClauseAlike(d: Dialect, d': Dialect, exprs: seq<Expr>)
    requires Alike(d, d')
    ensures ClausePieces(d, exprs) == ClausePieces(d', exprs)
  {
    hide Pieces;
    if exprs != [] {
      PiecesAlike(d, d', exprs[0]);
      ClauseAlike(d, d', exprs[1..]);
    }
  }

  lemma {:induction false} JoinsAlike(d: Dialect, d': Dialect, js: seq<Join>)
    requires Alike(d, d')
    ensures JoinsPieces(d, js) == JoinsPieces(d', js)
  {
    hide Pieces;
    if js != [] {
      PiecesAlike(d, d', js[0].on);
      JoinsAlike(d, d', js[1..]);
    }
  }

  lemma {:induction false} SetsAlike(d: Dialect, d': Dialect, sets: seq<SetPair>)
    requires Alike(d, d')
    ensures SetsPieces(d, sets) == SetsPieces(d', sets)
  {
    hide Pieces;
    if sets != [] {
      if sets[0].SetExpr? {
        PiecesAlike(d, d', sets[0].raw);
      }
      SetsAlike(d, d', sets[1..]);
    }
  }

  // Every statement comes out of alike dialects with the same arguments and the
  // same text around the placeholders, or fails with the same error.
  lemma StatementsAlike(d: Dialect, d': Dialect, s: SelectQuery, i: InsertQuery, u: UpdateQuery, x: DeleteQuery)
    requires Alike(d, d')
    ensures SelectPieces(d, s) == SelectPieces(d', s)
    ensures InsertPieces(d, i) == InsertPieces(d', i)
    ensures UpdatePieces(d, u) == UpdatePieces(d', u)
    ensures DeletePieces(d, x) == DeletePieces(d', x)
  {
    hide Pieces, ClausePieces, JoinsPieces, SetsPieces, Tuples, Idents;
    JoinsAlike(d, d', s.joins);
    ClauseAlike(d, d', s.conds);
    ClauseAlike(d, d', s.having);
    SetsAlike(d, d', u.sets);
    ClauseAlike(d, d', u.conds);
    ClauseAlike(d, d', x.conds);
  }

  // What alike dialects make of the same pieces differs in the placeholders alone.
  lemma TextsAlike(d: Dialect, d': Dialect, ps: seq<Piece>)
    requires Alike(d, d')
    ensures exists segs: seq<string> :: |segs| == |Args(ps)| + 1
              && Written(d, ps, 0) == Interleaved(d, segs, 0) && Written(d', ps, 0) == Interleaved(d', segs, 0)
  {
    PlaceholdersNumbered(d, ps, 0);
    PlaceholdersNumbered(d', ps, 0);
    SegmentsAlike(d, d', ps);
  }
}
