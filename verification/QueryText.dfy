// The text of whole statements, letter for letter, and reading back the names in
// them. Conditions stand for themselves: what they mean is proved elsewhere.

module QueryText {
  import opened Wrappers
  import opened Integers
  import opened Numerals
  import opened Scanner
  import opened Quoting
  import opened NameLists
  import opened Dialects
  import opened Conditions
  import opened ConditionErrors
  import opened ConditionArguments
  import opened ConditionReader
  import opened Queries
  import opened QueryArguments
  import Layout

  // ----- lists

  function IdentTexts(d: Dialect, cols: seq<string>): seq<string> {
    if cols == [] then [] else [Ident(d, cols[0])] + IdentTexts(d, cols[1..])
  }

  // Three parts in a row, with the arguments counted on.
  lemma InThree(d: Dialect, a: seq<Piece>, b: seq<Piece>, c: seq<Piece>, n: nat, i: nat, j: nat)
    requires i == n + |Args(a)| && j == i + |Args(b)|
    ensures Written(d, a + b + c, n) == Written(d, a, n) + Written(d, b, i) + Written(d, c, j)
    ensures |Args(a + b + c)| == j - n + |Args(c)|
  {
    hide Written, Args;
    ArgsAppend(a, b);
    ArgsAppend(a + b, c);
    WrittenAppend(d, a, b, n);
    WrittenAppend(d, a + b, c, n);
  }

  // One member of a list and the members after it.
  lemma ListStep(d: Dialect, head: seq<Piece>, more: bool, rest: seq<Piece>, n: nat, m: nat, text: string,
                 texts: seq<string>)
    requires m == n + |Args(head)| && Written(d, head, n) == text
    requires Written(d, rest, m) == Listed(texts, ", ") && (more <==> texts != [])
    ensures Written(d, head + Sep(more) + rest, n) == Listed([text] + texts, ", ")
  {
    NoArgs(Sep(more));
    SepText(d, more, m);
    hide Written, Args, Sep, Listed;
    InThree(d, head, Sep(more), rest, n, m, m);
    ListedFront(text, texts, ", ");
    NoneListed();
    var t := Listed(texts, ", ");
    assert text + ", " + t == text + (", " + t);
  }

  lemma NoneListed()
    ensures forall sep :: Listed([], sep) == ""
  {
  }

  lemma {:induction false} IdentsText(d: Dialect, cols: seq<string>, n: nat)
    ensures Written(d, Idents(cols), n) == Listed(IdentTexts(d, cols), ", ")
    ensures Args(Idents(cols)) == []
  {
    hide Ident, Listed, Written, Args;
    NoneListed();
    NothingWritten(d, n);
    IdentsBindNothing(cols);
    NoArgs(Idents(cols));
    if cols != [] {
      IdentsText(d, cols[1..], n);
      NoArgs([Column(cols[0])]);
      WrittenOne(d, Column(cols[0]), n);
      ListStep(d, [Column(cols[0])], |cols| > 1, Idents(cols[1..]), n, n, Ident(d, cols[0]), IdentTexts(d, cols[1..]));
    }
  }

  lemma NothingWritten(d: Dialect, n: nat)
    ensures Written(d, [], n) == ""
  {
  }

  lemma SepText(d: Dialect, more: bool, n: nat)
    ensures Written(d, Sep(more), n) == if more then ", " else ""
  {
    if more {
      WrittenOne(d, SEP, n);
    }
  }

  // The placeholders n + 1 to n + count.
  function MarkTexts(d: Dialect, n: nat, count: nat): seq<string>
    decreases count
  {
    if count == 0 then [] else [Layout.Mark(d, n + 1)] + MarkTexts(d, n + 1, count - 1)
  }

  // Rows of placeholders, numbered on: (m1, m2), (m3, m4), and so on.
  function TupleTexts(d: Dialect, n: nat, rows: seq<seq<Value>>): seq<string>
    decreases |rows|
  {
    if rows == [] then []
    else ["(" + Listed(MarkTexts(d, n, |rows[0]|), ", ") + ")"] + TupleTexts(d, n + |rows[0]|, rows[1..])
  }

  lemma {:induction false} BindsText(d: Dialect, vals: seq<Value>, n: nat)
    ensures Written(d, Binds(vals), n) == Listed(MarkTexts(d, n, |vals|), ", ")
    decreases |vals|
  {
    hide Placeholder, Layout.Mark, Listed, Written, Args;
    NoneListed();
    NothingWritten(d, n);
    if vals != [] {
      BindsText(d, vals[1..], n + 1);
      ArgsOne(Bound(vals[0]));
      WrittenOne(d, Bound(vals[0]), n);
      MarkIs(d, n + 1);
      ListStep(d, [Bound(vals[0])], |vals| > 1, Binds(vals[1..]), n, n + 1, Layout.Mark(d, n + 1),
               MarkTexts(d, n + 1, |vals| - 1));
    }
  }

  lemma MarkIs(d: Dialect, n: nat)
    ensures Placeholder(d, n) == Layout.Mark(d, n)
  {
  }

  lemma {:induction false} TuplesText(d: Dialect, rows: seq<seq<Value>>, n: nat)
    ensures Written(d, Tuples(rows), n) == Listed(TupleTexts(d, n, rows), ", ")
    decreases |rows|
  {
    hide Binds, MarkTexts, Listed, Written, Args;
    NoneListed();
    NothingWritten(d, n);
    if rows != [] {
      var n' := n + |rows[0]|;
      TuplesText(d, rows[1..], n');
      RowText(d, rows[0], n);
      ListStep(d, [Open] + Binds(rows[0]) + [Close], |rows| > 1, Tuples(rows[1..]), n, n',
               "(" + Listed(MarkTexts(d, n, |rows[0]|), ", ") + ")", TupleTexts(d, n', rows[1..]));
    }
  }

  lemma RowText(d: Dialect, vals: seq<Value>, n: nat)
    ensures var row := [Open] + Binds(vals) + [Close];
            Written(d, row, n) == "(" + Listed(MarkTexts(d, n, |vals|), ", ") + ")" && |Args(row)| == |vals|
  {
    hide Binds, MarkTexts, Written, Args;
    BindsText(d, vals, n);
    BindsBind(vals);
    NoArgs([Open]);
    NoArgs([Close]);
    WrittenOne(d, Open, n);
    WrittenOne(d, Close, n + |vals|);
    InThree(d, [Open], Binds(vals), [Close], n, n, n + |vals|);
  }

  // ----- parts

  // A condition as it is written when n arguments stand before it.
  function ConditionText(d: Dialect, e: Expr, n: nat): string
    requires Pieces(d, e).Ok?
  {
    Written(d, Pieces(d, e).value, n)
  }

  function ListText(d: Dialect, exprs: seq<Expr>, n: nat): string
    requires ClausePieces(d, exprs).Ok?
  {
    Written(d, ClausePieces(d, exprs).value, n)
  }

  function ClauseText(d: Dialect, keyword: string, exprs: seq<Expr>, n: nat): string
    requires ClausePieces(d, exprs).Ok?
  {
    if exprs == [] then "" else keyword + ListText(d, exprs, n)
  }

  function TableText(d: Dialect, t: TableRef): string {
    match t
    case Table(name) => Ident(d, name)
    case Aliased(name, word, alias) => Ident(d, name) + word + Ident(d, alias)
    case Other(text) => text
  }

  function NamesClause(d: Dialect, keyword: string, cols: seq<string>): string {
    if cols == [] then "" else keyword + Listed(IdentTexts(d, cols), ", ")
  }

  function TermTexts(d: Dialect, ts: seq<OrderTerm>): seq<string> {
    if ts == [] then []
    else
      [match ts[0] case Directed(col, direction) => Ident(d, col) + " " + direction case Term(text) => Ident(d, text)]
      + TermTexts(d, ts[1..])
  }

  function IntText(n: int): string {
    if n < 0 then "-" + Decimal(-n) else Decimal(n)
  }

  // A written count reads back as the count.
  lemma IntReadsBack(n: int)
    requires IsInt64(n) && IsInt64(-n)
    ensures var text := IntText(n);
            if n < 0 then text[0] == '-' && DigitsValue(text, 1, |text|) == -n
            else DigitsValue(text, 0, |text|) == n
  {
    var text := IntText(n);
    if n < 0 {
      assert text[1..1 + |Decimal(-n)|] == Decimal(-n);
      DigitsValueReadsDecimal(text, 1, -n);
    } else {
      assert text[0..0 + |Decimal(n)|] == Decimal(n);
      DigitsValueReadsDecimal(text, 0, n);
    }
  }

  function CountText(keyword: string, n: Option<int>): string {
    if n.None? then "" else keyword + IntText(n.value)
  }

  lemma ClauseIs(d: Dialect, keyword: string, exprs: seq<Expr>, n: nat)
    requires Clause(d, keyword, exprs).Ok?
    ensures ClausePieces(d, exprs).Ok?
    ensures Written(d, Clause(d, keyword, exprs).value, n) == ClauseText(d, keyword, exprs, n)
  {
    hide ClausePieces;
    if exprs == [] {
      EmptyClause(d);
    } else {
      var ps := ClausePieces(d, exprs).value;
      WrittenAppend(d, [Verbatim(keyword)], ps, n);
      WrittenOne(d, Verbatim(keyword), n);
      NoArgs([Verbatim(keyword)]);
    }
  }

  lemma EmptyClause(d: Dialect)
    ensures ClausePieces(d, []) == Ok([])
  {
  }

  lemma ListClauseIs(d: Dialect, keyword: string, cols: seq<string>, n: nat)
    ensures Written(d, ListClause(keyword, cols), n) == NamesClause(d, keyword, cols)
    ensures Args(ListClause(keyword, cols)) == []
  {
    hide Idents, IdentTexts, Listed, Written, Args;
    ListClauseBinds(keyword, cols);
    if cols == [] {
      NothingWritten(d, n);
    } else {
      IdentsText(d, cols, n);
      WrittenAppend(d, [Verbatim(keyword)], Idents(cols), n);
      WrittenOne(d, Verbatim(keyword), n);
      NoArgs([Verbatim(keyword)]);
    }
  }

  lemma TableIs(d: Dialect, t: TableRef, n: nat)
    ensures Written(d, TablePieces(t), n) == TableText(d, t) && Args(TablePieces(t)) == []
  {
    hide Ident;
    NoArgs(TablePieces(t));
    match t {
      case Table(name) => WrittenOne(d, Column(name), n);
      case Aliased(name, word, alias) =>
        var a, b, c := [Column(name)], [Verbatim(word)], [Column(alias)];
        assert TablePieces(t) == a + b + c;
        WrittenAppend(d, a + b, c, n);
        WrittenAppend(d, a, b, n);
        WrittenOne(d, Column(name), n);
        WrittenOne(d, Verbatim(word), n);
        WrittenOne(d, Column(alias), n);
        NoArgs(a);
        NoArgs(a + b);
      case Other(text) => WrittenOne(d, Verbatim(text), n);
    }
  }

  lemma {:induction false} TermsIs(d: Dialect, ts: seq<OrderTerm>, n: nat)
    ensures Written(d, Terms(ts), n) == Listed(TermTexts(d, ts), ", ") && Args(Terms(ts)) == []
  {
    hide Ident, Listed, Written, Args, TermPieces;
    NoneListed();
    NothingWritten(d, n);
    TermsBindNothing(ts);
    NoArgs(Terms(ts));
    if ts != [] {
      TermsIs(d, ts[1..], n);
      TermIs(d, ts[0], n);
      TermNoArgs(ts[0]);
      ListStep(d, TermPieces(ts[0]), |ts| > 1, Terms(ts[1..]), n, n, TermTexts(d, [ts[0]])[0], TermTexts(d, ts[1..]));
    }
  }

  lemma TermNoArgs(t: OrderTerm)
    ensures Args(TermPieces(t)) == []
  {
    NoArgs(TermPieces(t));
  }

  lemma TermIs(d: Dialect, t: OrderTerm, n: nat)
    ensures Written(d, TermPieces(t), n) == TermTexts(d, [t])[0]
  {
    hide Ident;
    match t {
      case Directed(col, direction) =>
        assert TermPieces(t) == [Column(col)] + [Verbatim(" " + direction)];
        WrittenAppend(d, [Column(col)], [Verbatim(" " + direction)], n);
        WrittenOne(d, Column(col), n);
        NoArgs([Column(col)]);
        WrittenOne(d, Verbatim(" " + direction), n);
        assert Ident(d, col) + (" " + direction) == Ident(d, col) + " " + direction;
      case Term(text) => WrittenOne(d, Column(text), n);
    }
  }

  lemma OrderIs(d: Dialect, ts: seq<OrderTerm>, n: nat)
    ensures Written(d, OrderClause(ts), n) == if ts == [] then "" else " ORDER BY " + Listed(TermTexts(d, ts), ", ")
    ensures Args(OrderClause(ts)) == []
  {
    hide Terms, TermTexts;
    OrderBinds(ts);
    if ts != [] {
      TermsIs(d, ts, n);
      WrittenAppend(d, [Verbatim(" ORDER BY ")], Terms(ts), n);
      WrittenOne(d, Verbatim(" ORDER BY "), n);
      NoArgs([Verbatim(" ORDER BY ")]);
    }
  }

  lemma CountIs(d: Dialect, keyword: string, c: Option<int>, n: nat)
    ensures Written(d, CountClause(keyword, c), n) == CountText(keyword, c) && Args(CountClause(keyword, c)) == []
  {
    hide Decimal;
    NoArgs(CountClause(keyword, c));
    if c.Some? {
      var a, b := [Verbatim(keyword)], [Verbatim(Signed(c.value))];
      assert CountClause(keyword, c) == a + b;
      WrittenAppend(d, a, b, n);
      WrittenOne(d, Verbatim(keyword), n);
      NoArgs(a);
      WrittenOne(d, Verbatim(Signed(c.value)), n);
    }
  }

  // ----- SELECT

  function HeadText(d: Dialect, q: SelectQuery): string {
    "SELECT " + (if q.distinct then "DISTINCT " else "")
    + (if q.columns == [] then "*" else Listed(IdentTexts(d, q.columns), ", "))
    + (if q.from.None? then "" else " FROM " + TableText(d, q.from.value))
  }

  lemma HeadIs(d: Dialect, q: SelectQuery)
    ensures Written(d, SelectHead(q), 0) == HeadText(d, q) && Args(SelectHead(q)) == []
  {
    hide Idents, TablePieces, IdentTexts, TableText, Written, Args, Listed;
    SelectHeadBinds(q);
    var a := [Verbatim("SELECT ")];
    var b := if q.distinct then [Verbatim("DISTINCT ")] else [];
    var c := if q.columns == [] then [Verbatim("*")] else Idents(q.columns);
    var e := if q.from.None? then [] else [Verbatim(" FROM ")] + TablePieces(q.from.value);
    HeadParts(d, q);
    WrittenAppend(d, a + b + c, e, 0);
    WrittenAppend(d, a + b, c, 0);
    WrittenAppend(d, a, b, 0);
    ArgsAppend(a + b, c);
    ArgsAppend(a, b);
    WrittenOne(d, Verbatim("SELECT "), 0);
  }

  lemma HeadParts(d: Dialect, q: SelectQuery)
    ensures Args([Verbatim("SELECT ")]) == []
    ensures var b := if q.distinct then [Verbatim("DISTINCT ")] else [];
            Written(d, b, 0) == (if q.distinct then "DISTINCT " else "") && Args(b) == []
    ensures var c := if q.columns == [] then [Verbatim("*")] else Idents(q.columns);
            && Written(d, c, 0) == (if q.columns == [] then "*" else Listed(IdentTexts(d, q.columns), ", "))
            && Args(c) == []
    ensures var e := if q.from.None? then [] else [Verbatim(" FROM ")] + TablePieces(q.from.value);
            Written(d, e, 0) == if q.from.None? then "" else " FROM " + TableText(d, q.from.value)
  {
    hide Idents, TablePieces, IdentTexts, TableText;
    NoArgs([Verbatim("SELECT ")]);
    NoArgs([Verbatim("DISTINCT ")]);
    WrittenOne(d, Verbatim("DISTINCT "), 0);
    NoArgs([Verbatim("*")]);
    WrittenOne(d, Verbatim("*"), 0);
    IdentsText(d, q.columns, 0);
    if q.from.Some? {
      TableIs(d, q.from.value, 0);
      WrittenAppend(d, [Verbatim(" FROM ")], TablePieces(q.from.value), 0);
      WrittenOne(d, Verbatim(" FROM "), 0);
      NoArgs([Verbatim(" FROM ")]);
    }
  }

  function JoinText(d: Dialect, j: Join, n: nat): string
    requires !j.on.Nil? ==> Pieces(d, j.on).Ok?
  {
    " " + j.kind + " " + TableText(d, j.table) + (if j.on.Nil? then "" else " ON " + ConditionText(d, j.on, n))
  }

  ghost predicate JoinsFit(d: Dialect, js: seq<Join>) {
    forall k :: 0 <= k < |js| ==> !js[k].on.Nil? ==> Pieces(d, js[k].on).Ok?
  }

  // The joins one after another, each numbered after the values of those before it.
  ghost function JoinsText(d: Dialect, js: seq<Join>, n: nat): string
    requires JoinsFit(d, js)
  {
    if js == [] then "" else JoinText(d, js[0], n) + JoinsText(d, js[1..], n + |Values(js[0].on)|)
  }

  lemma JoinHeadIs(d: Dialect, j: Join, n: nat)
    ensures var head := [Verbatim(" "), Verbatim(j.kind), Verbatim(" ")] + TablePieces(j.table);
            Written(d, head, n) == " " + j.kind + " " + TableText(d, j.table) && Args(head) == []
  {
    TableIs(d, j.table, n);
    hide TablePieces, TableText, Written, Args;
    var a, b, t := [Verbatim(" ")], [Verbatim(j.kind)], TablePieces(j.table);
    assert [Verbatim(" "), Verbatim(j.kind), Verbatim(" ")] == a + b + a;
    NoArgs(a);
    NoArgs(b);
    NoArgs(a + b + a);
    InThree(d, a, b, a, n, n, n);
    WrittenAppend(d, a + b + a, t, n);
    ArgsAppend(a + b + a, t);
    WrittenOne(d, Verbatim(" "), n);
    WrittenOne(d, Verbatim(j.kind), n);
  }

  lemma JoinIs(d: Dialect, j: Join, n: nat)
    requires JoinPieces(d, j).Ok?
    ensures !j.on.Nil? ==> Pieces(d, j.on).Ok?
    ensures Written(d, JoinPieces(d, j).value, n) == JoinText(d, j, n)
  {
    hide Pieces, TablePieces, TableText, Written, Args;
    JoinHeadIs(d, j, n);
    if !j.on.Nil? {
      var head := [Verbatim(" "), Verbatim(j.kind), Verbatim(" ")] + TablePieces(j.table);
      NoArgs([Verbatim(" ON ")]);
      WrittenOne(d, Verbatim(" ON "), n);
      InThree(d, head, [Verbatim(" ON ")], Pieces(d, j.on).value, n, n, n);
      var h, o, t := Written(d, head, n), " ON ", ConditionText(d, j.on, n);
      assert h + o + t == h + (o + t);
    }
  }

  lemma {:induction false} JoinsIs(d: Dialect, js: seq<Join>, n: nat)
    requires JoinsPieces(d, js).Ok?
    ensures JoinsFit(d, js) && Written(d, JoinsPieces(d, js).value, n) == JoinsText(d, js, n)
    decreases |js|
  {
    hide JoinPieces, Pieces, Values, JoinText;
    if js != [] {
      JoinIs(d, js[0], n);
      JoinBinds(d, js[0]);
      JoinsIs(d, js[1..], n + |Values(js[0].on)|);
      WrittenAppend(d, JoinPieces(d, js[0]).value, JoinsPieces(d, js[1..]).value, n);
    }
  }

  lemma BuiltText(d: Dialect, r: Built, ps: Written3)
    requires Builds(d, Ok(r), ps)
    ensures ps.Ok? && r.text == Written(d, ps.value, 0)
  {
  }

  // A SELECT, from its first letter to its last.
  lemma SelectSpelled(d: Dialect, q: SelectQuery, r: Built)
    requires Builds(d, Ok(r), SelectPieces(d, q))
    ensures JoinsFit(d, q.joins) && ClausePieces(d, q.conds).Ok? && ClausePieces(d, q.having).Ok?
    ensures var j := |JoinsValues(q.joins)|;
            var w := j + |ListValues(q.conds)|;
            r.text ==
            HeadText(d, q) + JoinsText(d, q.joins, 0) + ClauseText(d, " WHERE ", q.conds, j)
            + NamesClause(d, " GROUP BY ", q.groupBy) + ClauseText(d, " HAVING ", q.having, w)
            + (if q.orderBy == [] then "" else " ORDER BY " + Listed(TermTexts(d, q.orderBy), ", "))
            + CountText(" LIMIT ", q.limit) + CountText(" OFFSET ", q.offset)
  {
    hide *;
    BuiltText(d, r, SelectPieces(d, q));
    var ps := SelectParts(d, q);
    var j := |JoinsValues(q.joins)|;
    var w := j + |ListValues(q.conds)|;
    HeadIs(d, q);
    JoinsIs(d, q.joins, 0);
    JoinsBind(d, q.joins);
    ClauseIs(d, " WHERE ", q.conds, j);
    ClauseBinds(d, " WHERE ", q.conds);
    ListClauseIs(d, " GROUP BY ", q.groupBy, w);
    ClauseIs(d, " HAVING ", q.having, w);
    ClauseBinds(d, " HAVING ", q.having);
    var h := w + |ListValues(q.having)|;
    OrderIs(d, q.orderBy, h);
    CountIs(d, " LIMIT ", q.limit, h);
    CountIs(d, " OFFSET ", q.offset, h);
    Written8(d, ps[0], ps[1], ps[2], ps[3], ps[4], ps[5], ps[6], ps[7], 0, j, w, h);
  }

  lemma SelectParts(d: Dialect, q: SelectQuery) returns (ps: seq<seq<Piece>>)
    requires SelectPieces(d, q).Ok?
    ensures JoinsPieces(d, q.joins).Ok? && Clause(d, " WHERE ", q.conds).Ok? && Clause(d, " HAVING ", q.having).Ok?
    ensures ps == [SelectHead(q), JoinsPieces(d, q.joins).value, Clause(d, " WHERE ", q.conds).value,
                   ListClause(" GROUP BY ", q.groupBy), Clause(d, " HAVING ", q.having).value, OrderClause(q.orderBy),
                   CountClause(" LIMIT ", q.limit), CountClause(" OFFSET ", q.offset)]
    ensures SelectPieces(d, q).value == ps[0] + ps[1] + ps[2] + ps[3] + ps[4] + ps[5] + ps[6] + ps[7]
  {
    hide JoinsPieces, Clause, ListClause, OrderClause, CountClause, SelectHead;
    ps := [SelectHead(q), JoinsPieces(d, q.joins).value, Clause(d, " WHERE ", q.conds).value,
           ListClause(" GROUP BY ", q.groupBy), Clause(d, " HAVING ", q.having).value, OrderClause(q.orderBy),
           CountClause(" LIMIT ", q.limit), CountClause(" OFFSET ", q.offset)];
  }

  // Eight parts in a row, with the arguments counted on.
  lemma Written8(d: Dialect, p0: seq<Piece>, p1: seq<Piece>, p2: seq<Piece>, p3: seq<Piece>, p4: seq<Piece>,
                 p5: seq<Piece>, p6: seq<Piece>, p7: seq<Piece>, i: nat, j: nat, w: nat, h: nat)
    requires i == |Args(p0)| && j == i + |Args(p1)| && w == j + |Args(p2)| && |Args(p3)| == 0
    requires h == w + |Args(p4)| && |Args(p5)| == |Args(p6)| == 0
    ensures Written(d, p0 + p1 + p2 + p3 + p4 + p5 + p6 + p7, 0) ==
            Written(d, p0, 0) + Written(d, p1, i) + Written(d, p2, j) + Written(d, p3, w) + Written(d, p4, w)
            + Written(d, p5, h) + Written(d, p6, h) + Written(d, p7, h)
  {
    hide Written, Args;
    var a1, a2 := p0 + p1, p0 + p1 + p2;
    var a3 := a2 + p3;
    var a4 := a3 + p4;
    var a5 := a4 + p5;
    var a6 := a5 + p6;
    ArgsAppend(p0, p1);
    ArgsAppend(a1, p2);
    ArgsAppend(a2, p3);
    ArgsAppend(a3, p4);
    ArgsAppend(a4, p5);
    ArgsAppend(a5, p6);
    WrittenAppend(d, p0, p1, 0);
    WrittenAppend(d, a1, p2, 0);
    WrittenAppend(d, a2, p3, 0);
    WrittenAppend(d, a3, p4, 0);
    WrittenAppend(d, a4, p5, 0);
    WrittenAppend(d, a5, p6, 0);
    WrittenAppend(d, a6, p7, 0);
  }

  lemma Written4(d: Dialect, p0: seq<Piece>, p1: seq<Piece>, p2: seq<Piece>, p3: seq<Piece>, i: nat, j: nat, w: nat)
    requires i == |Args(p0)| && j == i + |Args(p1)| && w == j + |Args(p2)|
    ensures Written(d, p0 + p1 + p2 + p3, 0) ==
            Written(d, p0, 0) + Written(d, p1, i) + Written(d, p2, j) + Written(d, p3, w)
  {
    hide Written, Args;
    ArgsAppend(p0, p1);
    ArgsAppend(p0 + p1, p2);
    WrittenAppend(d, p0, p1, 0);
    WrittenAppend(d, p0 + p1, p2, 0);
    WrittenAppend(d, p0 + p1 + p2, p3, 0);
  }

  // ----- INSERT, UPDATE, DELETE

  function InsertHeadText(d: Dialect, q: InsertQuery): string {
    "INSERT INTO " + Ident(d, q.table)
    + NamedText(d, q.columns) + " VALUES "
  }

  function NamedText(d: Dialect, columns: seq<string>): string {
    if columns == [] then "" else " (" + Listed(IdentTexts(d, columns), ", ") + ")"
  }

  // An INSERT: table, columns, one row of placeholders for each row of values.
  lemma InsertSpelled(d: Dialect, q: InsertQuery, r: Built)
    requires Builds(d, Ok(r), InsertPieces(d, q))
    ensures r.text ==
            InsertHeadText(d, q) + Listed(TupleTexts(d, 0, q.rows), ", ")
            + (if q.conflict == "" then "" else " ON CONFLICT " + q.conflict)
            + NamesClause(d, " RETURNING ", q.returning)
  {
    hide Tuples, ListClause, TupleTexts, NamesClause, InsertHeadText, NamedColumns, Conflict, Flat, Written, Args;
    hide Listed, BadRow;
    var head := [Verbatim("INSERT INTO "), Column(q.table)] + NamedColumns(q.columns) + [Verbatim(" VALUES ")];
    var m := |Flat(q.rows)|;
    InsertHeadIs(d, q);
    TuplesText(d, q.rows, 0);
    TuplesBind(q.rows);
    ConflictIs(d, q.conflict, m);
    ListClauseIs(d, " RETURNING ", q.returning, m);
    Written4(d, head, Tuples(q.rows), Conflict(q.conflict), ListClause(" RETURNING ", q.returning), 0, m, m);
  }

  lemma ConflictIs(d: Dialect, conflict: string, n: nat)
    ensures Written(d, Conflict(conflict), n) == if conflict == "" then "" else " ON CONFLICT " + conflict
    ensures Args(Conflict(conflict)) == []
  {
    NoArgs(Conflict(conflict));
    if conflict != "" {
      var a, b := [Verbatim(" ON CONFLICT ")], [Verbatim(conflict)];
      assert Conflict(conflict) == a + b;
      WrittenAppend(d, a, b, n);
      WrittenOne(d, Verbatim(" ON CONFLICT "), n);
      NoArgs(a);
      WrittenOne(d, Verbatim(conflict), n);
    }
  }

  lemma InsertHeadIs(d: Dialect, q: InsertQuery)
    ensures var head := [Verbatim("INSERT INTO "), Column(q.table)] + NamedColumns(q.columns) + [Verbatim(" VALUES ")];
            Written(d, head, 0) == InsertHeadText(d, q) && Args(head) == []
  {
    hide Idents, IdentTexts, Ident, Written, Args, NamedColumns, NamedText;
    var a, b, c, e := [Verbatim("INSERT INTO ")], [Column(q.table)], NamedColumns(q.columns), [Verbatim(" VALUES ")];
    NamedBinds(q.columns);
    NamedIs(d, q.columns);
    NoArgs(a);
    NoArgs(b);
    NoArgs(e);
    ArgsAppend(a, b);
    WrittenAppend(d, a, b, 0);
    InThree(d, a + b, c, e, 0, 0, 0);
    WrittenOne(d, Verbatim("INSERT INTO "), 0);
    WrittenOne(d, Column(q.table), 0);
    WrittenOne(d, Verbatim(" VALUES "), 0);
    assert [Verbatim("INSERT INTO "), Column(q.table)] == a + b;
  }

  lemma NamedIs(d: Dialect, columns: seq<string>)
    ensures Written(d, NamedColumns(columns), 0) == NamedText(d, columns)
  {
    hide Idents, IdentTexts, Listed, Written, Args;
    if columns == [] {
      NothingWritten(d, 0);
    } else {
      IdentsBindNothing(columns);
      NoArgs(Idents(columns));
      NoArgs([Verbatim(" (")]);
      IdentsText(d, columns, 0);
      InThree(d, [Verbatim(" (")], Idents(columns), [Close], 0, 0, 0);
      WrittenOne(d, Verbatim(" ("), 0);
      WrittenOne(d, Close, 0);
    }
  }

  ghost predicate SetsFit(d: Dialect, sets: seq<SetPair>) {
    forall k :: 0 <= k < |sets| ==> sets[k].SetExpr? && !sets[k].raw.Nil? ==> Pieces(d, sets[k].raw).Ok?
  }

  // Each assignment, numbered after those before it.
  ghost function SetTexts(d: Dialect, sets: seq<SetPair>, n: nat): seq<string>
    requires SetsFit(d, sets)
  {
    if sets == [] then []
    else
      var s := sets[0];
      var bound := s.SetTo? || s.raw.Nil?;
      [Ident(d, s.col) + " = " + (if bound then Layout.Mark(d, n + 1) else ConditionText(d, s.raw, n))]
      + SetTexts(d, sets[1..], n + (if bound then 1 else |Values(s.raw)|))
  }

  lemma SetIs(d: Dialect, s: SetPair, n: nat)
    requires SetPieces(d, s).Ok?
    ensures s.SetExpr? && !s.raw.Nil? ==> Pieces(d, s.raw).Ok?
    ensures Written(d, SetPieces(d, s).value, n) ==
            Ident(d, s.col) + " = "
            + (if s.SetTo? || s.raw.Nil? then Layout.Mark(d, n + 1) else ConditionText(d, s.raw, n))
  {
    hide Ident, Pieces, Placeholder, Layout.Mark, Written, Args;
    var a, b := [Column(s.col)], [Verbatim(" = ")];
    assert [Column(s.col), Verbatim(" = ")] == a + b;
    NoArgs(a);
    NoArgs(b);
    WrittenOne(d, Column(s.col), n);
    WrittenOne(d, Verbatim(" = "), n);
    if s.SetTo? || s.raw.Nil? {
      var v := if s.SetTo? then s.val else Value.Null;
      assert SetPieces(d, s).value == a + b + [Bound(v)];
      InThree(d, a, b, [Bound(v)], n, n, n);
      WrittenOne(d, Bound(v), n);
      MarkIs(d, n + 1);
    } else {
      InThree(d, a, b, Pieces(d, s.raw).value, n, n, n);
    }
  }

  lemma {:induction false} SetsIs(d: Dialect, sets: seq<SetPair>, n: nat)
    requires SetsPieces(d, sets).Ok?
    ensures SetsFit(d, sets) && Written(d, SetsPieces(d, sets).value, n) == Listed(SetTexts(d, sets, n), ", ")
    decreases |sets|
  {
    hide SetPieces, Pieces, Values, Ident, Listed, Written, Args, Layout.Mark, ConditionText;
    NoneListed();
    NothingWritten(d, n);
    if sets != [] {
      var s := sets[0];
      var n' := n + (if s.SetTo? || s.raw.Nil? then 1 else |Values(s.raw)|);
      SetIs(d, s, n);
      SetBinds(d, s);
      SetsIs(d, sets[1..], n');
      ListStep(d, SetPieces(d, s).value, |sets| > 1, SetsPieces(d, sets[1..]).value, n, n', SetTexts(d, sets, n)[0],
               SetTexts(d, sets[1..], n'));
    }
  }

  // An UPDATE: its assignments, then its conditions.
  lemma UpdateSpelled(d: Dialect, q: UpdateQuery, r: Built)
    requires Builds(d, Ok(r), UpdatePieces(d, q))
    ensures SetsFit(d, q.sets) && ClausePieces(d, q.conds).Ok?
    ensures r.text ==
            "UPDATE " + Ident(d, q.table) + " SET " + Listed(SetTexts(d, q.sets, 0), ", ")
            + ClauseText(d, " WHERE ", q.conds, |SetsValues(q.sets)|) + NamesClause(d, " RETURNING ", q.returning)
  {
    hide SetsPieces, Clause, ListClause, SetsValues, ListValues, Ident, Written, Args;
    hide ClauseText, NamesClause, SetTexts, Listed, SetsFit, ClausePieces;
    var head := [Verbatim("UPDATE "), Column(q.table), Verbatim(" SET ")];
    var m := |SetsValues(q.sets)|;
    var w := m + |ListValues(q.conds)|;
    UpdateHeadIs(d, q.table);
    SetsIs(d, q.sets, 0);
    SetsBind(d, q.sets);
    ClauseIs(d, " WHERE ", q.conds, m);
    ClauseBinds(d, " WHERE ", q.conds);
    ListClauseIs(d, " RETURNING ", q.returning, w);
    Written4(d, head, SetsPieces(d, q.sets).value, Clause(d, " WHERE ", q.conds).value,
             ListClause(" RETURNING ", q.returning), 0, m, w);
  }

  lemma UpdateHeadIs(d: Dialect, table: string)
    ensures var head := [Verbatim("UPDATE "), Column(table), Verbatim(" SET ")];
            Written(d, head, 0) == "UPDATE " + Ident(d, table) + " SET " && Args(head) == []
  {
    hide Ident, Written, Args;
    var a, b, c := [Verbatim("UPDATE ")], [Column(table)], [Verbatim(" SET ")];
    assert [Verbatim("UPDATE "), Column(table), Verbatim(" SET ")] == a + b + c;
    NoArgs(a);
    NoArgs(b);
    NoArgs(a + b + c);
    InThree(d, a, b, c, 0, 0, 0);
    WrittenOne(d, Verbatim("UPDATE "), 0);
    WrittenOne(d, Column(table), 0);
    WrittenOne(d, Verbatim(" SET "), 0);
  }

  // A DELETE: its table and its conditions.
  lemma DeleteSpelled(d: Dialect, q: DeleteQuery, r: Built)
    requires Builds(d, Ok(r), DeletePieces(d, q))
    ensures ClausePieces(d, q.conds).Ok?
    ensures r.text ==
            "DELETE FROM " + Ident(d, q.table) + ClauseText(d, " WHERE ", q.conds, 0)
            + NamesClause(d, " RETURNING ", q.returning)
  {
    hide Clause, ListClause, ListValues, Ident, Written, Args, ClauseText, NamesClause, ClausePieces;
    var a, b := [Verbatim("DELETE FROM ")], [Column(q.table)];
    var w := |ListValues(q.conds)|;
    assert [Verbatim("DELETE FROM "), Column(q.table)] == a + b;
    NoArgs(a);
    NoArgs(b);
    WrittenOne(d, Verbatim("DELETE FROM "), 0);
    WrittenOne(d, Column(q.table), 0);
    ClauseIs(d, " WHERE ", q.conds, 0);
    ClauseBinds(d, " WHERE ", q.conds);
    ListClauseIs(d, " RETURNING ", q.returning, w);
    Written4(d, a, b, Clause(d, " WHERE ", q.conds).value, ListClause(" RETURNING ", q.returning), 0, 0, w);
  }

  // ----- the names of an INSERT, read back

  function Splits(names: seq<string>): (columns: seq<seq<string>>)
    ensures |columns| == |names| && forall k :: 0 <= k < |names| ==> columns[k] == Split(names[k])
  {
    seq(|names|, k requires 0 <= k < |names| => Split(names[k]))
  }

  lemma {:induction false} PartsQuoted(parts: seq<string>, q: char)
    requires forall k :: 0 <= k < |parts| ==> parts[k] != "*"
    ensures QuotedParts(parts, q) == QuotedList(parts, q, ".")
  {
    hide Quoted;
    if parts != [] {
      PartsQuoted(parts[1..], q);
    }
  }

  lemma IdentQuoted(d: Dialect, name: string)
    requires PlainColumn(name)
    ensures Ident(d, name) == QuotedList(Split(name), d.quote, ".")
  {
    var parts := Split(name);
    forall k | 0 <= k < |parts|
      ensures parts[k] != "*"
    {
      assert PlainPart(parts[k]);
      assert PlainByte(parts[k][0], true);
    }
    PartsQuoted(parts, d.quote);
  }

  lemma {:induction false} IdentsQuoted(d: Dialect, names: seq<string>)
    requires forall k :: 0 <= k < |names| ==> PlainColumn(names[k])
    ensures Listed(IdentTexts(d, names), ", ") == QuotedColumns(Splits(names), d.quote)
  {
    hide Ident, PlainColumn, Split, QuotedList;
    if names != [] {
      IdentQuoted(d, names[0]);
      IdentsQuoted(d, names[1..]);
      assert Splits(names)[1..] == Splits(names[1..]);
      ListedFront(Ident(d, names[0]), IdentTexts(d, names[1..]), ", ");
      var first, rest := QuotedList(Split(names[0]), d.quote, "."), QuotedColumns(Splits(names[1..]), d.quote);
      assert first + ", " + rest == first + (", " + rest);
      assert first + "" + "" == first;
    }
  }

  // The table and the columns of an INSERT, and those after RETURNING, are read back
  // out of its text.
  lemma InsertNamesReadBack(d: Dialect, q: InsertQuery, r: Built)
    requires Builds(d, Ok(r), InsertPieces(d, q)) && QuoteByte(d.quote) && PlainColumn(q.table) && q.columns != []
    requires forall k :: 0 <= k < |q.columns| ==> PlainColumn(q.columns[k])
    requires forall k :: 0 <= k < |q.returning| ==> PlainColumn(q.returning[k])
    ensures var after := Listed(TupleTexts(d, 0, q.rows), ", ")
                         + (if q.conflict == "" then "" else " ON CONFLICT " + q.conflict);
            var returning := NamesClause(d, " RETURNING ", q.returning);
            && ReadInsert(r.text, d.quote) == Some(Head(Split(q.table), Splits(q.columns), after + returning))
            && if q.returning == [] then returning == ""
               else ReadReturning(returning, d.quote) == Some(Splits(q.returning))
  {
    hide *;
    InsertSpelled(d, q, r);
    var after := Listed(TupleTexts(d, 0, q.rows), ", ")
                 + (if q.conflict == "" then "" else " ON CONFLICT " + q.conflict);
    var returning := NamesClause(d, " RETURNING ", q.returning);
    HeadReadsBack(d, q, after + returning);
    assert r.text == InsertHeadText(d, q) + (after + returning);
    ReturningBack(d, q.returning);
  }

  lemma HeadReadsBack(d: Dialect, q: InsertQuery, rest: string)
    requires QuoteByte(d.quote) && PlainColumn(q.table) && q.columns != []
    requires forall k :: 0 <= k < |q.columns| ==> PlainColumn(q.columns[k])
    ensures ReadInsert(InsertHeadText(d, q) + rest, d.quote) == Some(Head(Split(q.table), Splits(q.columns), rest))
  {
    hide Ident, IdentTexts, PlainColumn, QuotedList, QuotedColumns, ReadInsert, Split, Listed, QuoteByte;
    IdentQuoted(d, q.table);
    IdentsQuoted(d, q.columns);
    var table, columns := Ident(d, q.table), Listed(IdentTexts(d, q.columns), ", ");
    InsertHeadReadsBack(Split(q.table), Splits(q.columns), d.quote, rest);
    assert ")" + " VALUES " + rest == ") VALUES " + rest;
    Regrouped("INSERT INTO ", table, " (", columns, ")", " VALUES ", rest);
  }

  lemma Regrouped(a: string, b: string, c: string, e: string, f: string, g: string, h: string)
    ensures a + b + (c + e + f) + g + h == a + (b + (c + (e + (f + g + h))))
  {
  }

  lemma ReturningBack(d: Dialect, names: seq<string>)
    requires QuoteByte(d.quote) && forall k :: 0 <= k < |names| ==> PlainColumn(names[k])
    ensures var returning := NamesClause(d, " RETURNING ", names);
            if names == [] then returning == "" else ReadReturning(returning, d.quote) == Some(Splits(names))
  {
    hide IdentTexts, PlainColumn, QuotedColumns, ReadReturning, Split, Listed, QuoteByte;
    if names != [] {
      IdentsQuoted(d, names);
      ReturningReadsBack(Splits(names), d.quote);
    }
  }

  // ----- raw fragments

  // The text between the question marks.
  function Between(sql: string): (segs: seq<string>)
    ensures segs != []
  {
    if sql == "" then [""]
    else
      var rest := Between(sql[1..]);
      if sql[0] == '?' then [""] + rest else [[sql[0]] + rest[0]] + rest[1..]
  }

  lemma {:induction false} BetweenMark(sql: string)
    requires Conditions.Mark(sql) < |sql|
    ensures Between(sql) == [sql[..Conditions.Mark(sql)]] + Between(sql[Conditions.Mark(sql) + 1..])
  {
    if sql[0] != '?' {
      BetweenMark(sql[1..]);
      var i := Conditions.Mark(sql[1..]);
      assert sql[1..][i + 1..] == sql[i + 2..];
      assert sql[..i + 1] == [sql[0]] + sql[1..][..i];
    }
  }

  lemma {:induction false} BetweenNone(sql: string)
    requires Conditions.Mark(sql) == |sql|
    ensures Between(sql) == [sql]
  {
    if sql != "" {
      BetweenNone(sql[1..]);
      assert [sql[0]] + sql[1..] == sql;
    }
  }

  // A raw fragment is its own text with its question marks, and nothing else,
  // replaced by placeholders.
  lemma {:induction false} RawSpelled(d: Dialect, sql: string, args: seq<Value>)
    requires Marks(sql) == |args|
    ensures Segments(d, RawPieces(sql, args)) == Between(sql)
    decreases |args|
  {
    hide Conditions.Mark, Marks, Segments, Between;
    MarkSplits(sql);
    if args == [] {
      BetweenNone(sql);
      SegmentsStep(d, Verbatim(sql), []);
      assert [Verbatim(sql)] + [] == [Verbatim(sql)];
      NoSegments(d);
      assert sql + "" == sql;
    } else {
      var i := Conditions.Mark(sql);
      var rest := RawPieces(sql[i + 1..], args[1..]);
      RawSpelled(d, sql[i + 1..], args[1..]);
      BetweenMark(sql);
      SegmentsStep(d, Verbatim(sql[..i]), [Bound(args[0])] + rest);
      assert [Verbatim(sql[..i])] + ([Bound(args[0])] + rest) == [Verbatim(sql[..i]), Bound(args[0])] + rest;
      SegmentsStep(d, Bound(args[0]), rest);
      assert sql[..i] + "" == sql[..i];
    }
  }

  lemma SegmentsStep(d: Dialect, p: Piece, ps: seq<Piece>)
    ensures var rest := Segments(d, ps);
            Segments(d, [p] + ps) ==
            (if p.Bound? then [""] + rest else [PieceText(d, p, 0) + rest[0]] + rest[1..])
  {
    assert ([p] + ps)[1..] == ps;
  }

  lemma NoSegments(d: Dialect)
    ensures Segments(d, []) == [""]
  {
  }

  // ----- an empty list

  // An empty slice is written NULL, and membership in a list of NULL holds of nothing.
  lemma NullMatchesNothing(env: Env, x: Value)
    ensures In3(env, x, [Value.Null]).Unknown?
  {
    var truths := set v | v in [Value.Null] :: Compare3(env, Eq, x, v);
    assert Compare3(env, Eq, x, Value.Null) in truths;
  }
}
