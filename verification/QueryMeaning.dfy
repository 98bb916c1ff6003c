// What the WHERE and HAVING of a whole statement mean, numbered as they are
// after the values bound before them.

module QueryMeaning {
  import opened Wrappers
  import opened Dialects
  import opened Truth3
  import opened Integers
  import opened Conditions
  import opened ConditionArguments
  import opened ConditionMeaning
  import opened Queries
  import opened QueryArguments

  // Read where n arguments are bound before it, the text is the conjunction of
  // exprs on every row, whatever the operators mean.
  ghost predicate MeansAll(d: Dialect, text: string, n: nat, args: seq<Value>, exprs: seq<Expr>) {
    var r := Read(d, text, n);
    && r.Done? && r.rest == []
    && forall row, holds ::
         var env := Env(row, holds, args); Cond3(env, r.value) == Least(ClauseTruths(d, env, exprs))
  }

  predicate ClauseFits(d: Dialect, exprs: seq<Expr>) {
    && (d.quote == '"' || d.quote == '`')
    && exprs != [] && forall e :: e in exprs ==> Readable(e)
  }

  // The text of a clause inside a statement, between what is written before it
  // and after it.
  ghost predicate ClauseAt(d: Dialect, text: string, args: seq<Value>, before: seq<Piece>, keyword: string,
                           exprs: seq<Expr>, after: seq<Piece>)
    requires ClausePieces(d, exprs).Ok?
  {
    var ps, n := ClausePieces(d, exprs).value, |Args(before)|;
    && text == Written(d, before, 0) + keyword + Written(d, ps, n) + Written(d, after, n + |Args(ps)|)
    && MeansAll(d, Written(d, ps, n), n, args, exprs)
  }

  lemma ClauseMeans(d: Dialect, args: seq<Value>, exprs: seq<Expr>, n: nat)
    requires ClauseFits(d, exprs) && ClausePieces(d, exprs).Ok? && IsInt64(|args| + 1)
    requires n + |Args(ClausePieces(d, exprs).value)| <= |args|
    requires args[n..n + |Args(ClausePieces(d, exprs).value)|] == Args(ClausePieces(d, exprs).value)
    ensures MeansAll(d, Written(d, ClausePieces(d, exprs).value, n), n, args, exprs)
  {
    hide Read, Written, Args, ClausePieces, Cond3, Least, ClauseTruths, Readable;
    var text := Written(d, ClausePieces(d, exprs).value, n);
    forall row: seq<string> -> Value, holds: (Cmp, Value, Value) -> bool
      ensures var env := Env(row, holds, args);
              var r := Read(d, text, n);
              r.Done? && r.rest == [] && Cond3(env, r.value) == Least(ClauseTruths(d, env, exprs))
    {
      ClauseReadsBack(d, Env(row, holds, args), exprs, n);
    }
    var someRow: seq<string> -> Value := _ => Value.Null;
    var someHolds: (Cmp, Value, Value) -> bool := (_, _, _) => true;
    ClauseReadsBack(d, Env(someRow, someHolds, args), exprs, n);
  }

  // A clause between any two stretches of a statement.
  lemma ClauseInStatement(d: Dialect, before: seq<Piece>, keyword: string, exprs: seq<Expr>, after: seq<Piece>)
    requires ClauseFits(d, exprs) && Clause(d, keyword, exprs).Ok?
    requires IsInt64(|Args(before + Clause(d, keyword, exprs).value + after)| + 1)
    ensures ClausePieces(d, exprs).Ok?
    ensures var all := before + Clause(d, keyword, exprs).value + after;
            ClauseAt(d, Written(d, all, 0), Args(all), before, keyword, exprs, after)
  {
    hide Written, Args, ClausePieces, MeansAll, Readable;
    var ps := ClausePieces(d, exprs).value;
    var mid := [Verbatim(keyword)] + ps;
    var all, n := before + mid + after, |Args(before)|;
    WrittenAppend(d, before + mid, after, 0);
    WrittenAppend(d, before, mid, 0);
    WrittenAppend(d, [Verbatim(keyword)], ps, n);
    WrittenOne(d, Verbatim(keyword), n);
    ArgsAppend(before + mid, after);
    ArgsAppend(before, mid);
    ArgsAppend([Verbatim(keyword)], ps);
    ArgsOne(Verbatim(keyword));
    assert [] + Args(ps) == Args(ps);
    assert Args(all)[n..n + |Args(ps)|] == Args(ps);
    ClauseMeans(d, Args(all), exprs, n);
    assert Written(d, before, 0) + (keyword + Written(d, ps, n)) + Written(d, after, n + |Args(ps)|)
        == Written(d, before, 0) + keyword + Written(d, ps, n) + Written(d, after, n + |Args(ps)|);
  }

  // The WHERE of an UPDATE, numbered after the values its SET binds.
  lemma UpdateWhereMeans(d: Dialect, q: UpdateQuery)
    requires UpdatePieces(d, q).Ok? && ClauseFits(d, q.conds)
    requires IsInt64(|Args(UpdatePieces(d, q).value)| + 1)
    ensures ClausePieces(d, q.conds).Ok? && SetsPieces(d, q.sets).Ok?
    ensures var all := UpdatePieces(d, q).value;
            var before := [Verbatim("UPDATE "), Column(q.table), Verbatim(" SET ")] + SetsPieces(d, q.sets).value;
            && ClauseAt(d, Written(d, all, 0), Args(all), before, " WHERE ", q.conds,
                        ListClause(" RETURNING ", q.returning))
            && Args(before) == SetsValues(q.sets)
  {
    hide Written, Args, ClausePieces, SetsPieces, ListClause, ClauseAt, ClauseFits;
    var sets := SetsPieces(d, q.sets).value;
    var head := [Verbatim("UPDATE "), Column(q.table), Verbatim(" SET ")];
    ClauseInStatement(d, head + sets, " WHERE ", q.conds, ListClause(" RETURNING ", q.returning));
    NoArgs(head);
    SetsBind(d, q.sets);
    ArgsAppend(head, sets);
    assert [] + SetsValues(q.sets) == SetsValues(q.sets);
  }

  // The WHERE of a DELETE, which is numbered from 1.
  lemma DeleteWhereMeans(d: Dialect, q: DeleteQuery)
    requires DeletePieces(d, q).Ok? && ClauseFits(d, q.conds)
    requires IsInt64(|Args(DeletePieces(d, q).value)| + 1)
    ensures ClausePieces(d, q.conds).Ok?
    ensures var all := DeletePieces(d, q).value;
            var before := [Verbatim("DELETE FROM "), Column(q.table)];
            && ClauseAt(d, Written(d, all, 0), Args(all), before, " WHERE ", q.conds,
                        ListClause(" RETURNING ", q.returning))
            && Args(before) == []
  {
    hide Written, Args, ClausePieces, ListClause, ClauseAt, ClauseFits;
    ClauseInStatement(d, [Verbatim("DELETE FROM "), Column(q.table)], " WHERE ", q.conds,
                      ListClause(" RETURNING ", q.returning));
    NoArgs([Verbatim("DELETE FROM "), Column(q.table)]);
  }

  function SelectTail(q: SelectQuery): seq<Piece> {
    OrderClause(q.orderBy) + CountClause(" LIMIT ", q.limit) + CountClause(" OFFSET ", q.offset)
  }

  function SelectMiddle(d: Dialect, q: SelectQuery): seq<Piece>
    requires Clause(d, " HAVING ", q.having).Ok?
  {
    ListClause(" GROUP BY ", q.groupBy) + Clause(d, " HAVING ", q.having).value + SelectTail(q)
  }

  // The WHERE of a SELECT, numbered after the values its joins bind.
  lemma SelectWhereMeans(d: Dialect, q: SelectQuery)
    requires SelectPieces(d, q).Ok? && ClauseFits(d, q.conds)
    requires IsInt64(|Args(SelectPieces(d, q).value)| + 1)
    ensures JoinsPieces(d, q.joins).Ok? && ClausePieces(d, q.conds).Ok? && Clause(d, " HAVING ", q.having).Ok?
    ensures var all := SelectPieces(d, q).value;
            var before := SelectHead(q) + JoinsPieces(d, q.joins).value;
            && ClauseAt(d, Written(d, all, 0), Args(all), before, " WHERE ", q.conds, SelectMiddle(d, q))
            && Args(before) == JoinsValues(q.joins)
  {
    hide Written, Args, ClausePieces, JoinsPieces, ListClause;
    hide ClauseAt, ClauseFits, SelectHead, OrderClause, CountClause;
    var before := SelectHead(q) + JoinsPieces(d, q.joins).value;
    var conds := Clause(d, " WHERE ", q.conds).value;
    Regroup(before + conds, ListClause(" GROUP BY ", q.groupBy), Clause(d, " HAVING ", q.having).value,
            OrderClause(q.orderBy), CountClause(" LIMIT ", q.limit), CountClause(" OFFSET ", q.offset));
    ClauseInStatement(d, before, " WHERE ", q.conds, SelectMiddle(d, q));
    SelectHeadBinds(q);
    JoinsBind(d, q.joins);
    ArgsAppend(SelectHead(q), JoinsPieces(d, q.joins).value);
    assert [] + JoinsValues(q.joins) == JoinsValues(q.joins);
  }

  lemma Regroup(a: seq<Piece>, b: seq<Piece>, c: seq<Piece>, x: seq<Piece>, y: seq<Piece>, z: seq<Piece>)
    ensures a + b + c + x + y + z == a + (b + c + (x + y + z))
    ensures a + b + c + x + y + z == (a + b) + c + (x + y + z)
  {
  }

  // The HAVING of a SELECT, numbered after its joins and its WHERE.
  lemma SelectHavingMeans(d: Dialect, q: SelectQuery)
    requires SelectPieces(d, q).Ok? && ClauseFits(d, q.having)
    requires IsInt64(|Args(SelectPieces(d, q).value)| + 1)
    ensures JoinsPieces(d, q.joins).Ok? && Clause(d, " WHERE ", q.conds).Ok? && ClausePieces(d, q.having).Ok?
    ensures var all := SelectPieces(d, q).value;
            var before := SelectHead(q) + JoinsPieces(d, q.joins).value + Clause(d, " WHERE ", q.conds).value
                          + ListClause(" GROUP BY ", q.groupBy);
            && ClauseAt(d, Written(d, all, 0), Args(all), before, " HAVING ", q.having, SelectTail(q))
            && Args(before) == JoinsValues(q.joins) + ListValues(q.conds)
  {
    hide Written, Args, ClausePieces, JoinsPieces, ListClause;
    hide ClauseAt, ClauseFits, SelectHead, OrderClause, CountClause;
    hide JoinsValues, ListValues;
    var joins, conds := JoinsPieces(d, q.joins).value, Clause(d, " WHERE ", q.conds).value;
    var group := ListClause(" GROUP BY ", q.groupBy);
    Regroup(SelectHead(q) + joins + conds, group, Clause(d, " HAVING ", q.having).value,
            OrderClause(q.orderBy), CountClause(" LIMIT ", q.limit), CountClause(" OFFSET ", q.offset));
    ClauseInStatement(d, SelectHead(q) + joins + conds + group, " HAVING ", q.having, SelectTail(q));
    SelectHeadBinds(q);
    JoinsBind(d, q.joins);
    ClauseBinds(d, " WHERE ", q.conds);
    ListClauseBinds(" GROUP BY ", q.groupBy);
    Args4(SelectHead(q), joins, conds, group);
  }
}
