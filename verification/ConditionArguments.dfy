// The values a condition binds, read off the expression.

module ConditionArguments {
  import opened Wrappers
  import opened Dialects
  import opened Conditions

  // ----- the values of an expression, left to right

  function EntryValues(v: Value): seq<Value> {
    if v.Null? then [] else if v.List? then v.elems else [v]
  }

  function EntriesValues(m: map<string, Value>, keys: seq<string>): seq<Value>
    requires forall k :: k in keys ==> k in m
  {
    if keys == [] then [] else EntryValues(m[keys[0]]) + EntriesValues(m, keys[1..])
  }

  function Values(e: Expr): seq<Value>
    decreases e, 1, 0
  {
    match e
    case Compare(_, m) => EntriesValues(m, SortedKeys(m.Keys))
    case InList(_, vals, _) => vals
    case NullTest(_, _) => []
    case Between(_, lo, hi, _) => [lo, hi]
    case Group(_, parts) => PartsValues(e, 0)
    case Not(inner) => Values(inner)
    case Raw(_, args) => args
    case Nil => []
  }

  function PartsValues(e: Expr, i: nat): seq<Value>
    requires e.Group? && i <= |e.parts|
    decreases e, 0, |e.parts| - i
  {
    if i == |e.parts| then [] else Values(e.parts[i]) + PartsValues(e, i + 1)
  }

  function ListValues(exprs: seq<Expr>): seq<Value> {
    if exprs == [] then [] else Values(exprs[0]) + ListValues(exprs[1..])
  }

  // ----- conditions bind exactly those

  lemma Args3(a: seq<Piece>, b: seq<Piece>, c: seq<Piece>)
    ensures Args(a + b + c) == Args(a) + Args(b) + Args(c)
  {
    ArgsAppend(a + b, c);
    ArgsAppend(a, b);
  }

  lemma JoinedArgs(first: seq<Piece>, sep: seq<Piece>, rest: seq<Piece>)
    requires forall p :: p in sep ==> !p.Bound?
    ensures Args(first + sep + rest) == Args(first) + Args(rest)
  {
    NoArgs(sep);
    hide Args;
    Args3(first, sep, rest);
    assert Args(first) + [] == Args(first);
  }

  lemma WrappedArgs(open: Piece, ps: seq<Piece>, close: Piece)
    requires !open.Bound? && !close.Bound?
    ensures Args([open] + ps + [close]) == Args(ps)
  {
    NoArgs([open]);
    NoArgs([close]);
    hide Args;
    Args3([open], ps, [close]);
    assert [] + Args(ps) + [] == Args(ps);
  }

  lemma NoArgs(ps: seq<Piece>)
    requires forall p :: p in ps ==> !p.Bound?
    ensures Args(ps) == []
  {
    if ps != [] {
      NoArgs(ps[1..]);
    }
  }

  lemma {:induction false} ListPiecesArgs(vals: seq<Value>)
    ensures Args(ListPieces(vals)) == vals
  {
    if vals != [] {
      var sep := if |vals| > 1 then [Comma] else [];
      ListPiecesArgs(vals[1..]);
      Args3([Bound(vals[0])], sep, ListPieces(vals[1..]));
      ArgsOne(Bound(vals[0]));
      NoArgs(sep);
      assert [vals[0]] + [] + vals[1..] == vals;
    }
  }

  lemma InPiecesArgs(col: string, vals: seq<Value>, positive: bool)
    ensures Args(InPieces(col, vals, positive)) == vals
  {
    if vals != [] {
      hide ListPieces;
      var head := [Column(col), InOpen(positive)];
      ListPiecesArgs(vals);
      Args3(head, ListPieces(vals), [Close]);
      NoArgs(head);
      NoArgs([Close]);
      assert [] + vals + [] == vals;
    }
  }

  lemma EntryPiecesArgs(op: Cmp, k: string, v: Value)
    requires EntryPieces(op, k, v).Ok?
    ensures Args(EntryPieces(op, k, v).value) == EntryValues(v)
  {
    if v.List? {
      InPiecesArgs(k, v.elems, op.Eq?);
    } else if v.Scalar? {
      Args3([Column(k)], [Operator(op)], [Bound(v)]);
      ArgsOne(Bound(v));
      NoArgs([Column(k)]);
      NoArgs([Operator(op)]);
      assert [Column(k), Operator(op), Bound(v)] == [Column(k)] + [Operator(op)] + [Bound(v)];
    } else {
      NoArgs([Column(k), IsNull(op.NotEq?)]);
    }
  }

  lemma {:induction false} EntriesPiecesArgs(op: Cmp, m: map<string, Value>, keys: seq<string>)
    requires forall k :: k in keys ==> k in m
    requires EntriesPieces(op, m, keys).Ok?
    ensures Args(EntriesPieces(op, m, keys).value) == EntriesValues(m, keys)
  {
    hide EntryPieces, EntryValues;
    if keys != [] {
      hide Args;
      var sep := if |keys| > 1 then [AndWord] else [];
      var first, rest := EntryPieces(op, keys[0], m[keys[0]]).value, EntriesPieces(op, m, keys[1..]).value;
      EntryPiecesArgs(op, keys[0], m[keys[0]]);
      EntriesPiecesArgs(op, m, keys[1..]);
      JoinedArgs(first, sep, rest);
    }
  }

  lemma {:induction false} MarkSplits(sql: string)
    ensures Mark(sql) == |sql| <==> Marks(sql) == 0
    ensures Mark(sql) < |sql| ==> Marks(sql[Mark(sql) + 1..]) == Marks(sql) - 1
  {
    if sql != "" && sql[0] != '?' {
      MarkSplits(sql[1..]);
      assert Mark(sql) < |sql| ==> sql[Mark(sql) + 1..] == sql[1..][Mark(sql[1..]) + 1..];
    }
  }

  lemma {:induction false} RawPiecesArgs(sql: string, args: seq<Value>)
    requires Marks(sql) == |args|
    ensures Args(RawPieces(sql, args)) == args
    decreases |args|
  {
    hide Mark, Marks;
    MarkSplits(sql);
    if args != [] {
      hide Args;
      var i := Mark(sql);
      var rest := RawPieces(sql[i + 1..], args[1..]);
      RawPiecesArgs(sql[i + 1..], args[1..]);
      ArgsAppend([Verbatim(sql[..i]), Bound(args[0])], rest);
      RawHeadArgs(sql[..i], args[0]);
      assert [args[0]] + args[1..] == args;
    } else {
      NoArgs([Verbatim(sql)]);
    }
  }

  lemma RawHeadArgs(text: string, v: Value)
    ensures Args([Verbatim(text), Bound(v)]) == [v]
  {
    ArgsAppend([Verbatim(text)], [Bound(v)]);
    ArgsOne(Bound(v));
    NoArgs([Verbatim(text)]);
    assert [Verbatim(text), Bound(v)] == [Verbatim(text)] + [Bound(v)];
  }

  lemma BetweenArgs(col: string, negative: bool, lo: Value, hi: Value)
    ensures Args([Column(col), BetweenWord(negative), Bound(lo), AndWord, Bound(hi)]) == [lo, hi]
  {
    hide Args;
    var head := [Column(col), BetweenWord(negative)];
    ArgsOne(Bound(lo));
    ArgsOne(Bound(hi));
    NoArgs(head);
    NoArgs([AndWord]);
    Args3(head, [Bound(lo)], [AndWord]);
    ArgsAppend(head + [Bound(lo)] + [AndWord], [Bound(hi)]);
    assert [Column(col), BetweenWord(negative), Bound(lo), AndWord, Bound(hi)]
        == head + [Bound(lo)] + [AndWord] + [Bound(hi)];
    assert [] + [lo] + [] + [hi] == [lo, hi];
  }

  // A condition that is written binds the values in it, left to right, a raw
  // fragment's included: no more, no fewer, in no other order.
  lemma {:induction false} ConditionBinds(d: Dialect, e: Expr)
    requires Pieces(d, e).Ok?
    ensures Args(Pieces(d, e).value) == Values(e)
    decreases e, 1, 0
  {
    hide Args, EntriesPieces, EntriesValues, InPieces, RawPieces, SortedKeys;
    match e
    case Compare(op, m) => EntriesPiecesArgs(WrittenOp(d, op), m, SortedKeys(m.Keys));
    case InList(col, vals, positive) => InPiecesArgs(col, vals, positive);
    case NullTest(col, not) => NoArgs([Column(col), IsNull(not)]);
    case Between(col, lo, hi, negative) => BetweenArgs(col, negative, lo, hi);
    case Group(sep, parts) => GroupBinds(d, e);
    case Not(inner) =>
      ConditionBinds(d, inner);
      var ps := Pieces(d, inner).value;
      WrappedArgs(NotOpen, ps, Close);
    case Raw(sql, args) => RawPiecesArgs(sql, args);
  }

  lemma {:induction false} GroupBinds(d: Dialect, e: Expr)
    requires e.Group? && Pieces(d, e).Ok?
    ensures Args(Pieces(d, e).value) == PartsValues(e, 0)
    decreases e, 0, |e.parts| + 1
  {
    if |e.parts| == 1 {
      ConditionBinds(d, e.parts[0]);
      assert PartsValues(e, 1) == [];
      assert PartsValues(e, 0) == Values(e.parts[0]) + [];
    } else {
      hide PartsPieces, PartsValues, Args;
      PartsBind(d, e, 0);
      var ps := PartsPieces(d, e, 0).value;
      WrappedArgs(Open, ps, Close);
    }
  }

  lemma {:induction false} PartsBind(d: Dialect, e: Expr, i: nat)
    requires e.Group? && i <= |e.parts| && PartsPieces(d, e, i).Ok?
    ensures Args(PartsPieces(d, e, i).value) == PartsValues(e, i)
    decreases e, 0, |e.parts| - i
  {
    hide Pieces, Values;
    if i < |e.parts| {
      var sep := if i + 1 < |e.parts| then [JoinerPiece(e.sep)] else [];
      var first, rest := Pieces(d, e.parts[i]).value, PartsPieces(d, e, i + 1).value;
      ConditionBinds(d, e.parts[i]);
      PartsBind(d, e, i + 1);
      JoinedArgs(first, sep, rest);
    }
  }

  lemma {:induction false} ListBinds(d: Dialect, exprs: seq<Expr>)
    requires ClausePieces(d, exprs).Ok?
    ensures Args(ClausePieces(d, exprs).value) == ListValues(exprs)
  {
    hide Pieces, Values;
    if exprs != [] {
      var sep := if |exprs| > 1 then [AndWord] else [];
      var first, rest := Pieces(d, exprs[0]).value, ClausePieces(d, exprs[1..]).value;
      ConditionBinds(d, exprs[0]);
      ListBinds(d, exprs[1..]);
      JoinedArgs(first, sep, rest);
    }
  }
}
