// The query builder's conditions: how they are written, and what they mean.

module Truth3 {
  // SQL's three truth values, False < Unknown < True.
  datatype Truth = False | Unknown | True

  function OfBool(b: bool): Truth {
    if b then True else False
  }

  function Not3(a: Truth): Truth {
    match a
    case False => True
    case Unknown => Unknown
    case True => False
  }

  function And3(a: Truth, b: Truth): Truth {
    if a.False? || b.False? then False else if a.Unknown? || b.Unknown? then Unknown else True
  }

  function Or3(a: Truth, b: Truth): Truth {
    if a.True? || b.True? then True else if a.Unknown? || b.Unknown? then Unknown else False
  }

  // The conjunction of a collection of truth values, in no order.
  function Least(s: set<Truth>): Truth {
    if False in s then False else if Unknown in s then Unknown else True
  }

  // Their disjunction.
  function Greatest(s: set<Truth>): Truth {
    if True in s then True else if Unknown in s then Unknown else False
  }

  lemma LeastUnion(s: set<Truth>, t: set<Truth>)
    ensures Least(s + t) == And3(Least(s), Least(t))
    ensures Greatest(s + t) == Or3(Greatest(s), Greatest(t))
  {
  }
}

module Conditions {
  import opened Wrappers
  import opened Quoting
  import opened Dialects
  import opened Truth3

  datatype Cmp = Eq | NotEq | Lt | Lte | Gt | Gte | Like | ILike

  datatype Joiner = AndJoin | OrJoin

  // An expression of the builder. Nil stands for a nil interface value.
  datatype Expr =
    | Compare(op: Cmp, m: map<string, Value>)
    | InList(col: string, vals: seq<Value>, positive: bool)
    | NullTest(col: string, not: bool)
    | Between(col: string, lo: Value, hi: Value, negative: bool)
    | Group(sep: Joiner, parts: seq<Expr>)
    | Not(inner: Expr)
    | Raw(sql: string, args: seq<Value>)
    | Nil

  datatype WriteError =
    | EmptyCondition(op: Cmp)
    | NullCompare(op: Cmp, col: string)
    | EmptyGroup(sep: Joiner)
    | NilInGroup(sep: Joiner)
    | NotOfNil
    | RawMismatch(marks: nat, args: nat)
    | NilPanic
    | NilInClause

  // ----- identifiers

  function Split(name: string): (parts: seq<string>)
    ensures parts != []
  {
    if name == "" then [""]
    else
      var rest := Split(name[1..]);
      if name[0] == '.' then [""] + rest else [[name[0]] + rest[0]] + rest[1..]
  }

  predicate PlainByte(c: char, first: bool) {
    c == '_' || 'a' <= c <= 'z' || 'A' <= c <= 'Z' || ('0' <= c <= '9' && !first)
  }

  predicate PlainPart(part: string) {
    part != "" && forall i :: 0 <= i < |part| ==> PlainByte(part[i], i == 0)
  }

  predicate Quotable(name: string) {
    name != "" && forall part :: part in Split(name) ==> part == "*" || PlainPart(part)
  }

  function QuotedParts(parts: seq<string>, q: char): string {
    if parts == [] then ""
    else (if parts[0] == "*" then "*" else Quoted(parts[0], q)) +
         (if |parts| > 1 then "." else "") + QuotedParts(parts[1..], q)
  }

  function Ident(d: Dialect, name: string): string {
    if Quotable(name) then QuotedParts(Split(name), d.quote) else name
  }

  // ----- the order of a map's keys

  predicate AtMost(a: string, b: string) {
    a == "" || (b != "" && (a[0] < b[0] || (a[0] == b[0] && AtMost(a[1..], b[1..]))))
  }

  // Byte by byte: a is a prefix of b, or has the smaller byte where they first differ.
  lemma {:induction false} AtMostExactly(a: string, b: string)
    ensures AtMost(a, b) <==> exists k :: 0 <= k <= |a| && SmallerAt(a, b, k)
  {
    if a == "" {
      assert SmallerAt(a, b, 0);
    } else if b != "" {
      var a', b' := a[1..], b[1..];
      AtMostExactly(a', b');
      if a[0] < b[0] {
        assert SmallerAt(a, b, 0);
      } else if a[0] == b[0] {
        if k :| 0 <= k <= |a'| && SmallerAt(a', b', k) {
          assert a[..k + 1] == [a[0]] + a'[..k] && b[..k + 1] == [b[0]] + b'[..k];
          assert SmallerAt(a, b, k + 1);
        }
        if k :| 0 <= k <= |a| && SmallerAt(a, b, k) {
          assert a'[..k - 1] == a[..k][1..] && b'[..k - 1] == b[..k][1..];
          assert SmallerAt(a', b', k - 1);
        }
      } else {
        forall k | 0 <= k <= |a|
          ensures !SmallerAt(a, b, k)
        {
          assert 0 < k <= |b| ==> a[..k][0] == a[0] && b[..k][0] == b[0];
        }
      }
    }
  }

  predicate SmallerAt(a: string, b: string, k: nat)
    requires k <= |a|
  {
    k <= |b| && a[..k] == b[..k] && (k == |a| || (k < |b| && a[k] < b[k]))
  }

  lemma {:induction false} AtMostTotal(a: string, b: string)
    ensures AtMost(a, b) || AtMost(b, a)
    ensures AtMost(a, b) && AtMost(b, a) ==> a == b
  {
    if a != "" && b != "" {
      AtMostTotal(a[1..], b[1..]);
      if a[0] == b[0] && a[1..] == b[1..] {
        assert a == [a[0]] + a[1..] && b == [b[0]] + b[1..];
      }
    }
  }

  lemma {:induction false} AtMostTransitive(a: string, b: string, c: string)
    requires AtMost(a, b) && AtMost(b, c)
    ensures AtMost(a, c)
  {
    if a != "" && a[0] == b[0] == c[0] {
      AtMostTransitive(a[1..], b[1..], c[1..]);
    }
  }

  predicate IsLeast(k: string, keys: set<string>) {
    k in keys && forall j :: j in keys ==> AtMost(k, j)
  }

  lemma {:induction false} LeastExists(keys: set<string>)
    requires keys != {}
    ensures exists k :: IsLeast(k, keys)
  {
    var k :| k in keys;
    var rest := keys - {k};
    if rest == {} {
      assert keys == {k};
      AtMostTotal(k, k);
      assert IsLeast(k, keys);
    } else {
      LeastExists(rest);
      var l :| IsLeast(l, rest);
      AtMostTotal(k, l);
      AtMostTotal(k, k);
      forall j | j in keys
        ensures AtMost(if AtMost(k, l) then k else l, j)
      {
        if j != k && AtMost(k, l) {
          AtMostTransitive(k, l, j);
        }
      }
      assert IsLeast(if AtMost(k, l) then k else l, keys);
    }
  }

  // The keys of a map in ascending order.
  function SortedKeys(keys: set<string>): (sorted: seq<string>)
    ensures forall k :: k in sorted <==> k in keys
    ensures |sorted| == |keys|
    ensures forall i, j :: 0 <= i < j < |sorted| ==> AtMost(sorted[i], sorted[j]) && sorted[i] != sorted[j]
  {
    if keys == {} then []
    else
      LeastExists(keys);
      assert forall a, b :: IsLeast(a, keys) && IsLeast(b, keys) ==> a == b by {
        forall a, b | IsLeast(a, keys) && IsLeast(b, keys)
          ensures a == b
        {
          AtMostTotal(a, b);
        }
      }
      var k :| IsLeast(k, keys);
      [k] + SortedKeys(keys - {k})
  }

  // ----- what an expression is written as

  datatype Piece =
    | Column(name: string)
    | Operator(op: Cmp)
    | Bound(value: Value)
    | AndWord
    | OrWord
    | NotOpen
    | Open
    | Close
    | Comma
    | InOpen(positive: bool)
    | IsNull(not: bool)
    | BetweenWord(negative: bool)
    | Constant(truth: bool)
    | Verbatim(text: string)

  function OperatorText(op: Cmp): string {
    match op
    case Eq => " = "
    case NotEq => " <> "
    case Lt => " < "
    case Lte => " <= "
    case Gt => " > "
    case Gte => " >= "
    case Like => " LIKE "
    case ILike => " ILIKE "
  }

  // The text of a piece when n arguments are bound before it.
  function PieceText(d: Dialect, p: Piece, n: nat): string {
    match p
    case Column(name) => Ident(d, name)
    case Operator(op) => OperatorText(op)
    case Bound(_) => Placeholder(d, n + 1)
    case AndWord => " AND "
    case OrWord => " OR "
    case NotOpen => "NOT ("
    case Open => "("
    case Close => ")"
    case Comma => ","
    case InOpen(positive) => if positive then " IN (" else " NOT IN ("
    case IsNull(not) => if not then " IS NOT NULL" else " IS NULL"
    case BetweenWord(negative) => if negative then " NOT BETWEEN " else " BETWEEN "
    case Constant(truth) => if truth then "1 = 1" else "1 = 0"
    case Verbatim(text) => text
  }

  function PieceArgs(p: Piece): seq<Value> {
    if p.Bound? then [p.value] else []
  }

  function Written(d: Dialect, ps: seq<Piece>, n: nat): string {
    if ps == [] then ""
    else PieceText(d, ps[0], n) + Written(d, ps[1..], n + |PieceArgs(ps[0])|)
  }

  function Args(ps: seq<Piece>): seq<Value> {
    if ps == [] then [] else PieceArgs(ps[0]) + Args(ps[1..])
  }

  // ILIKE is written as LIKE except for PostgreSQL.
  function WrittenOp(d: Dialect, op: Cmp): Cmp {
    if op.ILike? && d.name != "postgres" then Like else op
  }

  function ListPieces(vals: seq<Value>): seq<Piece> {
    if vals == [] then []
    else [Bound(vals[0])] + (if |vals| > 1 then [Comma] else []) + ListPieces(vals[1..])
  }

  function InPieces(col: string, vals: seq<Value>, positive: bool): seq<Piece> {
    if vals == [] then [Constant(!positive)]
    else [Column(col), InOpen(positive)] + ListPieces(vals) + [Close]
  }

  // One entry of a comparison map. A slice becomes a membership test, negated
  // unless the comparison is equality.
  function EntryPieces(op: Cmp, k: string, v: Value): Result<seq<Piece>, WriteError> {
    if v.Null? then
      if op.Eq? || op.NotEq? then Ok([Column(k), IsNull(op.NotEq?)]) else Err(NullCompare(op, k))
    else if v.List? then Ok(InPieces(k, v.elems, op.Eq?))
    else Ok([Column(k), Operator(op), Bound(v)])
  }

  function EntriesPieces(op: Cmp, m: map<string, Value>, keys: seq<string>): Result<seq<Piece>, WriteError>
    requires forall k :: k in keys ==> k in m
  {
    if keys == [] then Ok([])
    else
      var first :- EntryPieces(op, keys[0], m[keys[0]]);
      var rest :- EntriesPieces(op, m, keys[1..]);
      Ok(first + (if |keys| > 1 then [AndWord] else []) + rest)
  }

  // Raw text, with each ? standing for the next argument.
  function RawPieces(sql: string, args: seq<Value>): seq<Piece> {
    if args == [] then [Verbatim(sql)]
    else
      var i := Mark(sql);
      if i == |sql| then [Verbatim(sql)]
      else [Verbatim(sql[..i]), Bound(args[0])] + RawPieces(sql[i + 1..], args[1..])
  }

  function Mark(sql: string): (i: nat)
    ensures i <= |sql|
    ensures i < |sql| ==> sql[i] == '?'
    ensures forall k :: 0 <= k < i ==> sql[k] != '?'
  {
    if sql == "" || sql[0] == '?' then 0 else 1 + Mark(sql[1..])
  }

  function Marks(sql: string): nat {
    if sql == "" then 0 else (if sql[0] == '?' then 1 else 0) + Marks(sql[1..])
  }

  function JoinerPiece(sep: Joiner): Piece {
    if sep.AndJoin? then AndWord else OrWord
  }

  function Pieces(d: Dialect, e: Expr): Result<seq<Piece>, WriteError>
    decreases e, 1, 0
  {
    match e
    case Compare(op, m) =>
      if m == map[] then Err(EmptyCondition(WrittenOp(d, op)))
      else EntriesPieces(WrittenOp(d, op), m, SortedKeys(m.Keys))
    case InList(col, vals, positive) => Ok(InPieces(col, vals, positive))
    case NullTest(col, not) => Ok([Column(col), IsNull(not)])
    case Between(col, lo, hi, negative) => Ok([Column(col), BetweenWord(negative), Bound(lo), AndWord, Bound(hi)])
    case Group(sep, parts) =>
      if parts == [] then Err(EmptyGroup(sep))
      else if |parts| == 1 then Pieces(d, parts[0])
      else
        var ps :- PartsPieces(d, e, 0);
        Ok([Open] + ps + [Close])
    case Not(inner) =>
      if inner.Nil? then Err(NotOfNil)
      else
        var ps :- Pieces(d, inner);
        Ok([NotOpen] + ps + [Close])
    case Raw(sql, args) =>
      if Marks(sql) != |args| then Err(RawMismatch(Marks(sql), |args|)) else Ok(RawPieces(sql, args))
    case Nil => Err(NilPanic)
  }

  // The parts of a group from the i-th on, with what joins them.
  function PartsPieces(d: Dialect, g: Expr, i: nat): Result<seq<Piece>, WriteError>
    requires g.Group? && i <= |g.parts|
    decreases g, 0, |g.parts| - i
  {
    if i == |g.parts| then Ok([])
    else if g.parts[i].Nil? then Err(NilInGroup(g.sep))
    else
      var first :- Pieces(d, g.parts[i]);
      var rest :- PartsPieces(d, g, i + 1);
      Ok(first + (if i + 1 < |g.parts| then [JoinerPiece(g.sep)] else []) + rest)
  }

  // A WHERE or HAVING list.
  function ClausePieces(d: Dialect, exprs: seq<Expr>): Result<seq<Piece>, WriteError> {
    if exprs == [] then Ok([])
    else if exprs[0].Nil? then Err(NilInClause)
    else
      var first :- Pieces(d, exprs[0]);
      var rest :- ClausePieces(d, exprs[1..]);
      Ok(first + (if |exprs| > 1 then [AndWord] else []) + rest)
  }

  lemma {:induction false} ArgsAppend(a: seq<Piece>, b: seq<Piece>)
    ensures Args(a + b) == Args(a) + Args(b)
  {
    hide PieceArgs;
    if a == [] {
      assert a + b == b;
    } else {
      assert (a + b)[1..] == a[1..] + b && (a + b)[0] == a[0];
      ArgsAppend(a[1..], b);
      assert PieceArgs(a[0]) + Args(a[1..]) + Args(b) == PieceArgs(a[0]) + (Args(a[1..]) + Args(b));
    }
  }

  lemma ArgsOne(p: Piece)
    ensures Args([p]) == PieceArgs(p)
  {
    hide PieceArgs;
    assert [p][1..] == [];
    assert PieceArgs(p) + [] == PieceArgs(p);
  }

  lemma {:induction false} WrittenAppend(d: Dialect, a: seq<Piece>, b: seq<Piece>, n: nat)
    ensures Written(d, a + b, n) == Written(d, a, n) + Written(d, b, n + |Args(a)|)
    decreases |a|
  {
    hide PieceText, PieceArgs;
    if a == [] {
      assert a + b == b;
      assert "" + Written(d, b, n) == Written(d, b, n);
    } else {
      var k := n + |PieceArgs(a[0])|;
      assert (a + b)[1..] == a[1..] + b && (a + b)[0] == a[0];
      WrittenAppend(d, a[1..], b, k);
      var head, mid, tail := PieceText(d, a[0], n), Written(d, a[1..], k), Written(d, b, n + |Args(a)|);
      assert head + mid + tail == head + (mid + tail);
    }
  }

  lemma WrittenOne(d: Dialect, p: Piece, n: nat)
    ensures Written(d, [p], n) == PieceText(d, p, n)
  {
    hide PieceText;
    assert [p][1..] == [];
    assert PieceText(d, p, n) + "" == PieceText(d, p, n);
  }

  // ----- what an expression means

  // A row, an interpretation of the comparison operators on non-null values,
  // and the argument list of the statement.
  datatype Env = Env(row: seq<string> -> Value, holds: (Cmp, Value, Value) -> bool, args: seq<Value>)

  function Compare3(env: Env, op: Cmp, a: Value, b: Value): Truth {
    if a.Null? || b.Null? then Unknown
    else if op.NotEq? then OfBool(!env.holds(Eq, a, b))
    else OfBool(env.holds(op, a, b))
  }

  function IsNull3(v: Value, not: bool): Truth {
    OfBool(v.Null? != not)
  }

  function Negated(t: Truth, negative: bool): Truth {
    if negative then Not3(t) else t
  }

  function In3(env: Env, x: Value, vals: seq<Value>): Truth {
    Greatest(set v | v in vals :: Compare3(env, Eq, x, v))
  }

  function Between3(env: Env, x: Value, lo: Value, hi: Value): Truth {
    And3(Compare3(env, Gte, x, lo), Compare3(env, Lte, x, hi))
  }

  function Entry3(env: Env, op: Cmp, k: string, v: Value): Truth {
    var x := env.row(Split(k));
    if v.Null? then IsNull3(x, op.NotEq?)
    else if v.List? then Negated(In3(env, x, v.elems), op.NotEq?)
    else Compare3(env, op, x, v)
  }

  // The truth value of an expression on a row. A comparison map and an And mean
  // the conjunction of what they hold, in no order.
  function Eval(d: Dialect, env: Env, e: Expr): Truth {
    match e
    case Compare(op, m) => Least(set k | k in m.Keys :: Entry3(env, WrittenOp(d, op), k, m[k]))
    case InList(col, vals, positive) => Negated(In3(env, env.row(Split(col)), vals), !positive)
    case NullTest(col, not) => IsNull3(env.row(Split(col)), not)
    case Between(col, lo, hi, negative) => Negated(Between3(env, env.row(Split(col)), lo, hi), negative)
    case Group(sep, parts) =>
      var truths := set p | p in parts :: Eval(d, env, p);
      if sep.AndJoin? then Least(truths) else Greatest(truths)
    case Not(inner) => Not3(Eval(d, env, inner))
    case Raw(_, _) => Unknown
    case Nil => Unknown
  }

  // The columns a condition may name here: plain identifiers, possibly dotted.
  predicate PlainColumn(name: string) {
    name != "" && forall part :: part in Split(name) ==> PlainPart(part)
  }

  // The expressions whose written form has the meaning above: no Raw, plain
  // columns, and no slice under a comparison other than Eq and NotEq.
  predicate Readable(e: Expr) {
    match e
    case Compare(op, m) =>
      forall k :: k in m.Keys ==> PlainColumn(k) && (m[k].List? ==> op.Eq? || op.NotEq?)
    case InList(col, _, _) => PlainColumn(col)
    case NullTest(col, _) => PlainColumn(col)
    case Between(col, _, _, _) => PlainColumn(col)
    case Group(_, parts) => forall p :: p in parts ==> Readable(p)
    case Not(inner) => Readable(inner)
    case Raw(_, _) => false
    case Nil => true
  }
}
