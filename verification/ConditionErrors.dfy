// Which expressions can be written, what refuses the others, and the spelling of
// operators and identifiers, said without the pieces they are written as.

module ConditionErrors {
  import opened Wrappers
  import opened Dialects
  import opened Quoting
  import opened Conditions

  // ----- refusals

  function QuestionMarks(sql: string): nat {
    if sql == "" then 0
    else QuestionMarks(sql[..|sql| - 1]) + (if sql[|sql| - 1] == '?' then 1 else 0)
  }

  lemma {:induction false} MarksCounted(sql: string)
    ensures Marks(sql) == QuestionMarks(sql)
  {
    if |sql| > 1 {
      var m := |sql| - 1;
      MarksCounted(sql[..m]);
      MarksBack(sql);
    } else if |sql| == 1 {
      assert sql[1..] == "" && sql[..0] == "";
    }
  }

  lemma {:induction false} MarksBack(sql: string)
    requires sql != ""
    ensures Marks(sql) == Marks(sql[..|sql| - 1]) + (if sql[|sql| - 1] == '?' then 1 else 0)
  {
    var m := |sql| - 1;
    if m > 0 {
      MarksBack(sql[1..]);
      assert sql[1..][..m - 1] == sql[..m][1..];
    } else {
      assert sql[1..] == "" && sql[..0] == "";
    }
  }

  // The first of the keys whose value is nil, if any.
  function FirstNil(m: map<string, Value>, keys: seq<string>): Option<string>
    requires forall k :: k in keys ==> k in m
  {
    if keys == [] then None
    else
      var front := FirstNil(m, keys[..|keys| - 1]);
      if front.Some? then front
      else if m[keys[|keys| - 1]].Null? then Some(keys[|keys| - 1])
      else None
  }

  // Why an expression cannot be written, or None when it can: an empty map; nil
  // under anything but Eq and NotEq, at the first such key; an empty group; the
  // first member of a group that is nil or cannot be written; Not of nil; raw text
  // whose question marks and arguments differ in number; and nil itself.
  function Refusal(d: Dialect, e: Expr): Option<WriteError>
    decreases e, 1, 0
  {
    match e
    case Compare(op, m) =>
      var shown := if op.ILike? && d.name != "postgres" then Like else op;
      if |m| == 0 then Some(EmptyCondition(shown))
      else if op != Eq && op != NotEq && FirstNil(m, SortedKeys(m.Keys)).Some? then
        Some(NullCompare(shown, FirstNil(m, SortedKeys(m.Keys)).value))
      else None
    case InList(_, _, _) => None
    case NullTest(_, _) => None
    case Between(_, _, _, _) => None
    case Group(sep, parts) =>
      if |parts| == 0 then Some(EmptyGroup(sep))
      else if |parts| == 1 then Refusal(d, parts[0])
      else MemberRefusal(d, e, 0)
    case Not(inner) => if inner.Nil? then Some(NotOfNil) else Refusal(d, inner)
    case Raw(sql, args) =>
      if QuestionMarks(sql) != |args| then Some(RawMismatch(QuestionMarks(sql), |args|)) else None
    case Nil => Some(NilPanic)
  }

  function MemberRefusal(d: Dialect, e: Expr, i: nat): Option<WriteError>
    requires e.Group? && i <= |e.parts|
    decreases e, 0, |e.parts| - i
  {
    if i == |e.parts| then None
    else if e.parts[i].Nil? then Some(NilInGroup(e.sep))
    else if Refusal(d, e.parts[i]).Some? then Refusal(d, e.parts[i])
    else MemberRefusal(d, e, i + 1)
  }

  // The same for a WHERE or HAVING list.
  function ListRefusal(d: Dialect, exprs: seq<Expr>): Option<WriteError> {
    if exprs == [] then None
    else if exprs[0].Nil? then Some(NilInClause)
    else if Refusal(d, exprs[0]).Some? then Refusal(d, exprs[0])
    else ListRefusal(d, exprs[1..])
  }

  ghost predicate RefusedAs(r: Result<seq<Piece>, WriteError>, refusal: Option<WriteError>) {
    if refusal.Some? then r == Err(refusal.value) else r.Ok?
  }

  lemma {:induction false} FirstNilFront(m: map<string, Value>, keys: seq<string>)
    requires (forall k :: k in keys ==> k in m) && keys != []
    ensures FirstNil(m, keys) == if m[keys[0]].Null? then Some(keys[0]) else FirstNil(m, keys[1..])
  {
    var n := |keys| - 1;
    if n > 0 {
      FirstNilFront(m, keys[..n]);
      assert keys[..n][1..] == keys[1..][..n - 1];
    } else {
      assert keys[..0] == [] && keys[1..] == [];
    }
  }

  lemma {:induction false} EntriesRefused(op: Cmp, m: map<string, Value>, keys: seq<string>)
    requires forall k :: k in keys ==> k in m
    ensures var nil := FirstNil(m, keys);
            RefusedAs(EntriesPieces(op, m, keys),
                      if op != Eq && op != NotEq && nil.Some? then Some(NullCompare(op, nil.value)) else None)
  {
    hide InPieces;
    if keys != [] {
      FirstNilFront(m, keys);
      EntriesRefused(op, m, keys[1..]);
    }
  }

  // An expression is written exactly when nothing refuses it, and what refuses it
  // is the error.
  lemma {:induction false} WritesExactly(d: Dialect, e: Expr)
    ensures RefusedAs(Pieces(d, e), Refusal(d, e))
    decreases e, 1, 0
  {
    hide EntriesPieces, InPieces, RawPieces, SortedKeys, FirstNil, Marks, QuestionMarks;
    match e
    case Compare(op, m) =>
      EntriesRefused(WrittenOp(d, op), m, SortedKeys(m.Keys));
    case Group(sep, parts) =>
      if |parts| == 1 {
        WritesExactly(d, parts[0]);
      } else if |parts| > 1 {
        MembersExactly(d, e, 0);
      }
    case Not(inner) =>
      if !inner.Nil? {
        WritesExactly(d, inner);
      }
    case Raw(sql, args) =>
      MarksCounted(sql);
    case _ =>
  }

  lemma {:induction false} MembersExactly(d: Dialect, e: Expr, i: nat)
    requires e.Group? && i <= |e.parts|
    ensures RefusedAs(PartsPieces(d, e, i), MemberRefusal(d, e, i))
    decreases e, 0, |e.parts| - i
  {
    hide Pieces, Refusal;
    if i < |e.parts| && !e.parts[i].Nil? {
      WritesExactly(d, e.parts[i]);
      MembersExactly(d, e, i + 1);
    }
  }

  lemma {:induction false} ListExactly(d: Dialect, exprs: seq<Expr>)
    ensures RefusedAs(ClausePieces(d, exprs), ListRefusal(d, exprs))
  {
    hide Pieces, Refusal;
    if exprs != [] && !exprs[0].Nil? {
      WritesExactly(d, exprs[0]);
      ListExactly(d, exprs[1..]);
    }
  }

  // ----- operators

  // One scalar comparison, letter for letter. ILIKE is PostgreSQL's; elsewhere LIKE
  // stands in for it.
  lemma ComparisonWritten(d: Dialect, op: Cmp, k: string, v: Value, n: nat)
    requires v.Scalar?
    ensures var ps := Pieces(d, Compare(op, map[k := v]));
            var sign := match op
                        case Eq => " = "
                        case NotEq => " <> "
                        case Lt => " < "
                        case Lte => " <= "
                        case Gt => " > "
                        case Gte => " >= "
                        case Like => " LIKE "
                        case ILike => if d.name == "postgres" then " ILIKE " else " LIKE ";
            ps.Ok? && Written(d, ps.value, n) == Ident(d, k) + sign + Placeholder(d, n + 1)
  {
    hide Ident, Placeholder, Written;
    OneScalar(d, op, k, v);
    var shown := WrittenOp(d, op);
    var ps := [Column(k), Operator(shown), Bound(v)];
    assert ps == [Column(k)] + [Operator(shown)] + [Bound(v)];
    WrittenAppend(d, [Column(k)] + [Operator(shown)], [Bound(v)], n);
    WrittenAppend(d, [Column(k)], [Operator(shown)], n);
    WrittenOne(d, Column(k), n);
    WrittenOne(d, Operator(shown), n);
    WrittenOne(d, Bound(v), n);
    ArgsAppend([Column(k)], [Operator(shown)]);
    ArgsOne(Column(k));
    ArgsOne(Operator(shown));
  }

  lemma OneScalar(d: Dialect, op: Cmp, k: string, v: Value)
    requires v.Scalar?
    ensures Pieces(d, Compare(op, map[k := v])) == Ok([Column(k), Operator(WrittenOp(d, op)), Bound(v)])
  {
    var m := map[k := v];
    var keys := SortedKeys(m.Keys);
    assert m.Keys == {k};
    assert keys == [k] by {
      assert |keys| == 1 && keys[0] in keys;
    }
    assert EntriesPieces(WrittenOp(d, op), m, []) == Ok([]);
    assert keys[1..] == [];
    var first := [Column(k), Operator(WrittenOp(d, op)), Bound(v)];
    assert first + [] + [] == first;
  }

  // ----- identifiers

  function Listed(parts: seq<string>, sep: string): string {
    if parts == [] then "" else if |parts| == 1 then parts[0] else parts[0] + sep + Listed(parts[1..], sep)
  }

  // Splitting cuts at every dot and nowhere else.
  lemma {:induction false} SplitExactly(name: string)
    ensures Listed(Split(name), ".") == name
    ensures forall part :: part in Split(name) ==> '.' !in part
  {
    if name != "" {
      SplitExactly(name[1..]);
      var rest := Split(name[1..]);
      hide Split;
      if name[0] == '.' {
        ListedFront("", rest, ".");
      } else {
        ListedGrown(name[0], rest, ".");
      }
      SplitStep(name);
      assert [name[0]] + name[1..] == name;
    }
  }

  lemma SplitStep(name: string)
    requires name != ""
    ensures var rest := Split(name[1..]);
            Split(name) == if name[0] == '.' then [""] + rest else [[name[0]] + rest[0]] + rest[1..]
  {
  }

  lemma ListedFront(first: string, rest: seq<string>, sep: string)
    ensures Listed([first] + rest, sep) == first + (if rest == [] then "" else sep + Listed(rest, sep))
  {
    assert ([first] + rest)[1..] == rest;
    if rest != [] {
      assert first + sep + Listed(rest, sep) == first + (sep + Listed(rest, sep));
    }
  }

  // The first part longer by a byte in front.
  lemma ListedGrown(c: char, parts: seq<string>, sep: string)
    requires parts != []
    ensures Listed([[c] + parts[0]] + parts[1..], sep) == [c] + Listed(parts, sep)
  {
    var all := [[c] + parts[0]] + parts[1..];
    assert all[1..] == parts[1..];
    if |parts| > 1 {
      var more := Listed(parts[1..], sep);
      assert [c] + parts[0] + sep + more == [c] + (parts[0] + sep + more);
    }
  }

  predicate Letter(c: char) {
    c == '_' || 'a' <= c <= 'z' || 'A' <= c <= 'Z'
  }

  // A part that can be quoted: a star, or a letter or underscore followed by
  // letters, digits and underscores.
  predicate Simple(part: string) {
    part == "*"
    || (part != "" && Letter(part[0]) && forall i :: 1 <= i < |part| ==> Letter(part[i]) || '0' <= part[i] <= '9')
  }

  function Shown(d: Dialect, part: string): string {
    if part == "*" then "*" else Quoted(part, d.quote)
  }

  function AllShown(d: Dialect, parts: seq<string>): (shown: seq<string>)
    ensures |shown| == |parts| && forall i :: 0 <= i < |parts| ==> shown[i] == Shown(d, parts[i])
  {
    seq(|parts|, i requires 0 <= i < |parts| => Shown(d, parts[i]))
  }

  // An identifier is quoted part by part when every part is simple, a star being
  // left as it is, and written as it stands otherwise.
  lemma IdentExactly(d: Dialect, name: string)
    ensures Ident(d, name) ==
            if forall part :: part in Split(name) ==> Simple(part)
            then Listed(AllShown(d, Split(name)), ".")
            else name
  {
    hide Quoted;
    var parts := Split(name);
    forall part
      ensures Simple(part) <==> part == "*" || PlainPart(part)
    {
      SimpleIsPlain(part);
    }
    if name == "" {
      assert "" in parts;
    }
    PartsJoined(d, parts);
  }

  lemma SimpleIsPlain(part: string)
    ensures Simple(part) <==> part == "*" || PlainPart(part)
  {
    if part != "" {
      forall i | 0 <= i < |part|
        ensures PlainByte(part[i], i == 0) <==> Letter(part[i]) || (i > 0 && '0' <= part[i] <= '9')
      {
      }
    }
    if part != "" && part != "*" && Simple(part) {
      forall i | 0 <= i < |part|
        ensures PlainByte(part[i], i == 0)
      {
        assert i > 0 ==> Letter(part[i]) || '0' <= part[i] <= '9';
      }
    }
    if PlainPart(part) {
      assert PlainByte(part[0], 0 == 0);
      forall i | 1 <= i < |part|
        ensures Letter(part[i]) || '0' <= part[i] <= '9'
      {
        assert PlainByte(part[i], i == 0);
      }
    }
  }

  lemma {:induction false} PartsJoined(d: Dialect, parts: seq<string>)
    ensures QuotedParts(parts, d.quote) == Listed(AllShown(d, parts), ".")
  {
    hide Quoted;
    if parts != [] {
      PartsJoined(d, parts[1..]);
      assert AllShown(d, parts)[1..] == AllShown(d, parts[1..]);
      if |parts| == 1 {
        assert QuotedParts(parts[1..], d.quote) == "";
      }
    }
  }
}
