// The writer that turns an expression into text and arguments.

module ConditionWriter {
  import opened Wrappers
  import opened Dialects
  import opened Conditions

  // What a write leaves behind: the pieces it promised, or the error it promised.
  ghost predicate Wrote(r: Result<seq<Piece>, WriteError>, before: seq<Piece>, after: seq<Piece>,
                        error: Option<WriteError>) {
    if r.Ok? then error.None? && after == before + r.value else error == Some(r.error)
  }

  // One more element of a joined list has been written.
  lemma Joined<T>(written: seq<T>, sep: seq<T>, first: seq<T>, sep': seq<T>, rest: seq<T>, total: seq<T>)
    requires written + sep + (first + sep' + rest) == total
    ensures written + sep + first + sep' + rest == total
  {
    assert written + sep + first + sep' + rest == written + sep + (first + sep' + rest);
  }

  lemma Appended<T>(written: seq<T>, a: T, b: T, rest: seq<T>, total: seq<T>)
    requires written + ([a, b] + rest) == total
    ensures written + [a] + [b] + rest == total
  {
    assert written + [a] + [b] + rest == written + ([a, b] + rest);
  }

  lemma ListStep(vals: seq<Value>, i: nat)
    requires i < |vals|
    ensures ListPieces(vals[i..])
        == [Bound(vals[i])] + (if i + 1 < |vals| then [Comma] else []) + ListPieces(vals[i + 1..])
  {
    assert vals[i..][1..] == vals[i + 1..];
  }

  lemma NothingListed(vals: seq<Value>)
    requires |vals| == 0
    ensures ListPieces(vals) == []
  {
  }

  lemma RawStep(sql: string, args: seq<Value>, i: nat)
    requires i < |args| && Mark(sql) < |sql|
    ensures RawPieces(sql, args[i..]) ==
            [Verbatim(sql[..Mark(sql)]), Bound(args[i])] + RawPieces(sql[Mark(sql) + 1..], args[i + 1..])
  {
    hide Mark;
    var tail := args[i..];
    assert tail[0] == args[i] && tail[1..] == args[i + 1..];
    assert RawPieces(sql, tail)
        == [Verbatim(sql[..Mark(sql)]), Bound(tail[0])] + RawPieces(sql[Mark(sql) + 1..], tail[1..]);
  }

  lemma EntriesStep(op: Cmp, m: map<string, Value>, keys: seq<string>, i: nat)
    requires i < |keys| && forall k :: k in keys ==> k in m
    ensures var first, rest := EntryPieces(op, keys[i], m[keys[i]]), EntriesPieces(op, m, keys[i + 1..]);
            EntriesPieces(op, m, keys[i..]) ==
            if first.Err? then first else if rest.Err? then rest
            else Ok(first.value + (if i + 1 < |keys| then [AndWord] else []) + rest.value)
  {
    hide EntryPieces;
    assert keys[i..][1..] == keys[i + 1..];
  }

  lemma GroupIs(d: Dialect, e: Expr)
    requires e.Group?
    ensures Pieces(d, e) ==
            if e.parts == [] then Err(EmptyGroup(e.sep))
            else if |e.parts| == 1 then Pieces(d, e.parts[0])
            else
              var ps := PartsPieces(d, e, 0);
              if ps.Err? then ps else Ok([Open] + ps.value + [Close])
  {
    hide PartsPieces;
  }

  lemma Wrapped(before: seq<Piece>, ps: seq<Piece>)
    ensures before + [Open] + ps + [Close] == before + ([Open] + ps + [Close])
  {
  }

  // Where the loop over entries stands before the i-th.
  ghost predicate EntriesLeft(op: Cmp, m: map<string, Value>, keys: seq<string>, before: seq<Piece>, i: nat,
                              now: seq<Piece>)
    requires i <= |keys| && forall k :: k in keys ==> k in m
  {
    var all, rest := EntriesPieces(op, m, keys), EntriesPieces(op, m, keys[i..]);
    if all.Ok? then
      rest.Ok? && now + (if 0 < i < |keys| then [AndWord] else []) + rest.value == before + all.value
    else rest == all
  }

  lemma EntriesBegin(op: Cmp, m: map<string, Value>, keys: seq<string>, before: seq<Piece>)
    requires forall k :: k in keys ==> k in m
    ensures EntriesLeft(op, m, keys, before, 0, before)
  {
    assert keys[0..] == keys;
  }

  lemma EntriesAdvance(op: Cmp, m: map<string, Value>, keys: seq<string>, before: seq<Piece>, i: nat, now: seq<Piece>,
                       next: seq<Piece>, error: Option<WriteError>)
    requires i < |keys| && forall k :: k in keys ==> k in m
    requires EntriesLeft(op, m, keys, before, i, now)
    requires Wrote(EntryPieces(op, keys[i], m[keys[i]]), now + (if 0 < i then [AndWord] else []), next, error)
    ensures error.None? ==> EntriesLeft(op, m, keys, before, i + 1, next)
    ensures error.Some? ==> EntriesPieces(op, m, keys) == Err(error.value)
  {
    hide EntriesPieces, EntryPieces;
    EntriesStep(op, m, keys, i);
    var all := EntriesPieces(op, m, keys);
    if all.Ok? {
      var sep := if 0 < i then [AndWord] else [];
      var sep' := if i + 1 < |keys| then [AndWord] else [];
      Joined(now, sep, EntryPieces(op, keys[i], m[keys[i]]).value, sep', EntriesPieces(op, m, keys[i + 1..]).value,
             before + all.value);
    }
  }

  lemma EntriesDone(op: Cmp, m: map<string, Value>, keys: seq<string>, before: seq<Piece>, now: seq<Piece>)
    requires forall k :: k in keys ==> k in m
    requires EntriesLeft(op, m, keys, before, |keys|, now)
    ensures Wrote(EntriesPieces(op, m, keys), before, now, None)
  {
    assert keys[|keys|..] == [];
  }

  class Writer {
    const d: Dialect
    var b: string
    var args: seq<Value>
    ghost var pieces: seq<Piece>

    // The placeholder numbers in b and the argument list go together.
    ghost predicate Valid()
      reads this
    {
      b == Written(d, pieces, 0) && args == Args(pieces)
    }

    constructor (d: Dialect)
      ensures Valid() && this.d == d && pieces == []
    {
      this.d := d;
      b, args, pieces := "", [], [];
    }

    method Str(p: Piece)
      requires Valid() && !p.Bound?
      modifies this
      ensures Valid() && pieces == old(pieces) + [p]
    {
      hide Written, Args, OperatorText, Ident;
      WrittenAppend(d, pieces, [p], 0);
      ArgsAppend(pieces, [p]);
      ArgsOne(p);
      WrittenOne(d, p, |Args(pieces)|);
      assert PieceText(d, p, |Args(pieces)|) == PieceText(d, p, 0);
      assert args + [] == args;
      b := b + PieceText(d, p, 0);
      pieces := pieces + [p];
    }

    method Bind(v: Value)
      requires Valid()
      modifies this
      ensures Valid() && pieces == old(pieces) + [Bound(v)]
    {
      hide Written, Args, Placeholder;
      WrittenAppend(d, pieces, [Bound(v)], 0);
      ArgsAppend(pieces, [Bound(v)]);
      ArgsOne(Bound(v));
      WrittenOne(d, Bound(v), |Args(pieces)|);
      args := args + [v];
      b := b + Placeholder(d, |args|);
      pieces := pieces + [Bound(v)];
    }

    method WriteIn(col: string, elems: seq<Value>, positive: bool)
      requires Valid()
      modifies this
      ensures Valid() && pieces == old(pieces) + InPieces(col, elems, positive)
    {
      hide Written, Args, PieceText, PieceArgs, ListPieces;
      if |elems| == 0 {
        Str(Constant(!positive));
        return;
      }
      Str(Column(col));
      Str(InOpen(positive));
      WriteList(elems);
      Str(Close);
      assert pieces == old(pieces) + ([Column(col), InOpen(positive)] + ListPieces(elems) + [Close]);
    }

    method WriteList(elems: seq<Value>)
      requires Valid()
      modifies this
      ensures Valid() && pieces == old(pieces) + ListPieces(elems)
    {
      hide Written, Args, PieceText, PieceArgs, Valid, ListPieces;
      ghost var total := pieces + ListPieces(elems);
      assert elems[0..] == elems;
      for i := 0 to |elems|
        invariant Valid()
        invariant pieces + (if 0 < i < |elems| then [Comma] else []) + ListPieces(elems[i..]) == total
      {
        ListStep(elems, i);
        ghost var sep := if 0 < i then [Comma] else [];
        ghost var sep' := if i + 1 < |elems| then [Comma] else [];
        Joined(pieces, sep, [Bound(elems[i])], sep', ListPieces(elems[i + 1..]), total);
        if i > 0 {
          Str(Comma);
        }
        Bind(elems[i]);
      }
      NothingListed(elems[|elems|..]);
    }

    method WriteEntry(op: Cmp, k: string, v: Value) returns (error: Option<WriteError>)
      requires Valid()
      modifies this
      ensures Valid() && Wrote(EntryPieces(op, k, v), old(pieces), pieces, error)
    {
      hide Written, Args, PieceText, PieceArgs;
      if v.Null? {
        if op != Eq && op != NotEq {
          return Some(NullCompare(op, k));
        }
        Str(Column(k));
        Str(IsNull(op == NotEq));
        return None;
      }
      if v.List? {
        WriteIn(k, v.elems, op == Eq);
        return None;
      }
      Str(Column(k));
      Str(Operator(op));
      Bind(v);
      return None;
    }

    method WriteCompare(op: Cmp, m: map<string, Value>) returns (error: Option<WriteError>)
      requires Valid()
      modifies this
      ensures Valid() && Wrote(Pieces(d, Compare(op, m)), old(pieces), pieces, error)
    {
      hide Written, Args, PieceText, PieceArgs, SortedKeys, EntryPieces;
      var written := WrittenOp(d, op);
      if m == map[] {
        return Some(EmptyCondition(written));
      }
      var keys := SortedKeys(m.Keys);
      error := WriteEntries(written, m, keys);
    }

    method WriteEntries(op: Cmp, m: map<string, Value>, keys: seq<string>) returns (error: Option<WriteError>)
      requires Valid() && forall k :: k in keys ==> k in m
      modifies this
      ensures Valid() && Wrote(EntriesPieces(op, m, keys), old(pieces), pieces, error)
    {
      hide Written, Args, PieceText, PieceArgs, EntryPieces, EntriesPieces, EntriesLeft, Valid;
      ghost var before := pieces;
      EntriesBegin(op, m, keys, before);
      for i := 0 to |keys|
        invariant Valid() && EntriesLeft(op, m, keys, before, i, pieces)
      {
        ghost var now := pieces;
        if i > 0 {
          Str(AndWord);
        }
        assert pieces == now + (if 0 < i then [AndWord] else []);
        error := WriteEntry(op, keys[i], m[keys[i]]);
        EntriesAdvance(op, m, keys, before, i, now, pieces, error);
        if error.Some? {
          return;
        }
      }
      EntriesDone(op, m, keys, before, pieces);
      return None;
    }

    method WriteRaw(sql: string, args: seq<Value>)
      requires Valid()
      modifies this
      ensures Valid() && pieces == old(pieces) + RawPieces(sql, args)
    {
      hide Written, Args, PieceText, PieceArgs;
      var rest := sql;
      ghost var total := pieces + RawPieces(sql, args);
      assert args[0..] == args;
      var i := 0;
      while i < |args| && Mark(rest) < |rest|
        invariant Valid() && 0 <= i <= |args|
        invariant pieces + RawPieces(rest, args[i..]) == total
        decreases |args| - i
      {
        hide RawPieces, Mark;
        RawStep(rest, args, i);
        var mark := Mark(rest);
        Appended(pieces, Verbatim(rest[..mark]), Bound(args[i]), RawPieces(rest[mark + 1..], args[i + 1..]), total);
        Str(Verbatim(rest[..mark]));
        Bind(args[i]);
        rest := rest[mark + 1..];
        i := i + 1;
      }
      Str(Verbatim(rest));
    }

    method Write(e: Expr) returns (error: Option<WriteError>)
      requires Valid()
      modifies this
      ensures Valid() && Wrote(Pieces(d, e), old(pieces), pieces, error)
      decreases e, 2
    {
      hide Written, Args, PieceText, PieceArgs, SortedKeys, EntriesPieces, PartsPieces, RawPieces, InPieces;
      match e {
        case Compare(op, m) =>
          error := WriteCompare(op, m);
        case InList(col, vals, positive) =>
          WriteIn(col, vals, positive);
          return None;
        case NullTest(col, not) =>
          Str(Column(col));
          Str(IsNull(not));
          return None;
        case Between(col, lo, hi, negative) =>
          Str(Column(col));
          Str(BetweenWord(negative));
          Bind(lo);
          Str(AndWord);
          Bind(hi);
          return None;
        case Group(sep, parts) =>
          error := WriteGroup(e);
        case Not(inner) =>
          if inner.Nil? {
            return Some(NotOfNil);
          }
          Str(NotOpen);
          error := Write(inner);
          if error.None? {
            Str(Close);
          }
        case Raw(sql, args) =>
          if Marks(sql) != |args| {
            return Some(RawMismatch(Marks(sql), |args|));
          }
          WriteRaw(sql, args);
          return None;
        case Nil =>
          return Some(NilPanic);
      }
    }

    method WriteGroup(e: Expr) returns (error: Option<WriteError>)
      requires Valid() && e.Group?
      modifies this
      ensures Valid() && Wrote(Pieces(d, e), old(pieces), pieces, error)
      decreases e, 1
    {
      hide Written, Args, PieceText, PieceArgs, PartsPieces, Pieces, Valid;
      GroupIs(d, e);
      if |e.parts| == 0 {
        return Some(EmptyGroup(e.sep));
      }
      if |e.parts| == 1 {
        error := Write(e.parts[0]);
        return;
      }
      Str(Open);
      error := WriteParts(e);
      if error.None? {
        Str(Close);
        Wrapped(old(pieces), PartsPieces(d, e, 0).value);
      }
    }

    method WriteParts(e: Expr) returns (error: Option<WriteError>)
      requires Valid() && e.Group?
      modifies this
      ensures Valid() && Wrote(PartsPieces(d, e, 0), old(pieces), pieces, error)
      decreases e, 0
    {
      hide Written, Args, PieceText, PieceArgs, Pieces;
      ghost var before, all := pieces, PartsPieces(d, e, 0);
      ghost var total := if all.Ok? then before + all.value else [];
      for i := 0 to |e.parts|
        invariant Valid()
        invariant var rest := PartsPieces(d, e, i);
                  if all.Ok? then
                    rest.Ok? && pieces + (if 0 < i < |e.parts| then [JoinerPiece(e.sep)] else []) + rest.value == total
                  else rest == all
      {
        ghost var sep := if 0 < i then [JoinerPiece(e.sep)] else [];
        ghost var sep' := if i + 1 < |e.parts| then [JoinerPiece(e.sep)] else [];
        if all.Ok? {
          Joined(pieces, sep, Pieces(d, e.parts[i]).value, sep', PartsPieces(d, e, i + 1).value, total);
        }
        if i > 0 {
          Str(JoinerPiece(e.sep));
        }
        if e.parts[i].Nil? {
          return Some(NilInGroup(e.sep));
        }
        error := Write(e.parts[i]);
        if error.Some? {
          return;
        }
      }
      return None;
    }

    // WHERE and HAVING lists, after their keyword.
    method WriteClause(exprs: seq<Expr>) returns (error: Option<WriteError>)
      requires Valid()
      modifies this
      ensures Valid() && Wrote(ClausePieces(d, exprs), old(pieces), pieces, error)
    {
      ghost var before := pieces;
      hide Written, Args, PieceText, PieceArgs, Pieces;
      ghost var all := ClausePieces(d, exprs);
      assert exprs[0..] == exprs;
      for i := 0 to |exprs|
        invariant Valid()
        invariant var rest := ClausePieces(d, exprs[i..]);
                  if all.Ok? then rest.Ok?
                      && pieces + (if 0 < i < |exprs| then [AndWord] else []) + rest.value == before + all.value
                  else rest == all
      {
        assert exprs[i..][1..] == exprs[i + 1..];
        if i > 0 {
          Str(AndWord);
        }
        if exprs[i].Nil? {
          return Some(NilInClause);
        }
        error := Write(exprs[i]);
        if error.Some? {
          return;
        }
      }
      assert exprs[|exprs|..] == [];
      return None;
    }
  }
}
