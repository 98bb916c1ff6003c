// Parsing a written condition, with NOT above AND above OR and BETWEEN's own
// AND, gives the meaning of the expression it was written from.

module ConditionMeaning {
  import opened Wrappers
  import opened Integers
  import opened Dialects
  import opened Truth3
  import opened Conditions
  import opened ConditionArguments
  import opened ConditionReader

  datatype Cond =
    | CmpCond(op: Cmp, col: seq<string>, n: int)
    | InCond(col: seq<string>, ns: seq<int>, positive: bool)
    | NullCond(col: seq<string>, not: bool)
    | BetweenCond(col: seq<string>, lo: int, hi: int, negative: bool)
    | ConstCond(truth: bool)
    | NotCond(c: Cond)
    | AndCond(l: Cond, r: Cond)
    | OrCond(l: Cond, r: Cond)

  datatype Parsed<+T> = Fail | Done(value: T, rest: seq<Tok>)

  predicate Starts(ts: seq<Tok>, t: Tok) {
    ts != [] && ts[0] == t
  }

  // ----- the parser, one function for each level of precedence

  function ParseOr(ts: seq<Tok>): (r: Parsed<Cond>)
    ensures r.Done? ==> |r.rest| < |ts|
    decreases |ts|, 3
  {
    var l := ParseAnd(ts);
    if l.Done? && Starts(l.rest, OrTok) then
      var r := ParseOr(l.rest[1..]);
      if r.Fail? then Fail else Done(OrCond(l.value, r.value), r.rest)
    else l
  }

  function ParseAnd(ts: seq<Tok>): (r: Parsed<Cond>)
    ensures r.Done? ==> |r.rest| < |ts|
    decreases |ts|, 2
  {
    var l := ParseNot(ts);
    if l.Done? && Starts(l.rest, AndTok) then
      var r := ParseAnd(l.rest[1..]);
      if r.Fail? then Fail else Done(AndCond(l.value, r.value), r.rest)
    else l
  }

  function ParseNot(ts: seq<Tok>): (r: Parsed<Cond>)
    ensures r.Done? ==> |r.rest| < |ts|
    decreases |ts|, 1
  {
    if Starts(ts, NotTok) then
      var r := ParseNot(ts[1..]);
      if r.Fail? then Fail else Done(NotCond(r.value), r.rest)
    else ParseTest(ts)
  }

  function ParseTest(ts: seq<Tok>): (r: Parsed<Cond>)
    ensures r.Done? ==> |r.rest| < |ts|
    decreases |ts|, 0
  {
    if Starts(ts, OpenTok) then
      var r := ParseOr(ts[1..]);
      if r.Done? && Starts(r.rest, CloseTok) then Done(r.value, r.rest[1..]) else Fail
    else if |ts| >= 3 && ts[0].NumTok? && ts[1] == OpTok(Eq) && ts[2].NumTok? then
      Done(ConstCond(ts[0].value == ts[2].value), ts[3..])
    else if |ts| >= 2 && ts[0].NameTok? then
      if ts[1] == NotTok then ParseColumnTest(ts[0].parts, ts[2..], true)
      else ParseColumnTest(ts[0].parts, ts[1..], false)
    else Fail
  }

  // What follows a column, or a column and NOT.
  function ParseColumnTest(col: seq<string>, ts: seq<Tok>, negative: bool): (r: Parsed<Cond>)
    ensures r.Done? ==> |r.rest| < |ts|
  {
    if Starts(ts, InTok) && Starts(ts[1..], OpenTok) then
      var list := ParseParams(ts[2..]);
      if list.Fail? then Fail else Done(InCond(col, list.value, !negative), list.rest)
    else if |ts| >= 4 && ts[0] == BetweenTok && ts[1].ParamTok? && ts[2] == AndTok && ts[3].ParamTok? then
      Done(BetweenCond(col, ts[1].n, ts[3].n, negative), ts[4..])
    else if !negative && |ts| >= 2 && ts[0].OpTok? && ts[1].ParamTok? then
      Done(CmpCond(ts[0].op, col, ts[1].n), ts[2..])
    else if !negative && |ts| >= 3 && ts[0] == IsTok && ts[1] == NotTok && ts[2] == NullTok then
      Done(NullCond(col, true), ts[3..])
    else if !negative && |ts| >= 2 && ts[0] == IsTok && ts[1] == NullTok then
      Done(NullCond(col, false), ts[2..])
    else Fail
  }

  function ParseParams(ts: seq<Tok>): (r: Parsed<seq<int>>)
    ensures r.Done? ==> |r.rest| < |ts|
    decreases |ts|
  {
    if |ts| < 2 || !ts[0].ParamTok? then Fail
    else if ts[1] == CloseTok then Done([ts[0].n], ts[2..])
    else if ts[1] == CommaTok then
      var r := ParseParams(ts[2..]);
      if r.Fail? then Fail else Done([ts[0].n] + r.value, r.rest)
    else Fail
  }

  // ----- what a parsed condition means

  function Arg(env: Env, n: int): Value {
    if 1 <= n <= |env.args| then env.args[n - 1] else Null
  }

  function ArgList(env: Env, ns: seq<int>): seq<Value> {
    seq(|ns|, i requires 0 <= i < |ns| => Arg(env, ns[i]))
  }

  function Cond3(env: Env, c: Cond): Truth {
    match c
    case CmpCond(op, col, n) => Compare3(env, op, env.row(col), Arg(env, n))
    case InCond(col, ns, positive) => Negated(In3(env, env.row(col), ArgList(env, ns)), !positive)
    case NullCond(col, not) => IsNull3(env.row(col), not)
    case BetweenCond(col, lo, hi, negative) =>
      Negated(Between3(env, env.row(col), Arg(env, lo), Arg(env, hi)), negative)
    case ConstCond(truth) => OfBool(truth)
    case NotCond(inner) => Not3(Cond3(env, inner))
    case AndCond(l, r) => And3(Cond3(env, l), Cond3(env, r))
    case OrCond(l, r) => Or3(Cond3(env, l), Cond3(env, r))
  }

  // The arguments n+1, n+2, ... of the statement are vals.
  predicate ArgsFrom(env: Env, n: nat, vals: seq<Value>) {
    n + |vals| <= |env.args| && env.args[n..n + |vals|] == vals
  }

  lemma ArgsSplit(env: Env, n: nat, a: seq<Value>, b: seq<Value>)
    requires ArgsFrom(env, n, a + b)
    ensures ArgsFrom(env, n, a) && ArgsFrom(env, n + |a|, b)
  {
    assert env.args[n..n + |a|] == (a + b)[..|a|];
    assert env.args[n + |a|..n + |a| + |b|] == (a + b)[|a|..];
  }

  lemma ArgHere(env: Env, n: nat, v: Value)
    requires ArgsFrom(env, n, [v])
    ensures Arg(env, n + 1) == v
  {
    assert env.args[n] == env.args[n..n + 1][0];
  }

  // ----- what it means for tokens to stand for a truth value before `rest`

  // What may follow a condition.
  predicate Follow(rest: seq<Tok>) {
    rest == [] || rest[0] == AndTok || rest[0] == OrTok || rest[0] == CloseTok
  }

  // The tokens parse as one unit.
  predicate UnitAt(env: Env, ts: seq<Tok>, rest: seq<Tok>, v: Truth) {
    var r := ParseNot(ts + rest);
    r.Done? && r.rest == rest && Cond3(env, r.value) == v
  }

  // The tokens parse as a chain of ANDs, which goes on if rest does.
  predicate ChainAt(env: Env, ts: seq<Tok>, rest: seq<Tok>, v: Truth) {
    var r := ParseAnd(ts + rest);
    if Starts(rest, AndTok) then
      var more := ParseAnd(rest[1..]);
      more.Done? ==> r.Done? && r.rest == more.rest && Cond3(env, r.value) == And3(v, Cond3(env, more.value))
    else r.Done? && r.rest == rest && Cond3(env, r.value) == v
  }

  // The tokens parse as a chain of ORs, which goes on if rest does.
  predicate DisjAt(env: Env, ts: seq<Tok>, rest: seq<Tok>, v: Truth) {
    var r := ParseOr(ts + rest);
    if Starts(rest, OrTok) then
      var more := ParseOr(rest[1..]);
      more.Done? ==> r.Done? && r.rest == more.rest && Cond3(env, r.value) == Or3(v, Cond3(env, more.value))
    else r.Done? && r.rest == rest && Cond3(env, r.value) == v
  }

  lemma UnitChain(env: Env, ts: seq<Tok>, rest: seq<Tok>, v: Truth)
    requires UnitAt(env, ts, rest, v)
    ensures ChainAt(env, ts, rest, v)
  {
    hide ParseNot;
  }

  lemma ChainJoin(env: Env, a: seq<Tok>, b: seq<Tok>, rest: seq<Tok>, va: Truth, vb: Truth)
    requires ChainAt(env, a, [AndTok] + (b + rest), va) && ChainAt(env, b, rest, vb)
    ensures ChainAt(env, a + [AndTok] + b, rest, And3(va, vb))
  {
    hide ParseAnd;
    assert a + [AndTok] + b + rest == a + ([AndTok] + (b + rest));
    assert ([AndTok] + (b + rest))[1..] == b + rest;
  }

  lemma ChainDisj(env: Env, ts: seq<Tok>, rest: seq<Tok>, v: Truth)
    requires ChainAt(env, ts, rest, v) && !Starts(rest, AndTok)
    ensures DisjAt(env, ts, rest, v)
  {
    hide ParseAnd;
  }

  lemma DisjJoin(env: Env, a: seq<Tok>, b: seq<Tok>, rest: seq<Tok>, va: Truth, vb: Truth)
    requires ChainAt(env, a, [OrTok] + (b + rest), va) && DisjAt(env, b, rest, vb)
    ensures DisjAt(env, a + [OrTok] + b, rest, Or3(va, vb))
  {
    ChainDisj(env, a, [OrTok] + (b + rest), va);
    DisjAppend(env, a, b, rest, va, vb);
  }

  lemma DisjAppend(env: Env, a: seq<Tok>, b: seq<Tok>, rest: seq<Tok>, va: Truth, vb: Truth)
    requires DisjAt(env, a, [OrTok] + (b + rest), va) && DisjAt(env, b, rest, vb)
    ensures DisjAt(env, a + [OrTok] + b, rest, Or3(va, vb))
  {
    hide ParseOr;
    assert a + [OrTok] + b + rest == a + ([OrTok] + (b + rest));
    assert ([OrTok] + (b + rest))[1..] == b + rest;
  }

  lemma ParenUnit(env: Env, ts: seq<Tok>, rest: seq<Tok>, v: Truth)
    requires DisjAt(env, ts, [CloseTok] + rest, v)
    ensures UnitAt(env, [OpenTok] + ts + [CloseTok], rest, v)
  {
    hide ParseOr;
    var all := [OpenTok] + ts + [CloseTok] + rest;
    assert all[1..] == ts + ([CloseTok] + rest);
    assert ([CloseTok] + rest)[1..] == rest;
    assert ParseNot(all) == ParseTest(all);
  }

  lemma NotUnit(env: Env, ts: seq<Tok>, rest: seq<Tok>, v: Truth)
    requires DisjAt(env, ts, [CloseTok] + rest, v)
    ensures UnitAt(env, [NotTok, OpenTok] + ts + [CloseTok], rest, Not3(v))
  {
    hide ParseTest;
    ParenUnit(env, ts, rest, v);
    var inner := [OpenTok] + ts + [CloseTok] + rest;
    var all := [NotTok, OpenTok] + ts + [CloseTok] + rest;
    assert all[1..] == inner;
  }

  // ----- tokens of pieces

  lemma {:induction false} ToksAppend(a: seq<Piece>, b: seq<Piece>, n: nat)
    ensures Toks(a + b, n) == Toks(a, n) + Toks(b, n + |Args(a)|)
    decreases |a|
  {
    hide PieceToks, PieceArgs;
    if a == [] {
      assert a + b == b;
    } else {
      assert (a + b)[0] == a[0] && (a + b)[1..] == a[1..] + b;
      var k := n + |PieceArgs(a[0])|;
      ToksAppend(a[1..], b, k);
      assert |Args(a)| == |PieceArgs(a[0])| + |Args(a[1..])|;
    }
  }

  lemma ToksOne(p: Piece, n: nat)
    ensures Toks([p], n) == PieceToks(p, n)
  {
    hide PieceToks;
    assert [p][1..] == [];
  }

  // An argument-free piece between two lists.
  lemma ToksJoin(a: seq<Piece>, sep: Piece, b: seq<Piece>, n: nat)
    requires PieceArgs(sep) == []
    ensures Toks(a + [sep] + b, n) == Toks(a, n) + PieceToks(sep, n) + Toks(b, n + |Args(a)|)
    ensures Args(a + [sep] + b) == Args(a) + Args(b)
  {
    hide Toks, Args, PieceToks;
    ToksAppend(a + [sep], b, n);
    ToksAppend(a, [sep], n);
    ArgsAppend(a + [sep], b);
    ArgsAppend(a, [sep]);
    ArgsOne(sep);
    ToksOne(sep, n + |Args(a)|);
    assert Args(a) + [] == Args(a);
    SepToks(sep, n + |Args(a)|, n);
  }

  lemma SepToks(sep: Piece, m: nat, n: nat)
    requires PieceArgs(sep) == []
    ensures PieceToks(sep, m) == PieceToks(sep, n)
  {
  }

  // ----- the tests on one column

  lemma ParseTestOf(col: seq<string>, tail: seq<Tok>)
    requires tail != []
    ensures ParseNot([NameTok(col)] + tail) ==
            if tail[0] == NotTok then ParseColumnTest(col, tail[1..], true) else ParseColumnTest(col, tail, false)
  {
    hide ParseColumnTest;
    var all := [NameTok(col)] + tail;
    assert all[1..] == tail && all[2..] == tail[1..];
    assert ParseNot(all) == ParseTest(all);
  }

  lemma ParseNull(col: seq<string>, rest: seq<Tok>, not: bool)
    ensures ParseColumnTest(col, (if not then [IsTok, NotTok, NullTok] else [IsTok, NullTok]) + rest, false) ==
            Done(NullCond(col, not), rest)
  {
    var ts := (if not then [IsTok, NotTok, NullTok] else [IsTok, NullTok]) + rest;
    assert if not then ts[3..] == rest else ts[2..] == rest;
  }

  lemma ParseBetween(col: seq<string>, m: int, n: int, rest: seq<Tok>, negative: bool)
    ensures ParseColumnTest(col, [BetweenTok, ParamTok(m), AndTok, ParamTok(n)] + rest, negative) ==
            Done(BetweenCond(col, m, n, negative), rest)
  {
    var ts := [BetweenTok, ParamTok(m), AndTok, ParamTok(n)] + rest;
    assert ts[4..] == rest;
  }

  lemma ParseIn(col: seq<string>, inner: seq<Tok>, negative: bool)
    ensures ParseColumnTest(col, [InTok, OpenTok] + inner, negative) ==
            var list := ParseParams(inner);
            if list.Fail? then Fail else Done(InCond(col, list.value, !negative), list.rest)
  {
    hide ParseParams;
    var ts := [InTok, OpenTok] + inner;
    assert ts[1..][0] == OpenTok && ts[2..] == inner;
  }

  lemma CompareUnit(env: Env, k: string, op: Cmp, v: Value, n: nat, rest: seq<Tok>)
    requires ArgsFrom(env, n, [v])
    ensures var ps := [Column(k), Operator(op), Bound(v)];
            Args(ps) == [v] && UnitAt(env, Toks(ps, n), rest, Compare3(env, op, env.row(Split(k)), v))
  {
    ArgHere(env, n, v);
    var ps := [Column(k), Operator(op), Bound(v)];
    var ts := [NameTok(Split(k)), OpTok(op), ParamTok(n + 1)];
    ThreePieces(Column(k), Operator(op), Bound(v), n);
    assert Toks(ps, n) == ts;
    var all := ts + rest;
    assert all[1..][2..] == rest;
  }

  lemma ThreePieces(a: Piece, b: Piece, c: Piece, n: nat)
    requires PieceArgs(a) == [] && PieceArgs(b) == []
    ensures Toks([a, b, c], n) == PieceToks(a, n) + PieceToks(b, n) + PieceToks(c, n)
    ensures Args([a, b, c]) == PieceArgs(c)
  {
    hide PieceToks;
    assert [a, b, c][1..] == [b, c] && [b, c][1..] == [c] && [c][1..] == [];
    assert Toks([c], n) == PieceToks(c, n) + [];
    assert Toks([b, c], n) == PieceToks(b, n) + Toks([c], n);
    assert Args([c]) == PieceArgs(c) + [];
    assert Args([b, c]) == [] + Args([c]);
    assert Args([a, b, c]) == [] + Args([b, c]);
  }

  lemma TwoPieces(a: Piece, b: Piece, n: nat)
    requires PieceArgs(a) == []
    ensures Toks([a, b], n) == PieceToks(a, n) + PieceToks(b, n)
    ensures Args([a, b]) == PieceArgs(b)
  {
    hide PieceToks;
    assert [a, b][1..] == [b] && [b][1..] == [];
    assert Toks([b], n) == PieceToks(b, n) + [];
    assert Args([b]) == PieceArgs(b) + [];
    assert Args([a, b]) == [] + Args([b]);
  }

  lemma NullUnit(env: Env, k: string, not: bool, n: nat, rest: seq<Tok>)
    ensures var ps := [Column(k), IsNull(not)];
            Args(ps) == [] && UnitAt(env, Toks(ps, n), rest, IsNull3(env.row(Split(k)), not))
  {
    hide ParseNot, ParseColumnTest;
    var tail := if not then [IsTok, NotTok, NullTok] else [IsTok, NullTok];
    TwoPieces(Column(k), IsNull(not), n);
    assert Toks([Column(k), IsNull(not)], n) + rest == [NameTok(Split(k))] + (tail + rest);
    ParseTestOf(Split(k), tail + rest);
    ParseNull(Split(k), rest, not);
  }

  lemma BetweenUnit(env: Env, k: string, lo: Value, hi: Value, negative: bool, n: nat, rest: seq<Tok>)
    requires ArgsFrom(env, n, [lo, hi])
    ensures var ps := [Column(k), BetweenWord(negative), Bound(lo), AndWord, Bound(hi)];
            && Args(ps) == [lo, hi]
            && UnitAt(env, Toks(ps, n), rest, Negated(Between3(env, env.row(Split(k)), lo, hi), negative))
  {
    hide UnitAt, Toks;
    assert [lo, hi] == [lo] + [hi];
    ArgsSplit(env, n, [lo], [hi]);
    ArgHere(env, n, lo);
    ArgHere(env, n + 1, hi);
    var head, tail := [Column(k), BetweenWord(negative), Bound(lo)], [AndWord, Bound(hi)];
    ThreePieces(Column(k), BetweenWord(negative), Bound(lo), n);
    TwoPieces(AndWord, Bound(hi), n + 1);
    ToksAppend(head, tail, n);
    ArgsAppend(head, tail);
    var ps := [Column(k), BetweenWord(negative), Bound(lo), AndWord, Bound(hi)];
    assert head + tail == ps;
    BetweenParse(env, Split(k), n, negative, rest);
    var ts := [NameTok(Split(k))] + (if negative then [NotTok] else [])
        + [BetweenTok, ParamTok(n + 1), AndTok, ParamTok(n + 2)];
    assert Toks(ps, n) == ts;
  }

  lemma BetweenParse(env: Env, col: seq<string>, n: nat, negative: bool, rest: seq<Tok>)
    ensures UnitAt(env,
                   [NameTok(col)] + (if negative then [NotTok] else [])
                   + [BetweenTok, ParamTok(n + 1), AndTok, ParamTok(n + 2)],
                   rest, Negated(Between3(env, env.row(col), Arg(env, n + 1), Arg(env, n + 2)), negative))
  {
    hide ParseNot, ParseColumnTest;
    var test := [BetweenTok, ParamTok(n + 1), AndTok, ParamTok(n + 2)];
    var tail := (if negative then [NotTok] else []) + (test + rest);
    var ts := [NameTok(col)] + (if negative then [NotTok] else []) + test;
    assert ts + rest == [NameTok(col)] + tail;
    assert if negative then tail[1..] == test + rest else tail == test + rest;
    ParseTestOf(col, tail);
    ParseBetween(col, n + 1, n + 2, rest, negative);
  }

  // The numbers of a bound list.
  function Numbers(n: nat, count: nat): seq<int> {
    seq(count, i => n + 1 + i)
  }

  lemma {:induction false} ListToks(vals: seq<Value>, n: nat, rest: seq<Tok>)
    requires vals != []
    ensures ParseParams(Toks(ListPieces(vals), n) + ([CloseTok] + rest)) == Done(Numbers(n, |vals|), rest)
    decreases |vals|
  {
    hide Toks, Args;
    var v := vals[0];
    if |vals| == 1 {
      assert vals == [v] && ListPieces(vals[1..]) == [];
      assert ListPieces(vals) == [Bound(v)];
      ToksOne(Bound(v), n);
      var all := [ParamTok(n + 1)] + ([CloseTok] + rest);
      assert all[2..] == rest;
      assert Numbers(n, 1) == [n + 1];
    } else {
      var tail := ListPieces(vals[1..]);
      ListToks(vals[1..], n + 1, rest);
      assert ListPieces(vals) == [Bound(v), Comma] + tail;
      TwoThen(Bound(v), Comma, tail, n);
      var ts := Toks(tail, n + 1) + ([CloseTok] + rest);
      assert Toks(ListPieces(vals), n) + ([CloseTok] + rest) == [ParamTok(n + 1), CommaTok] + ts;
      ParamsStep(n + 1, ts);
      assert Numbers(n, |vals|) == [n + 1] + Numbers(n + 1, |vals| - 1);
      assert vals == [v] + vals[1..];
    }
  }

  lemma ParamsStep(n: int, ts: seq<Tok>)
    ensures ParseParams([ParamTok(n), CommaTok] + ts) ==
            var r := ParseParams(ts);
            if r.Fail? then Fail else Done([n] + r.value, r.rest)
  {
    assert ([ParamTok(n), CommaTok] + ts)[2..] == ts;
  }

  lemma TwoThen(a: Piece, b: Piece, tail: seq<Piece>, n: nat)
    requires PieceArgs(b) == []
    ensures Toks([a, b] + tail, n)
        == PieceToks(a, n) + PieceToks(b, n + |PieceArgs(a)|) + Toks(tail, n + |PieceArgs(a)|)
    ensures Args([a, b] + tail) == PieceArgs(a) + Args(tail)
  {
    hide PieceToks, PieceArgs;
    var all, more := [a, b] + tail, [b] + tail;
    var k := n + |PieceArgs(a)|;
    assert all[0] == a && all[1..] == more && more[0] == b && more[1..] == tail;
    assert Toks(more, k) == PieceToks(b, k) + Toks(tail, k);
    assert Toks(all, n) == PieceToks(a, n) + Toks(more, k);
    assert PieceToks(a, n) + (PieceToks(b, k) + Toks(tail, k)) == PieceToks(a, n) + PieceToks(b, k) + Toks(tail, k);
    assert Args(more) == [] + Args(tail) == Args(tail);
  }

  lemma ArgListNumbers(env: Env, n: nat, vals: seq<Value>)
    requires ArgsFrom(env, n, vals)
    ensures ArgList(env, Numbers(n, |vals|)) == vals
  {
    forall i | 0 <= i < |vals|
      ensures ArgList(env, Numbers(n, |vals|))[i] == vals[i]
    {
      assert vals[i] == env.args[n..n + |vals|][i];
    }
  }

  lemma InUnit(env: Env, k: string, vals: seq<Value>, positive: bool, n: nat, rest: seq<Tok>)
    requires ArgsFrom(env, n, vals)
    ensures var ps := InPieces(k, vals, positive);
            Args(ps) == vals && UnitAt(env, Toks(ps, n), rest, Negated(In3(env, env.row(Split(k)), vals), !positive))
  {
    if vals == [] {
      ToksOne(Constant(!positive), n);
      ArgsOne(Constant(!positive));
      var all := PieceToks(Constant(!positive), n) + rest;
      assert all[3..] == rest;
    } else {
      InListUnit(env, k, vals, positive, n, rest);
    }
  }

  lemma InListUnit(env: Env, k: string, vals: seq<Value>, positive: bool, n: nat, rest: seq<Tok>)
    requires vals != [] && ArgsFrom(env, n, vals)
    ensures var ps := InPieces(k, vals, positive);
            Args(ps) == vals && UnitAt(env, Toks(ps, n), rest, Negated(In3(env, env.row(Split(k)), vals), !positive))
  {
    hide ParseNot, ParseColumnTest, ParseParams, ListPieces, Toks, Args, InPieces, PieceToks;
    ListToks(vals, n, rest);
    ArgListNumbers(env, n, vals);
    InPiecesArgs(k, vals, positive);
    InToks(k, vals, positive, n, rest);
    var inner := Toks(ListPieces(vals), n) + ([CloseTok] + rest);
    var open := if positive then [InTok, OpenTok] else [NotTok, InTok, OpenTok];
    ParseTestOf(Split(k), open + inner);
    ParseIn(Split(k), inner, !positive);
    if !positive {
      assert (open + inner)[1..] == [InTok, OpenTok] + inner;
    }
  }

  lemma InToks(k: string, vals: seq<Value>, positive: bool, n: nat, rest: seq<Tok>)
    requires vals != []
    ensures Toks(InPieces(k, vals, positive), n) + rest ==
            [NameTok(Split(k))] + ((if positive then [InTok, OpenTok] else [NotTok, InTok, OpenTok]) +
                                   (Toks(ListPieces(vals), n) + ([CloseTok] + rest)))
  {
    hide Toks, Args, ListPieces;
    var list := ListPieces(vals);
    assert InPieces(k, vals, positive) == [Column(k), InOpen(positive)] + (list + [Close]);
    TwoThen(Column(k), InOpen(positive), list + [Close], n);
    ToksAppend(list, [Close], n);
    ToksOne(Close, n + |Args(list)|);
  }

  lemma EntryUnit(env: Env, op: Cmp, k: string, v: Value, ps: seq<Piece>, n: nat, rest: seq<Tok>)
    requires EntryPieces(op, k, v) == Ok(ps) && ArgsFrom(env, n, Args(ps))
    requires v.List? ==> op.Eq? || op.NotEq?
    ensures UnitAt(env, Toks(ps, n), rest, Entry3(env, op, k, v))
  {
    hide Toks, UnitAt;
    if v.Null? {
      NullUnit(env, k, op.NotEq?, n, rest);
    } else if v.List? {
      InPiecesArgs(k, v.elems, op.Eq?);
      InUnit(env, k, v.elems, op.Eq?, n, rest);
    } else {
      ThreePieces(Column(k), Operator(op), Bound(v), n);
      CompareUnit(env, k, op, v, n, rest);
    }
  }

  // ----- chains of tests and of expressions

  lemma EntriesSplit(op: Cmp, m: map<string, Value>, keys: seq<string>)
    requires keys != [] && forall k :: k in keys ==> k in m
    requires EntriesPieces(op, m, keys).Ok?
    ensures EntryPieces(op, keys[0], m[keys[0]]).Ok? && EntriesPieces(op, m, keys[1..]).Ok?
    ensures var first := EntryPieces(op, keys[0], m[keys[0]]).value;
            EntriesPieces(op, m, keys).value ==
            if |keys| == 1 then first else first + [AndWord] + EntriesPieces(op, m, keys[1..]).value
  {
    hide EntryPieces;
    if |keys| == 1 {
      assert keys[1..] == [];
    }
  }

  function EntryTruths(env: Env, op: Cmp, m: map<string, Value>, keys: seq<string>): set<Truth>
    requires forall k :: k in keys ==> k in m
  {
    set k | k in keys :: Entry3(env, op, k, m[k])
  }

  lemma EntryTruthsStep(env: Env, op: Cmp, m: map<string, Value>, keys: seq<string>)
    requires keys != [] && forall k :: k in keys ==> k in m
    ensures Least(EntryTruths(env, op, m, keys)) ==
            And3(Entry3(env, op, keys[0], m[keys[0]]), Least(EntryTruths(env, op, m, keys[1..])))
  {
    hide Entry3;
    var first := Entry3(env, op, keys[0], m[keys[0]]);
    var all, rest := EntryTruths(env, op, m, keys), EntryTruths(env, op, m, keys[1..]);
    assert keys == [keys[0]] + keys[1..];
    assert all == {first} + rest;
    LeastUnion({first}, rest);
  }

  lemma {:induction false} EntriesChain(env: Env, op: Cmp, m: map<string, Value>, keys: seq<string>, n: nat,
                                        rest: seq<Tok>)
    requires keys != [] && forall k :: k in keys ==> k in m && (m[k].List? ==> op.Eq? || op.NotEq?)
    requires EntriesPieces(op, m, keys).Ok? && ArgsFrom(env, n, Args(EntriesPieces(op, m, keys).value))
    ensures ChainAt(env, Toks(EntriesPieces(op, m, keys).value, n), rest, Least(EntryTruths(env, op, m, keys)))
    decreases |keys|
  {
    hide EntryPieces, EntriesPieces, Toks, Args, ChainAt, UnitAt, Entry3, Least;
    EntriesSplit(op, m, keys);
    EntryTruthsStep(env, op, m, keys);
    var k := keys[0];
    var ps := EntryPieces(op, k, m[k]).value;
    if |keys| == 1 {
      assert keys[1..] == [];
      NoTruths(env, op, m, Entry3(env, op, k, m[k]));
      EntryUnit(env, op, k, m[k], ps, n, rest);
      UnitChain(env, Toks(ps, n), rest, Entry3(env, op, k, m[k]));
    } else {
      var more := EntriesPieces(op, m, keys[1..]).value;
      ToksJoin(ps, AndWord, more, n);
      ArgsSplit(env, n, Args(ps), Args(more));
      var n', tail := n + |Args(ps)|, Toks(more, n + |Args(ps)|);
      EntriesChain(env, op, m, keys[1..], n', rest);
      EntryUnit(env, op, k, m[k], ps, n, [AndTok] + (tail + rest));
      UnitChain(env, Toks(ps, n), [AndTok] + (tail + rest), Entry3(env, op, k, m[k]));
      ChainJoin(env, Toks(ps, n), tail, rest, Entry3(env, op, k, m[k]), Least(EntryTruths(env, op, m, keys[1..])));
    }
  }

  lemma NoTruths(env: Env, op: Cmp, m: map<string, Value>, v: Truth)
    ensures And3(v, Least(EntryTruths(env, op, m, []))) == v
  {
    assert EntryTruths(env, op, m, []) == {};
  }

  function PartTruths(d: Dialect, env: Env, parts: seq<Expr>, i: nat): set<Truth>
    requires i <= |parts|
  {
    set p | p in parts[i..] :: Eval(d, env, p)
  }

  lemma PartTruthsStep(d: Dialect, env: Env, parts: seq<Expr>, i: nat)
    requires i < |parts|
    ensures Least(PartTruths(d, env, parts, i)) == And3(Eval(d, env, parts[i]), Least(PartTruths(d, env, parts, i + 1)))
    ensures Greatest(PartTruths(d, env, parts, i))
        == Or3(Eval(d, env, parts[i]), Greatest(PartTruths(d, env, parts, i + 1)))
    ensures i + 1 == |parts| ==>
        Least(PartTruths(d, env, parts, i)) == Greatest(PartTruths(d, env, parts, i)) == Eval(d, env, parts[i])
  {
    hide Eval;
    var first := Eval(d, env, parts[i]);
    var all, rest := PartTruths(d, env, parts, i), PartTruths(d, env, parts, i + 1);
    assert parts[i..] == [parts[i]] + parts[i + 1..];
    assert all == {first} + rest;
    LeastUnion({first}, rest);
    if i + 1 == |parts| {
      assert parts[i + 1..] == [];
      assert rest == {};
    }
  }

  lemma PartsSplit(d: Dialect, g: Expr, i: nat)
    requires g.Group? && i < |g.parts| && PartsPieces(d, g, i).Ok?
    ensures !g.parts[i].Nil? && Pieces(d, g.parts[i]).Ok? && PartsPieces(d, g, i + 1).Ok?
    ensures var first := Pieces(d, g.parts[i]).value;
            PartsPieces(d, g, i).value ==
            if i + 1 == |g.parts| then first else first + [JoinerPiece(g.sep)] + PartsPieces(d, g, i + 1).value
  {
    hide Pieces;
  }

  // Every written expression is a chain of ANDs that stands for its truth value,
  // whatever may follow it.
  lemma {:induction false} ExprChain(d: Dialect, env: Env, e: Expr, n: nat, rest: seq<Tok>)
    requires Readable(e) && Pieces(d, e).Ok? && Follow(rest)
    requires ArgsFrom(env, n, Args(Pieces(d, e).value))
    ensures ChainAt(env, Toks(Pieces(d, e).value, n), rest, Eval(d, env, e))
    decreases e, 1
  {
    hide Toks, Args, ChainAt, UnitAt, DisjAt, EntriesPieces;
    hide PartsPieces, InPieces, Entry3, In3, Between3, IsNull3, SortedKeys;
    match e {
      case Compare(op, m) =>
        var keys, w := SortedKeys(m.Keys), WrittenOp(d, op);
        assert keys != [];
        EntriesChain(env, w, m, keys, n, rest);
        assert EntryTruths(env, w, m, keys) == set k | k in m.Keys :: Entry3(env, w, k, m[k]);
      case InList(col, vals, positive) =>
        InPiecesArgs(col, vals, positive);
        InUnit(env, col, vals, positive, n, rest);
        UnitChain(env, Toks(InPieces(col, vals, positive), n), rest, Eval(d, env, e));
      case NullTest(col, not) =>
        NullUnit(env, col, not, n, rest);
        UnitChain(env, Toks([Column(col), IsNull(not)], n), rest, Eval(d, env, e));
      case Between(col, lo, hi, negative) =>
        var ps := [Column(col), BetweenWord(negative), Bound(lo), AndWord, Bound(hi)];
        BetweenArgs(col, negative, lo, hi);
        BetweenUnit(env, col, lo, hi, negative, n, rest);
        UnitChain(env, Toks(ps, n), rest, Eval(d, env, e));
      case Group(_, _) =>
        GroupChain(d, env, e, n, rest);
      case Not(inner) =>
        var ps := Pieces(d, inner).value;
        ToksWrapped(NotOpen, ps, n);
        ExprChain(d, env, inner, n, [CloseTok] + rest);
        ChainDisj(env, Toks(ps, n), [CloseTok] + rest, Eval(d, env, inner));
        NotUnit(env, Toks(ps, n), rest, Eval(d, env, inner));
        UnitChain(env, Toks([NotOpen] + ps + [Close], n), rest, Eval(d, env, e));
    }
  }

  lemma ToksWrapped(open: Piece, ps: seq<Piece>, n: nat)
    requires open == Open || open == NotOpen
    ensures Toks([open] + ps + [Close], n) == PieceToks(open, n) + Toks(ps, n) + [CloseTok]
    ensures Args([open] + ps + [Close]) == Args(ps)
  {
    ToksAppend([open] + ps, [Close], n);
    ToksAppend([open], ps, n);
    ToksOne(open, n);
    ArgsAppend([open] + ps, [Close]);
    ArgsAppend([open], ps);
    ArgsOne(open);
    ArgsOne(Close);
    ToksOne(Close, n + |Args([open] + ps)|);
  }

  lemma {:induction false} GroupChain(d: Dialect, env: Env, e: Expr, n: nat, rest: seq<Tok>)
    requires e.Group? && Readable(e) && Pieces(d, e).Ok? && Follow(rest)
    requires ArgsFrom(env, n, Args(Pieces(d, e).value))
    ensures ChainAt(env, Toks(Pieces(d, e).value, n), rest, Eval(d, env, e))
    decreases e, 0, |e.parts| + 1
  {
    hide Toks, Args, ChainAt, UnitAt, DisjAt, PartsPieces, Least, Greatest;
    var parts := e.parts;
    EvalGroup(d, env, e);
    if |parts| == 1 {
      PartTruthsStep(d, env, parts, 0);
      assert parts[0] in parts;
      ExprChain(d, env, parts[0], n, rest);
    } else {
      var ps := PartsPieces(d, e, 0).value;
      ToksWrapped(Open, ps, n);
      PartsDisj(d, env, e, 0, n, [CloseTok] + rest);
      ParenUnit(env, Toks(ps, n), rest, Eval(d, env, e));
      UnitChain(env, Toks([Open] + ps + [Close], n), rest, Eval(d, env, e));
    }
  }

  lemma EvalGroup(d: Dialect, env: Env, e: Expr)
    requires e.Group?
    ensures Eval(d, env, e) ==
            if e.sep.AndJoin? then Least(PartTruths(d, env, e.parts, 0)) else Greatest(PartTruths(d, env, e.parts, 0))
  {
    hide Least, Greatest;
    assert e.parts[0..] == e.parts;
    assert PartTruths(d, env, e.parts, 0) == set p | p in e.parts :: Eval(d, env, p);
  }

  // The parts of a group, between its parentheses.
  lemma {:induction false} PartsDisj(d: Dialect, env: Env, g: Expr, i: nat, n: nat, rest: seq<Tok>)
    requires g.Group? && Readable(g) && i < |g.parts| && PartsPieces(d, g, i).Ok?
    requires ArgsFrom(env, n, Args(PartsPieces(d, g, i).value))
    requires Starts(rest, CloseTok)
    ensures g.sep.AndJoin? ==>
              ChainAt(env, Toks(PartsPieces(d, g, i).value, n), rest, Least(PartTruths(d, env, g.parts, i)))
    ensures DisjAt(env, Toks(PartsPieces(d, g, i).value, n), rest,
                   if g.sep.AndJoin? then Least(PartTruths(d, env, g.parts, i))
                   else Greatest(PartTruths(d, env, g.parts, i)))
    decreases g, 0, |g.parts| - i
  {
    hide Toks, Args, ChainAt, UnitAt, DisjAt, Pieces, PartsPieces, Eval, Least, Greatest, PartTruths;
    PartsSplit(d, g, i);
    PartTruthsStep(d, env, g.parts, i);
    var p := g.parts[i];
    assert p in g.parts;
    var ps, v := Pieces(d, p).value, Eval(d, env, p);
    if i + 1 == |g.parts| {
      ExprChain(d, env, p, n, rest);
      ChainDisj(env, Toks(ps, n), rest, v);
    } else {
      var more, sep := PartsPieces(d, g, i + 1).value, JoinerPiece(g.sep);
      ToksJoin(ps, sep, more, n);
      ArgsSplit(env, n, Args(ps), Args(more));
      var n', tail := n + |Args(ps)|, Toks(more, n + |Args(ps)|);
      PartsDisj(d, env, g, i + 1, n', rest);
      ExprChain(d, env, p, n, PieceToks(sep, n) + (tail + rest));
      if g.sep.AndJoin? {
        ChainJoin(env, Toks(ps, n), tail, rest, v, Least(PartTruths(d, env, g.parts, i + 1)));
        ChainDisj(env, Toks(PartsPieces(d, g, i).value, n), rest, Least(PartTruths(d, env, g.parts, i)));
      } else {
        DisjJoin(env, Toks(ps, n), tail, rest, v, Greatest(PartTruths(d, env, g.parts, i + 1)));
      }
    }
  }

  // ----- the written text is spaced so that it can be scanned

  // Pieces in the form every expression has: readable, spaced, not empty, and
  // not beginning with a separator.
  predicate Scannable(ps: seq<Piece>) {
    ps != [] && Spaced(ps) && forall p :: p in ps ==> ReadablePiece(p)
  }

  lemma ScannableJoin(a: seq<Piece>, sep: Piece, b: seq<Piece>)
    requires Scannable(a) && Scannable(b)
    requires SeparatorPiece(sep) && !OpenEnded(sep)
    ensures Scannable(a + [sep] + b)
  {
    hide OpenEnded, SeparatorPiece, ReadablePiece;
    var ps := a + [sep] + b;
    forall i | 0 <= i < |ps| - 1 && OpenEnded(ps[i])
      ensures SeparatorPiece(ps[i + 1])
    {
      if i < |a| - 1 {
        assert ps[i] == a[i] && ps[i + 1] == a[i + 1];
      } else if i > |a| {
        assert ps[i] == b[i - |a| - 1] && ps[i + 1] == b[i - |a|];
      }
    }
    assert ReadablePiece(sep) by {
      SeparatorIsReadable(sep);
    }
  }

  lemma SeparatorIsReadable(sep: Piece)
    requires SeparatorPiece(sep)
    ensures ReadablePiece(sep)
  {
  }

  lemma ScannableWrapped(open: Piece, ps: seq<Piece>)
    requires Scannable(ps) && (open == Open || open == NotOpen)
    ensures Scannable([open] + ps + [Close])
  {
    var all := [open] + ps + [Close];
    forall i | 0 <= i < |all| - 1 && OpenEnded(all[i])
      ensures SeparatorPiece(all[i + 1])
    {
      assert i > 0 && all[i] == ps[i - 1];
      if i < |ps| {
        assert all[i + 1] == ps[i];
      }
    }
  }

  lemma {:induction false} ListScannable(vals: seq<Value>)
    requires vals != []
    ensures Scannable(ListPieces(vals)) && !ListPieces(vals)[0].Column?
  {
    if |vals| > 1 {
      ListScannable(vals[1..]);
      ScannableJoin([Bound(vals[0])], Comma, ListPieces(vals[1..]));
      assert ListPieces(vals) == [Bound(vals[0])] + [Comma] + ListPieces(vals[1..]);
    } else {
      assert vals[1..] == [];
      assert ListPieces(vals) == [Bound(vals[0])];
    }
  }

  lemma InScannable(col: string, vals: seq<Value>, positive: bool)
    requires PlainColumn(col)
    ensures Scannable(InPieces(col, vals, positive))
  {
    hide PlainColumn;
    if vals != [] {
      var list := ListPieces(vals);
      ListScannable(vals);
      var all := InPieces(col, vals, positive);
      assert all == [Column(col), InOpen(positive)] + list + [Close];
      forall i | 0 <= i < |all| - 1 && OpenEnded(all[i])
        ensures SeparatorPiece(all[i + 1])
      {
        if i >= 2 && i - 2 < |list| - 1 {
          assert all[i] == list[i - 2] && all[i + 1] == list[i - 1];
        }
      }
      forall p | p in all
        ensures ReadablePiece(p)
      {
      }
    }
  }

  lemma {:induction false} EntriesScannable(op: Cmp, m: map<string, Value>, keys: seq<string>)
    requires keys != [] && forall k :: k in keys ==> k in m && PlainColumn(k)
    requires EntriesPieces(op, m, keys).Ok?
    ensures Scannable(EntriesPieces(op, m, keys).value)
  {
    hide PlainColumn, Scannable, EntriesPieces;
    EntriesSplit(op, m, keys);
    var k := keys[0];
    assert k in keys;
    assert Scannable(EntryPieces(op, k, m[k]).value) by {
      if m[k].List? {
        InScannable(k, m[k].elems, op.Eq?);
      } else {
        ShortScannable(k, op, m[k]);
      }
    }
    if |keys| > 1 {
      assert forall k' :: k' in keys[1..] ==> k' in keys;
      EntriesScannable(op, m, keys[1..]);
      ScannableJoin(EntryPieces(op, k, m[k]).value, AndWord, EntriesPieces(op, m, keys[1..]).value);
    }
  }

  lemma ShortScannable(k: string, op: Cmp, v: Value)
    requires PlainColumn(k)
    ensures Scannable([Column(k), Operator(op), Bound(v)])
    ensures forall not :: Scannable([Column(k), IsNull(not)])
  {
    hide PlainColumn;
  }

  lemma BetweenScannable(k: string, lo: Value, hi: Value, negative: bool)
    requires PlainColumn(k)
    ensures Scannable([Column(k), BetweenWord(negative), Bound(lo), AndWord, Bound(hi)])
  {
    hide PlainColumn;
  }

  lemma {:induction false} ExprScannable(d: Dialect, e: Expr)
    requires Readable(e) && Pieces(d, e).Ok?
    ensures Scannable(Pieces(d, e).value)
    decreases e, 1, 0
  {
    hide Scannable, PlainColumn, EntriesPieces, PartsPieces, InPieces, SortedKeys;
    match e {
      case Compare(op, m) =>
        var keys := SortedKeys(m.Keys);
        assert keys != [];
        EntriesScannable(WrittenOp(d, op), m, keys);
      case InList(col, vals, positive) =>
        InScannable(col, vals, positive);
      case NullTest(col, not) =>
        ShortScannable(col, Eq, Null);
      case Between(col, lo, hi, negative) =>
        BetweenScannable(col, lo, hi, negative);
      case Group(_, parts) =>
        if |parts| == 1 {
          assert parts[0] in parts;
          ExprScannable(d, parts[0]);
        } else {
          PartsScannable(d, e, 0);
          ScannableWrapped(Open, PartsPieces(d, e, 0).value);
        }
      case Not(inner) =>
        ExprScannable(d, inner);
        ScannableWrapped(NotOpen, Pieces(d, inner).value);
    }
  }

  lemma {:induction false} PartsScannable(d: Dialect, g: Expr, i: nat)
    requires g.Group? && Readable(g) && i < |g.parts| && PartsPieces(d, g, i).Ok?
    ensures Scannable(PartsPieces(d, g, i).value)
    decreases g, 0, |g.parts| - i
  {
    hide Scannable, PartsPieces, Pieces;
    PartsSplit(d, g, i);
    assert g.parts[i] in g.parts;
    ExprScannable(d, g.parts[i]);
    if i + 1 < |g.parts| {
      PartsScannable(d, g, i + 1);
      ScannableJoin(Pieces(d, g.parts[i]).value, JoinerPiece(g.sep), PartsPieces(d, g, i + 1).value);
    }
  }

  // ----- the main results

  // What a database reads in the text of a condition, if it reads it at all,
  // when n bare placeholders stand before it in the statement.
  function Read(d: Dialect, text: string, n: nat): Parsed<Cond> {
    ParseOr(Scan(d.quote, text, 0, n))
  }

  lemma ScanWritten(d: Dialect, ps: seq<Piece>, n: nat)
    requires (d.quote == '"' || d.quote == '`') && Scannable(ps) && IsInt64(n + |Args(ps)| + 1)
    ensures Scan(d.quote, Written(d, ps, n), 0, n) == Toks(ps, n)
  {
    hide Scan, Toks, Written;
    assert Written(d, ps, n)[0..] == Written(d, ps, n);
    ScanPieces(d, Written(d, ps, n), 0, ps, n);
  }

  // Rendering preserves meaning: wherever in a statement a condition is written,
  // n arguments being bound before it, its text parses, and on every row it has
  // the truth value of the expression.
  lemma ConditionReadsBack(d: Dialect, env: Env, e: Expr, n: nat)
    requires d.quote == '"' || d.quote == '`'
    requires Readable(e) && Pieces(d, e).Ok?
    requires ArgsFrom(env, n, Args(Pieces(d, e).value)) && IsInt64(|env.args| + 1)
    ensures var r := Read(d, Written(d, Pieces(d, e).value, n), n);
            r.Done? && r.rest == [] && Cond3(env, r.value) == Eval(d, env, e)
  {
    hide Scan, Toks, Written, Pieces, Args, Scannable, ChainAt, Eval;
    var ps := Pieces(d, e).value;
    ExprScannable(d, e);
    ScanWritten(d, ps, n);
    ExprChain(d, env, e, n, []);
    ChainDisj(env, Toks(ps, n), [], Eval(d, env, e));
    assert Toks(ps, n) + [] == Toks(ps, n);
  }

  lemma ClauseSplit(d: Dialect, exprs: seq<Expr>)
    requires exprs != [] && ClausePieces(d, exprs).Ok?
    ensures Pieces(d, exprs[0]).Ok? && ClausePieces(d, exprs[1..]).Ok?
    ensures var first := Pieces(d, exprs[0]).value;
            ClausePieces(d, exprs).value ==
            if |exprs| == 1 then first else first + [AndWord] + ClausePieces(d, exprs[1..]).value
  {
    hide Pieces;
    if |exprs| == 1 {
      assert exprs[1..] == [];
    }
  }

  lemma {:induction false} ClauseChain(d: Dialect, env: Env, exprs: seq<Expr>, n: nat)
    requires exprs != [] && (forall e :: e in exprs ==> Readable(e)) && ClausePieces(d, exprs).Ok?
    requires ArgsFrom(env, n, Args(ClausePieces(d, exprs).value))
    ensures ChainAt(env, Toks(ClausePieces(d, exprs).value, n), [], Least(PartTruths(d, env, exprs, 0)))
    ensures Scannable(ClausePieces(d, exprs).value)
    decreases |exprs|
  {
    hide Toks, Args, ChainAt, Pieces, ClausePieces, Eval, Least, Scannable, PartTruths;
    ClauseSplit(d, exprs);
    PartTruthsStep(d, env, exprs, 0);
    var e := exprs[0];
    assert e in exprs;
    var ps, v := Pieces(d, e).value, Eval(d, env, e);
    ExprScannable(d, e);
    if |exprs| == 1 {
      ExprChain(d, env, e, n, []);
    } else {
      var more := ClausePieces(d, exprs[1..]).value;
      ToksJoin(ps, AndWord, more, n);
      ArgsSplit(env, n, Args(ps), Args(more));
      var n', tail := n + |Args(ps)|, Toks(more, n + |Args(ps)|);
      assert forall x :: x in exprs[1..] ==> x in exprs;
      ClauseChain(d, env, exprs[1..], n');
      SameTruths(d, env, exprs);
      ExprChain(d, env, e, n, [AndTok] + (tail + []));
      ChainJoin(env, Toks(ps, n), tail, [], v, Least(PartTruths(d, env, exprs, 1)));
      ScannableJoin(ps, AndWord, more);
    }
  }

  lemma SameTruths(d: Dialect, env: Env, exprs: seq<Expr>)
    requires exprs != []
    ensures PartTruths(d, env, exprs, 1) == PartTruths(d, env, exprs[1..], 0)
  {
    assert exprs[1..][0..] == exprs[1..];
  }

  function ClauseTruths(d: Dialect, env: Env, exprs: seq<Expr>): set<Truth> {
    set e | e in exprs :: Eval(d, env, e)
  }

  // A WHERE or HAVING list means the conjunction of its members, wherever in a
  // statement it is written.
  lemma ClauseReadsBack(d: Dialect, env: Env, exprs: seq<Expr>, n: nat)
    requires d.quote == '"' || d.quote == '`'
    requires exprs != [] && (forall e :: e in exprs ==> Readable(e)) && ClausePieces(d, exprs).Ok?
    requires ArgsFrom(env, n, Args(ClausePieces(d, exprs).value)) && IsInt64(|env.args| + 1)
    ensures var r := Read(d, Written(d, ClausePieces(d, exprs).value, n), n);
            r.Done? && r.rest == [] && Cond3(env, r.value) == Least(ClauseTruths(d, env, exprs))
  {
    hide Scan, Toks, Written, ClausePieces, Args, Scannable, ChainAt, Eval, Least;
    var ps := ClausePieces(d, exprs).value;
    ClauseChain(d, env, exprs, n);
    assert exprs[0..] == exprs;
    assert PartTruths(d, env, exprs, 0) == ClauseTruths(d, env, exprs);
    ScanWritten(d, ps, n);
    ChainDisj(env, Toks(ps, n), [], Least(PartTruths(d, env, exprs, 0)));
    assert Toks(ps, n) + [] == Toks(ps, n);
  }

  // On one column NotEq says what Not(Eq) says: for a scalar, for nil, for an
  // empty list and for a list with NULLs in it.
  lemma NotEqIsNotOfEq(d: Dialect, env: Env, k: string, v: Value)
    ensures Eval(d, env, Compare(NotEq, map[k := v])) == Eval(d, env, Not(Compare(Eq, map[k := v])))
  {
    OneEntry(d, env, NotEq, k, v);
    OneEntry(d, env, Eq, k, v);
  }

  lemma OneEntry(d: Dialect, env: Env, op: Cmp, k: string, v: Value)
    ensures Eval(d, env, Compare(op, map[k := v])) == Entry3(env, WrittenOp(d, op), k, v)
  {
    hide Entry3;
    var m, w := map[k := v], WrittenOp(d, op);
    var truths := set j | j in m.Keys :: Entry3(env, w, j, m[j]);
    assert k in m.Keys && m[k] == v;
    assert Entry3(env, w, k, m[k]) in truths;
    assert truths == {Entry3(env, w, k, v)};
  }

  // The same, of the texts the two are written as.
  lemma NotEqReadsAsNotOfEq(d: Dialect, row: seq<string> -> Value, holds: (Cmp, Value, Value) -> bool, k: string,
                            v: Value)
    requires (d.quote == '"' || d.quote == '`') && PlainColumn(k)
    requires v.List? ==> IsInt64(|v.elems| + 1)
    ensures var neq, eq := Pieces(d, Compare(NotEq, map[k := v])), Pieces(d, Not(Compare(Eq, map[k := v])));
            && neq.Ok? && eq.Ok? && Args(neq.value) == Args(eq.value)
            && var env := Env(row, holds, Args(neq.value));
               var a, b := Read(d, Written(d, neq.value, 0), 0), Read(d, Written(d, eq.value, 0), 0);
               a.Done? && b.Done? && a.rest == b.rest == [] && Cond3(env, a.value) == Cond3(env, b.value)
  {
    hide Scan, Toks, Written, Cond3, Eval, PlainColumn, EntryPieces, Args, Pieces;
    var m := map[k := v];
    OneKey(d, NotEq, k, v);
    OneKey(d, Eq, k, v);
    var ps := EntryPieces(Eq, k, v).value;
    NotPieces(d, Compare(Eq, m), ps);
    WrappedArgs(NotOpen, ps, Close);
    EntryArgs(k, v);
    var env := Env(row, holds, Args(EntryPieces(NotEq, k, v).value));
    assert Readable(Compare(NotEq, m)) && Readable(Not(Compare(Eq, m)));
    assert env.args[0..|env.args|] == env.args;
    ConditionReadsBack(d, env, Compare(NotEq, m), 0);
    ConditionReadsBack(d, env, Not(Compare(Eq, m)), 0);
    NotEqIsNotOfEq(d, env, k, v);
  }

  lemma NotPieces(d: Dialect, e: Expr, ps: seq<Piece>)
    requires !e.Nil? && Pieces(d, e) == Ok(ps)
    ensures Pieces(d, Not(e)) == Ok([NotOpen] + ps + [Close])
  {
  }

  lemma OneKey(d: Dialect, op: Cmp, k: string, v: Value)
    requires op.Eq? || op.NotEq?
    ensures EntryPieces(op, k, v).Ok? && Pieces(d, Compare(op, map[k := v])) == EntryPieces(op, k, v)
  {
    hide EntryPieces;
    var m := map[k := v];
    var keys := SortedKeys(m.Keys);
    assert m.Keys == {k};
    assert keys == [k] by {
      assert |keys| == 1 && keys[0] in keys;
    }
    EntryIsWritten(op, k, v);
    assert EntriesPieces(op, m, []) == Ok([]);
    assert keys[1..] == [];
    var first := EntryPieces(op, k, v).value;
    assert first + [] + [] == first;
  }

  lemma EntryIsWritten(op: Cmp, k: string, v: Value)
    requires op.Eq? || op.NotEq?
    ensures EntryPieces(op, k, v).Ok?
  {
  }

  lemma EntryArgs(k: string, v: Value)
    ensures Args(EntryPieces(NotEq, k, v).value) == Args(EntryPieces(Eq, k, v).value)
    ensures |Args(EntryPieces(Eq, k, v).value)| == if v.List? then |v.elems| else if v.Null? then 0 else 1
  {
    if v.Null? {
      TwoPieces(Column(k), IsNull(true), 0);
      TwoPieces(Column(k), IsNull(false), 0);
    } else if v.List? {
      InPiecesArgs(k, v.elems, true);
      InPiecesArgs(k, v.elems, false);
    } else {
      ThreePieces(Column(k), Operator(Eq), Bound(v), 0);
      ThreePieces(Column(k), Operator(NotEq), Bound(v), 0);
    }
  }

  // A slice under an ordering or LIKE comparison is read as NOT IN: on every row
  // the database computes, for Lt of a slice, that the column is none of its
  // elements.
  lemma SliceReadsAsNotIn(d: Dialect, env: Env, op: Cmp, k: string, vals: seq<Value>, n: nat)
    requires (d.quote == '"' || d.quote == '`') && PlainColumn(k) && !op.Eq?
    requires ArgsFrom(env, n, vals) && IsInt64(|env.args| + 1)
    ensures var ps := Pieces(d, Compare(op, map[k := List(vals)]));
            && ps.Ok? && Args(ps.value) == vals
            && var r := Read(d, Written(d, ps.value, n), n);
               r.Done? && r.rest == [] && Cond3(env, r.value) == Not3(In3(env, env.row(Split(k)), vals))
  {
    hide Scan, Toks, Written, Cond3, PlainColumn, Args, Pieces, In3, InPieces;
    var m := map[k := List(vals)];
    OneSlice(d, op, k, vals);
    OneSlice(d, NotEq, k, vals);
    InPiecesArgs(k, vals, false);
    assert Readable(Compare(NotEq, m));
    ConditionReadsBack(d, env, Compare(NotEq, m), n);
    OneEntry(d, env, NotEq, k, List(vals));
  }

  lemma OneSlice(d: Dialect, op: Cmp, k: string, vals: seq<Value>)
    requires !op.Eq?
    ensures Pieces(d, Compare(op, map[k := List(vals)])) == Ok(InPieces(k, vals, false))
  {
    hide InPieces;
    var m := map[k := List(vals)];
    var keys := SortedKeys(m.Keys);
    assert m.Keys == {k};
    assert keys == [k] by {
      assert |keys| == 1 && keys[0] in keys;
    }
    assert EntriesPieces(WrittenOp(d, op), m, []) == Ok([]);
    assert keys[1..] == [];
    var first := InPieces(k, vals, false);
    assert first + [] + [] == first;
  }
}
