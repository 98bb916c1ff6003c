// Reading a written condition back: a scanner and a parser for the operator
// precedence of section 4.1.6 of the PostgreSQL manual, and what the result means.

module ConditionReader {
  import opened Integers
  import opened Numerals
  import opened Scanner
  import opened Quoting
  import opened Dialects
  import opened Truth3
  import opened Conditions

  datatype Tok =
    | NameTok(parts: seq<string>)
    | OpTok(op: Cmp)
    | ParamTok(n: int)
    | NumTok(value: int)
    | OpenTok
    | CloseTok
    | CommaTok
    | AndTok
    | OrTok
    | NotTok
    | InTok
    | IsTok
    | NullTok
    | BetweenTok
    | BadTok

  function Keyword(w: string): Tok {
    if w == "AND" then AndTok
    else if w == "OR" then OrTok
    else if w == "NOT" then NotTok
    else if w == "IN" then InTok
    else if w == "IS" then IsTok
    else if w == "NULL" then NullTok
    else if w == "BETWEEN" then BetweenTok
    else if w == "LIKE" then OpTok(Like)
    else if w == "ILIKE" then OpTok(ILike)
    else BadTok
  }

  // ----- scanning

  // A quoted name, dotted qualifications included, and the length of its text.
  function NameAt(t: string, i: nat, q: char): (r: (seq<string>, nat))
    requires i < |t| && t[i] == q
    ensures i < r.1 <= |t|
    decreases |t| - i
  {
    var e := QuotedEnd(t, i + 1, q);
    var part := if e < i + 2 then "" else Undoubled(t[i + 1..e - 1], q);
    if e + 1 < |t| && t[e] == '.' && t[e + 1] == q then
      var (rest, end) := NameAt(t, e + 1, q);
      ([part] + rest, end)
    else ([part], e)
  }

  // The tokens of t[i..] when n parameters precede them; "?" is the next one.
  function Scan(q: char, t: string, i: nat, n: nat): seq<Tok>
    requires i <= |t|
    decreases |t| - i
  {
    if i == |t| then []
    else
      var c := t[i];
      var next := if i + 1 < |t| then t[i + 1] else ' ';
      if c == ' ' then Scan(q, t, i + 1, n)
      else if c == '(' then [OpenTok] + Scan(q, t, i + 1, n)
      else if c == ')' then [CloseTok] + Scan(q, t, i + 1, n)
      else if c == ',' then [CommaTok] + Scan(q, t, i + 1, n)
      else if c == '=' then [OpTok(Eq)] + Scan(q, t, i + 1, n)
      else if c == '<' && next == '>' then [OpTok(NotEq)] + Scan(q, t, i + 2, n)
      else if c == '<' && next == '=' then [OpTok(Lte)] + Scan(q, t, i + 2, n)
      else if c == '<' then [OpTok(Lt)] + Scan(q, t, i + 1, n)
      else if c == '>' && next == '=' then [OpTok(Gte)] + Scan(q, t, i + 2, n)
      else if c == '>' then [OpTok(Gt)] + Scan(q, t, i + 1, n)
      else if c == '?' then [ParamTok(n + 1)] + Scan(q, t, i + 1, n + 1)
      else if c == '$' then
        var e := DigitEnd(t, i + 1);
        [ParamTok(DigitsValue(t, i + 1, e))] + Scan(q, t, e, n + 1)
      else if IsDigit(c) then
        var e := DigitEnd(t, i + 1);
        [NumTok(DigitsValue(t, i, e))] + Scan(q, t, e, n)
      else if c == q then
        var (parts, e) := NameAt(t, i, q);
        [NameTok(parts)] + Scan(q, t, e, n)
      else if IsIdentStart(c) then
        var e := IdentEnd(t, i + 1);
        [Keyword(t[i..e])] + Scan(q, t, e, n)
      else [BadTok] + Scan(q, t, i + 1, n)
  }

  function PieceToks(p: Piece, n: nat): seq<Tok> {
    match p
    case Column(name) => [NameTok(Split(name))]
    case Operator(op) => [OpTok(op)]
    case Bound(_) => [ParamTok(n + 1)]
    case AndWord => [AndTok]
    case OrWord => [OrTok]
    case NotOpen => [NotTok, OpenTok]
    case Open => [OpenTok]
    case Close => [CloseTok]
    case Comma => [CommaTok]
    case InOpen(positive) => if positive then [InTok, OpenTok] else [NotTok, InTok, OpenTok]
    case IsNull(not) => if not then [IsTok, NotTok, NullTok] else [IsTok, NullTok]
    case BetweenWord(negative) => if negative then [NotTok, BetweenTok] else [BetweenTok]
    case Constant(truth) => [NumTok(1), OpTok(Eq), NumTok(if truth then 1 else 0)]
    case Verbatim(_) => [BadTok]
  }

  function Toks(ps: seq<Piece>, n: nat): seq<Tok> {
    if ps == [] then [] else PieceToks(ps[0], n) + Toks(ps[1..], n + |PieceArgs(ps[0])|)
  }

  // Pieces whose text a following letter, digit, quote or dot would continue.
  predicate OpenEnded(p: Piece) {
    p.Column? || p.Bound? || p.IsNull? || p.Constant?
  }

  // Bytes that end any of them.
  predicate Separator(c: char) {
    c == ' ' || c == ')' || c == ','
  }

  predicate SeparatorPiece(p: Piece) {
    !p.Column? && !p.Bound? && !p.NotOpen? && !p.Open? && !p.Constant? && !p.Verbatim?
  }

  // Every open-ended piece is followed by a separator, or ends the list.
  predicate Spaced(ps: seq<Piece>) {
    forall i :: 0 <= i < |ps| - 1 && OpenEnded(ps[i]) ==> SeparatorPiece(ps[i + 1])
  }

  predicate ReadablePiece(p: Piece) {
    !p.Verbatim? && (p.Column? ==> PlainColumn(p.name))
  }

  predicate Occurs(t: string, i: nat, text: string) {
    i + |text| <= |t| && t[i..i + |text|] == text
  }

  lemma OccursSplit(t: string, i: nat, a: string, b: string)
    requires Occurs(t, i, a + b)
    ensures Occurs(t, i, a) && Occurs(t, i + |a|, b)
  {
    assert t[i..i + |a|] == (a + b)[..|a|];
    assert t[i + |a|..i + |a| + |b|] == (a + b)[|a|..];
  }

  lemma OccursByte(t: string, i: nat, text: string, k: nat)
    requires Occurs(t, i, text) && k < |text|
    ensures t[i + k] == text[k]
  {
    assert t[i + k] == t[i..i + |text|][k];
  }

  lemma OccursLength(t: string, i: nat, text: string)
    requires Occurs(t, i, text)
    ensures i + |text| <= |t|
  {
  }

  lemma ScanSpace(q: char, t: string, i: nat, n: nat)
    requires Occurs(t, i, " ")
    ensures Scan(q, t, i, n) == Scan(q, t, i + 1, n)
  {
    OccursByte(t, i, " ", 0);
  }

  lemma {:induction false} IdentEndIs(t: string, i: nat, j: nat)
    requires i <= j <= |t|
    requires forall k :: i <= k < j ==> IsIdentByte(t[k])
    requires j < |t| ==> !IsIdentByte(t[j])
    ensures IdentEnd(t, i) == j
    decreases j - i
  {
    if i < j {
      IdentEndIs(t, i + 1, j);
    }
  }

  lemma KeywordBytes(w: string)
    requires Keyword(w) != BadTok
    ensures w != "" && IsIdentStart(w[0]) && forall k :: 0 <= k < |w| ==> IsIdentByte(w[k])
  {
  }

  lemma ScanWord(q: char, t: string, i: nat, w: string, n: nat)
    requires q == '"' || q == '`'
    requires Keyword(w) != BadTok
    requires Occurs(t, i, w)
    requires i + |w| == |t| || !IsIdentByte(t[i + |w|])
    ensures Scan(q, t, i, n) == [Keyword(w)] + Scan(q, t, i + |w|, n)
  {
    hide Keyword, Scan;
    KeywordBytes(w);
    forall k | i <= k < i + |w|
      ensures IsIdentByte(t[k])
    {
      OccursByte(t, i, w, k - i);
    }
    OccursByte(t, i, w, 0);
    IdentEndIs(t, i + 1, i + |w|);
    WordScans(q, t, i, i + |w|, n);
  }

  lemma WordScans(q: char, t: string, i: nat, e: nat, n: nat)
    requires q == '"' || q == '`'
    requires i < e <= |t| && IsIdentStart(t[i]) && IdentEnd(t, i + 1) == e
    ensures Scan(q, t, i, n) == [Keyword(t[i..e])] + Scan(q, t, e, n)
  {
    hide Keyword, NameAt, DigitEnd, DigitsValue, IdentEnd;
  }

  // A word of the language between spaces, the second one part of what follows.
  lemma ScanSpacedWord(q: char, t: string, i: nat, w: string, n: nat)
    requires q == '"' || q == '`'
    requires Keyword(w) != BadTok
    requires Occurs(t, i, " " + w)
    requires i + 1 + |w| == |t| || !IsIdentByte(t[i + 1 + |w|])
    ensures Scan(q, t, i, n) == [Keyword(w)] + Scan(q, t, i + 1 + |w|, n)
  {
    hide Keyword, Scan;
    OccursSplit(t, i, " ", w);
    ScanSpace(q, t, i, n);
    ScanWord(q, t, i + 1, w, n);
  }

  lemma ScanAnd(q: char, t: string, i: nat, n: nat)
    requires (q == '"' || q == '`') && Occurs(t, i, " AND ")
    ensures Scan(q, t, i, n) == [AndTok] + Scan(q, t, i + 5, n)
  {
    hide Scan, Occurs;
    assert " AND " == " AND" + " " && " AND" == " " + "AND";
    OccursSplit(t, i, " AND", " ");
    OccursByte(t, i + 4, " ", 0);
    ScanSpacedWord(q, t, i, "AND", n);
    ScanSpace(q, t, i + 4, n);
  }

  lemma ScanOr(q: char, t: string, i: nat, n: nat)
    requires (q == '"' || q == '`') && Occurs(t, i, " OR ")
    ensures Scan(q, t, i, n) == [OrTok] + Scan(q, t, i + 4, n)
  {
    hide Scan, Occurs;
    assert " OR " == " OR" + " " && " OR" == " " + "OR";
    OccursSplit(t, i, " OR", " ");
    OccursByte(t, i + 3, " ", 0);
    ScanSpacedWord(q, t, i, "OR", n);
    ScanSpace(q, t, i + 3, n);
  }

  lemma ScanNotOpen(q: char, t: string, i: nat, n: nat)
    requires (q == '"' || q == '`') && Occurs(t, i, "NOT (")
    ensures Scan(q, t, i, n) == [NotTok, OpenTok] + Scan(q, t, i + 5, n)
  {
    hide Scan, Occurs;
    assert "NOT (" == "NOT" + " (" && " (" == " " + "(";
    var word, rest := "NOT", " (";
    OccursSplit(t, i, word, rest);
    OccursSplit(t, i + 3, " ", "(");
    OccursByte(t, i + 3, " ", 0);
    ScanWord(q, t, i, word, n);
    ScanSpace(q, t, i + 3, n);
    ScanOpen(q, t, i + 4, n);
    assert [NotTok] + ([OpenTok] + Scan(q, t, i + 5, n)) == [NotTok, OpenTok] + Scan(q, t, i + 5, n);
  }

  // The " NOT" of a negated test.
  lemma ScanNegation(q: char, t: string, i: nat, rest: string, n: nat)
    requires (q == '"' || q == '`') && Occurs(t, i, " NOT" + rest) && rest != "" && rest[0] == ' '
    ensures Scan(q, t, i, n) == [NotTok] + Scan(q, t, i + 4, n) && Occurs(t, i + 4, rest)
  {
    hide Scan, Occurs;
    assert " NOT" == " " + "NOT";
    OccursSplit(t, i, " NOT", rest);
    OccursByte(t, i + 4, rest, 0);
    ScanSpacedWord(q, t, i, "NOT", n);
  }

  lemma ScanOpen(q: char, t: string, i: nat, n: nat)
    requires Occurs(t, i, "(")
    ensures Scan(q, t, i, n) == [OpenTok] + Scan(q, t, i + 1, n)
  {
    OccursByte(t, i, "(", 0);
  }

  lemma ScanClose(q: char, t: string, i: nat, n: nat)
    requires Occurs(t, i, ")")
    ensures Scan(q, t, i, n) == [CloseTok] + Scan(q, t, i + 1, n)
  {
    OccursByte(t, i, ")", 0);
  }

  lemma ScanComma(q: char, t: string, i: nat, n: nat)
    requires Occurs(t, i, ",")
    ensures Scan(q, t, i, n) == [CommaTok] + Scan(q, t, i + 1, n)
  {
    OccursByte(t, i, ",", 0);
  }

  lemma ScanIn(q: char, t: string, i: nat, n: nat)
    requires (q == '"' || q == '`') && Occurs(t, i, " IN (")
    ensures Scan(q, t, i, n) == [InTok, OpenTok] + Scan(q, t, i + 5, n)
  {
    hide Scan, Occurs;
    assert " IN (" == " IN" + " (" && " IN" == " " + "IN" && " (" == " " + "(";
    OccursSplit(t, i, " IN", " (");
    OccursSplit(t, i + 3, " ", "(");
    OccursByte(t, i + 3, " ", 0);
    ScanSpacedWord(q, t, i, "IN", n);
    ScanSpace(q, t, i + 3, n);
    ScanOpen(q, t, i + 4, n);
  }

  lemma ScanInOpen(q: char, t: string, i: nat, n: nat, positive: bool)
    requires (q == '"' || q == '`') && Occurs(t, i, if positive then " IN (" else " NOT IN (")
    ensures Scan(q, t, i, n) ==
            (if positive then [InTok, OpenTok] else [NotTok, InTok, OpenTok])
                + Scan(q, t, i + (if positive then 5 else 9), n)
  {
    hide Scan, Occurs;
    if positive {
      ScanIn(q, t, i, n);
    } else {
      assert " NOT IN (" == " NOT" + " IN (";
      ScanNegation(q, t, i, " IN (", n);
      ScanIn(q, t, i + 4, n);
    }
  }

  lemma ScanIsNull(q: char, t: string, i: nat, n: nat, not: bool)
    requires (q == '"' || q == '`') && Occurs(t, i, if not then " IS NOT NULL" else " IS NULL")
    requires var e := i + (if not then 12 else 8); e == |t| || !IsIdentByte(t[e])
    ensures Scan(q, t, i, n) ==
            (if not then [IsTok, NotTok, NullTok] else [IsTok, NullTok]) + Scan(q, t, i + (if not then 12 else 8), n)
  {
    hide Scan, Occurs;
    if not {
      ScanIsNotNull(q, t, i, n);
    } else {
      assert " IS NULL" == " IS" + " NULL";
      ScanIs(q, t, i, " NULL", n);
      ScanNull(q, t, i + 3, n);
    }
  }

  lemma ScanIsNotNull(q: char, t: string, i: nat, n: nat)
    requires (q == '"' || q == '`') && Occurs(t, i, " IS NOT NULL")
    requires var e := i + 12; e == |t| || !IsIdentByte(t[e])
    ensures Scan(q, t, i, n) == [IsTok, NotTok, NullTok] + Scan(q, t, i + 12, n)
  {
    hide Scan, Occurs;
    assert " IS NOT NULL" == " IS" + " NOT NULL";
    ScanIs(q, t, i, " NOT NULL", n);
    assert " NOT NULL" == " NOT" + " NULL";
    ScanNegation(q, t, i + 3, " NULL", n);
    ScanNull(q, t, i + 7, n);
  }

  lemma ScanIs(q: char, t: string, i: nat, rest: string, n: nat)
    requires (q == '"' || q == '`') && Occurs(t, i, " IS" + rest) && rest != "" && rest[0] == ' '
    ensures Scan(q, t, i, n) == [IsTok] + Scan(q, t, i + 3, n) && Occurs(t, i + 3, rest)
  {
    hide Scan, Occurs;
    assert " IS" == " " + "IS";
    OccursSplit(t, i, " IS", rest);
    OccursByte(t, i + 3, rest, 0);
    ScanSpacedWord(q, t, i, "IS", n);
  }

  lemma ScanNull(q: char, t: string, i: nat, n: nat)
    requires (q == '"' || q == '`') && Occurs(t, i, " NULL") && (i + 5 == |t| || !IsIdentByte(t[i + 5]))
    ensures Scan(q, t, i, n) == [NullTok] + Scan(q, t, i + 5, n)
  {
    hide Scan, Occurs;
    assert " NULL" == " " + "NULL";
    ScanSpacedWord(q, t, i, "NULL", n);
  }

  lemma ScanBetweenWord(q: char, t: string, i: nat, n: nat)
    requires (q == '"' || q == '`') && Occurs(t, i, " BETWEEN ")
    ensures Scan(q, t, i, n) == [BetweenTok] + Scan(q, t, i + 9, n)
  {
    hide Scan, Occurs;
    assert " BETWEEN " == " BETWEEN" + " " && " BETWEEN" == " " + "BETWEEN";
    OccursSplit(t, i, " BETWEEN", " ");
    OccursByte(t, i + 8, " ", 0);
    ScanSpacedWord(q, t, i, "BETWEEN", n);
    ScanSpace(q, t, i + 8, n);
  }

  lemma ScanBetween(q: char, t: string, i: nat, n: nat, negative: bool)
    requires (q == '"' || q == '`') && Occurs(t, i, if negative then " NOT BETWEEN " else " BETWEEN ")
    ensures Scan(q, t, i, n) ==
            (if negative then [NotTok, BetweenTok] else [BetweenTok]) + Scan(q, t, i + (if negative then 13 else 9), n)
  {
    hide Scan, Occurs;
    if negative {
      assert " NOT BETWEEN " == " NOT" + " BETWEEN ";
      ScanNegation(q, t, i, " BETWEEN ", n);
      ScanBetweenWord(q, t, i + 4, n);
    } else {
      ScanBetweenWord(q, t, i, n);
    }
  }

  function Symbol(op: Cmp): string {
    match op
    case Eq => "="
    case NotEq => "<>"
    case Lt => "<"
    case Lte => "<="
    case Gt => ">"
    case Gte => ">="
    case _ => ""
  }

  lemma OperatorSymbol(op: Cmp)
    requires !op.Like? && !op.ILike?
    ensures OperatorText(op) == " " + (Symbol(op) + " ")
  {
  }

  // A comparison symbol and the space after it.
  lemma SymbolBytes(op: Cmp)
    requires !op.Like? && !op.ILike?
    ensures 1 <= |Symbol(op)| <= 2
  {
  }

  // What the first two bytes of an operator make the scanner do.
  lemma SymbolScans(q: char, t: string, i: nat, n: nat, op: Cmp)
    requires !op.Like? && !op.ILike? && 1 <= |Symbol(op)| <= 2 && i + |Symbol(op)| < |t|
    requires t[i] == Symbol(op)[0] && t[i + 1] == if |Symbol(op)| > 1 then Symbol(op)[1] else ' '
    ensures Scan(q, t, i, n) == [OpTok(op)] + Scan(q, t, i + |Symbol(op)|, n)
  {
    hide NameAt, DigitEnd, DigitsValue, IdentEnd, Keyword;
  }

  lemma ScanSymbol(q: char, t: string, i: nat, n: nat, op: Cmp)
    requires !op.Like? && !op.ILike?
    requires Occurs(t, i, Symbol(op) + " ")
    ensures Scan(q, t, i, n) == [OpTok(op)] + Scan(q, t, i + |Symbol(op)|, n)
  {
    hide Occurs;
    var sym := Symbol(op);
    SymbolBytes(op);
    OccursByte(t, i, sym + " ", 0);
    OccursByte(t, i, sym + " ", 1);
    OccursLength(t, i, sym + " ");
    assert t[i] == sym[0] && t[i + 1] == if |sym| > 1 then sym[1] else ' ';
    hide Symbol;
    SymbolScans(q, t, i, n, op);
  }

  lemma ScanOperator(q: char, t: string, i: nat, n: nat, op: Cmp)
    requires (q == '"' || q == '`') && Occurs(t, i, OperatorText(op))
    ensures Scan(q, t, i, n) == [OpTok(op)] + Scan(q, t, i + |OperatorText(op)|, n)
  {
    hide Scan, Occurs;
    if op.Like? {
      ScanWordOperator(q, t, i, n, "LIKE", op);
    } else if op.ILike? {
      ScanWordOperator(q, t, i, n, "ILIKE", op);
    } else {
      ScanSymbolOperator(q, t, i, n, op);
    }
  }

  lemma OperatorWord(op: Cmp, w: string)
    requires (op.Like? && w == "LIKE") || (op.ILike? && w == "ILIKE")
    ensures Keyword(w) == OpTok(op) && OperatorText(op) == (" " + w) + " "
  {
  }

  lemma ScanWordOperator(q: char, t: string, i: nat, n: nat, w: string, op: Cmp)
    requires q == '"' || q == '`'
    requires w == if op.Like? then "LIKE" else "ILIKE"
    requires (op.Like? || op.ILike?) && Occurs(t, i, OperatorText(op))
    ensures Scan(q, t, i, n) == [OpTok(op)] + Scan(q, t, i + |OperatorText(op)|, n)
  {
    hide Scan, Occurs, Keyword, OperatorText;
    OperatorWord(op, w);
    OccursSplit(t, i, " " + w, " ");
    OccursByte(t, i + 1 + |w|, " ", 0);
    ScanSpacedWord(q, t, i, w, n);
    ScanSpace(q, t, i + 1 + |w|, n);
  }

  lemma ScanSymbolOperator(q: char, t: string, i: nat, n: nat, op: Cmp)
    requires !op.Like? && !op.ILike? && Occurs(t, i, OperatorText(op))
    ensures Scan(q, t, i, n) == [OpTok(op)] + Scan(q, t, i + |OperatorText(op)|, n)
  {
    hide Scan, Occurs, OperatorText, Symbol;
    var sym := Symbol(op);
    OperatorSymbol(op);
    OccursSplit(t, i, " ", sym + " ");
    ScanSpace(q, t, i, n);
    ScanSymbol(q, t, i + 1, n, op);
    OccursSplit(t, i + 1, sym, " ");
    ScanSpace(q, t, i + 1 + |sym|, n);
  }

  lemma ScanConstant(q: char, t: string, i: nat, n: nat, truth: bool)
    requires (q == '"' || q == '`') && Occurs(t, i, if truth then "1 = 1" else "1 = 0")
    requires i + 5 == |t| || !IsDigit(t[i + 5])
    ensures Scan(q, t, i, n) == [NumTok(1), OpTok(Eq), NumTok(if truth then 1 else 0)] + Scan(q, t, i + 5, n)
  {
    hide Scan, Occurs;
    if truth {
      assert "1 = 1" == "1" + (" = " + "1");
      ScanComparison(q, t, i, n, "1");
    } else {
      assert "1 = 0" == "1" + (" = " + "0");
      ScanComparison(q, t, i, n, "0");
    }
  }

  lemma ScanComparison(q: char, t: string, i: nat, n: nat, last: string)
    requires (q == '"' || q == '`') && |last| == 1 && IsDigit(last[0])
    requires Occurs(t, i, "1" + (" = " + last))
    requires i + 5 == |t| || !IsDigit(t[i + 5])
    ensures Scan(q, t, i, n) == [NumTok(1), OpTok(Eq), NumTok(last[0] as int - '0' as int)] + Scan(q, t, i + 5, n)
  {
    hide Scan, Occurs;
    OccursSplit(t, i, "1", " = " + last);
    OccursSplit(t, i + 1, " = ", last);
    OccursByte(t, i, "1", 0);
    OccursByte(t, i + 1, " = ", 0);
    OccursByte(t, i + 4, last, 0);
    OccursLength(t, i + 4, last);
    ScanDigit(q, t, i, n);
    ScanOperator(q, t, i + 1, n, Eq);
    ScanDigit(q, t, i + 4, n);
  }

  lemma ScanDigit(q: char, t: string, i: nat, n: nat)
    requires i < |t| && IsDigit(t[i]) && (i + 1 == |t| || !IsDigit(t[i + 1]))
    ensures Scan(q, t, i, n) == [NumTok(t[i] as int - '0' as int)] + Scan(q, t, i + 1, n)
  {
    assert DigitEnd(t, i + 1) == i + 1;
    assert DigitsValue(t, i, i) == 0;
    assert DigitsValue(t, i, i + 1) == t[i] as int - '0' as int;
  }

  lemma ScanQuestion(q: char, t: string, i: nat, n: nat)
    requires Occurs(t, i, "?")
    ensures Scan(q, t, i, n) == [ParamTok(n + 1)] + Scan(q, t, i + 1, n + 1)
  {
    OccursByte(t, i, "?", 0);
  }

  lemma ScanPlaceholder(d: Dialect, t: string, i: nat, n: nat)
    requires IsInt64(n + 1)
    requires Occurs(t, i, Placeholder(d, n + 1))
    requires var e := i + |Placeholder(d, n + 1)|; e == |t| || !IsDigit(t[e])
    ensures Scan(d.quote, t, i, n) == [ParamTok(n + 1)] + Scan(d.quote, t, i + |Placeholder(d, n + 1)|, n + 1)
  {
    hide Scan, Occurs, Decimal;
    if d.numbered {
      ScanNumbered(d.quote, t, i, n);
    } else {
      ScanQuestion(d.quote, t, i, n);
    }
  }

  lemma ScanNumbered(q: char, t: string, i: nat, n: nat)
    requires IsInt64(n + 1)
    requires Occurs(t, i, "$" + Decimal(n + 1))
    requires var e := i + 1 + |Decimal(n + 1)|; e == |t| || !IsDigit(t[e])
    ensures Scan(q, t, i, n) == [ParamTok(n + 1)] + Scan(q, t, i + 1 + |Decimal(n + 1)|, n + 1)
  {
    hide Decimal, Scan, DigitEnd, DigitsValue;
    var digits := Decimal(n + 1);
    OccursSplit(t, i, "$", digits);
    OccursByte(t, i, "$", 0);
    OccursLength(t, i + 1, digits);
    var e := i + 1 + |digits|;
    forall k | i + 1 <= k < e
      ensures IsDigit(t[k])
    {
      OccursByte(t, i + 1, digits, k - (i + 1));
    }
    DigitEndReadsDecimal(t, i + 1, e);
    DigitsValueReadsDecimal(t, i + 1, n + 1);
    ScanDollar(q, t, i, n, e);
  }

  lemma ScanDollar(q: char, t: string, i: nat, n: nat, e: nat)
    requires i < e <= |t| && t[i] == '$' && DigitEnd(t, i + 1) == e
    ensures Scan(q, t, i, n) == [ParamTok(DigitsValue(t, i + 1, e))] + Scan(q, t, e, n + 1)
  {
    hide DigitEnd, DigitsValue;
  }

  lemma {:induction false} PlainUndoubled(part: string, q: char)
    requires q == '"' || q == '`'
    requires forall i :: 0 <= i < |part| ==> PlainByte(part[i], false)
    ensures Doubled(part, q) == part
  {
    if part != "" {
      assert PlainByte(part[0], false);
      PlainUndoubled(part[1..], q);
    }
  }

  // Reading back a written column name gives its dotted parts.
  lemma {:induction false} NameReadsBack(t: string, i: nat, parts: seq<string>, q: char)
    requires q == '"' || q == '`'
    requires parts != [] && forall part :: part in parts ==> PlainPart(part)
    requires Occurs(t, i, QuotedParts(parts, q))
    requires var e := i + |QuotedParts(parts, q)|; e == |t| || Separator(t[e])
    ensures i < |t| && t[i] == q
    ensures NameAt(t, i, q) == (parts, i + |QuotedParts(parts, q)|)
    decreases |parts|
  {
    hide QuotedEnd, Doubled, Undoubled, PlainPart, NameAt, Occurs, QuotedParts, Quoted;
    var part := parts[0];
    PartIsNotStar(part);
    QuotedPartsStep(parts, q);
    var own, tail := Quoted(part, q), QuotedParts(parts[1..], q);
    var e := i + |own|;
    if |parts| > 1 {
      OccursSplit(t, i, own, "." + tail);
      OccursSplit(t, e, ".", tail);
      OccursByte(t, e, ".", 0);
      assert forall p :: p in parts[1..] ==> p in parts;
      NameReadsBack(t, e + 1, parts[1..], q);
      PartReadsBack(t, i, part, q);
      NameStep(t, i, part, q, e, parts[1..], e + 1 + |tail|);
      assert parts == [part] + parts[1..];
    } else {
      assert parts == [part];
      assert own + "" == own;
      PartReadsBack(t, i, part, q);
      NameLast(t, i, part, q, e);
    }
  }

  lemma QuotedPartsStep(parts: seq<string>, q: char)
    requires parts != [] && parts[0] != "*"
    ensures QuotedParts(parts, q) ==
            Quoted(parts[0], q) + (if |parts| > 1 then "." + QuotedParts(parts[1..], q) else "")
  {
    hide Quoted;
    if |parts| == 1 {
      assert parts[1..] == [];
    }
  }

  lemma NameStep(t: string, i: nat, part: string, q: char, e: nat, rest: seq<string>, end: nat)
    requires i + 2 <= e && e + 1 < |t| && t[i] == q && QuotedEnd(t, i + 1, q) == e
    requires Undoubled(t[i + 1..e - 1], q) == part
    requires t[e] == '.' && t[e + 1] == q && NameAt(t, e + 1, q) == (rest, end)
    ensures NameAt(t, i, q) == ([part] + rest, end)
  {
    hide QuotedEnd, Undoubled;
  }

  lemma NameLast(t: string, i: nat, part: string, q: char, e: nat)
    requires i + 2 <= e <= |t| && t[i] == q && QuotedEnd(t, i + 1, q) == e
    requires Undoubled(t[i + 1..e - 1], q) == part
    requires e == |t| || t[e] != '.'
    ensures NameAt(t, i, q) == ([part], e)
  {
    hide QuotedEnd, Undoubled;
  }

  lemma PartIsNotStar(part: string)
    requires PlainPart(part)
    ensures part != "*"
  {
    assert PlainByte(part[0], true);
  }

  lemma PartReadsBack(t: string, i: nat, part: string, q: char)
    requires q == '"' || q == '`'
    requires Occurs(t, i, Quoted(part, q))
    requires var e := i + |Quoted(part, q)|; e == |t| || t[e] != q
    ensures var e := i + |Quoted(part, q)|;
            t[i] == q && QuotedEnd(t, i + 1, q) == e >= i + 2 && Undoubled(t[i + 1..e - 1], q) == part
  {
    var own := Quoted(part, q);
    var e := i + |own|;
    OccursByte(t, i, own, 0);
    assert t == t[..i] + own + t[e..];
    assert t == (t[..i] + [q]) + Doubled(part, q) + [q] + t[e..];
    ScanStopsAtClosingQuote(t[..i] + [q], part, q, t[e..]);
    assert t[i + 1..e - 1] == own[1..|own| - 1] == Doubled(part, q) by {
      assert t[i + 1..e - 1] == t[i..e][1..|own| - 1];
    }
    UndoublingInverts(part, q);
  }

  // One piece, in its place in a text, is read as its tokens.
  lemma ScanPiece(d: Dialect, t: string, i: nat, p: Piece, n: nat)
    requires d.quote == '"' || d.quote == '`'
    requires ReadablePiece(p) && IsInt64(n + 1)
    requires Occurs(t, i, PieceText(d, p, n))
    requires OpenEnded(p) ==> var e := i + |PieceText(d, p, n)|; e == |t| || Separator(t[e])
    ensures Scan(d.quote, t, i, n) ==
            PieceToks(p, n) + Scan(d.quote, t, i + |PieceText(d, p, n)|, n + |PieceArgs(p)|)
  {
    hide Scan, OperatorText, Ident, Placeholder, PlainColumn;
    var q := d.quote;
    match p {
      case Column(name) => ScanColumn(d, t, i, name, n);
      case Operator(op) => ScanOperator(q, t, i, n, op);
      case Bound(_) => ScanPlaceholder(d, t, i, n);
      case AndWord => ScanAnd(q, t, i, n);
      case OrWord => ScanOr(q, t, i, n);
      case NotOpen => ScanNotOpen(q, t, i, n);
      case Open => ScanOpen(q, t, i, n);
      case Close => ScanClose(q, t, i, n);
      case Comma => ScanComma(q, t, i, n);
      case InOpen(positive) => ScanInOpen(q, t, i, n, positive);
      case IsNull(not) => ScanIsNull(q, t, i, n, not);
      case BetweenWord(negative) => ScanBetween(q, t, i, n, negative);
      case Constant(truth) => ScanConstant(q, t, i, n, truth);
    }
  }

  lemma ScanColumn(d: Dialect, t: string, i: nat, name: string, n: nat)
    requires d.quote == '"' || d.quote == '`'
    requires PlainColumn(name) && Occurs(t, i, Ident(d, name))
    requires var e := i + |Ident(d, name)|; e == |t| || Separator(t[e])
    ensures Scan(d.quote, t, i, n) == [NameTok(Split(name))] + Scan(d.quote, t, i + |Ident(d, name)|, n)
  {
    hide Scan, NameAt, QuotedParts, Occurs;
    PlainIsQuotable(name);
    NameReadsBack(t, i, Split(name), d.quote);
    ScanName(d.quote, t, i, n);
  }

  lemma PlainIsQuotable(name: string)
    requires PlainColumn(name)
    ensures Quotable(name)
  {
  }

  lemma ScanName(q: char, t: string, i: nat, n: nat)
    requires (q == '"' || q == '`') && i < |t| && t[i] == q
    ensures Scan(q, t, i, n) == [NameTok(NameAt(t, i, q).0)] + Scan(q, t, NameAt(t, i, q).1, n)
  {
    hide NameAt;
  }

  lemma SeparatorStart(d: Dialect, p: Piece, n: nat)
    requires SeparatorPiece(p)
    ensures PieceText(d, p, n) != "" && Separator(PieceText(d, p, n)[0])
  {
  }

  // The whole written text is read as the tokens of its pieces.
  lemma {:induction false} ScanPieces(d: Dialect, t: string, i: nat, ps: seq<Piece>, n: nat)
    requires d.quote == '"' || d.quote == '`'
    requires Spaced(ps) && forall p :: p in ps ==> ReadablePiece(p)
    requires i <= |t| && t[i..] == Written(d, ps, n)
    requires IsInt64(n + |Args(ps)| + 1)
    ensures Scan(d.quote, t, i, n) == Toks(ps, n)
    decreases |ps|
  {
    hide PieceText, PieceArgs, PieceToks, ReadablePiece, OpenEnded, SeparatorPiece, Scan, Spaced, Occurs;
    if ps == [] {
      assert |t[i..]| == 0;
      ScanEnd(d.quote, t, n);
    } else {
      var p, text, k := ps[0], PieceText(d, ps[0], n), n + |PieceArgs(ps[0])|;
      var rest := Written(d, ps[1..], k);
      assert t[i..] == text + rest;
      OccursHere(t, i, text, rest);
      PieceEnds(d, t, ps, i + |text|, k);
      assert p in ps && forall p' :: p' in ps[1..] ==> p' in ps;
      ScanPiece(d, t, i, p, n);
      SpacedTail(ps);
      ScanPieces(d, t, i + |text|, ps[1..], k);
    }
  }

  lemma ScanEnd(q: char, t: string, n: nat)
    ensures Scan(q, t, |t|, n) == []
  {
  }

  lemma OccursHere(t: string, i: nat, text: string, rest: string)
    requires i <= |t| && t[i..] == text + rest
    ensures Occurs(t, i, text) && t[i + |text|..] == rest
  {
    assert |t| - i == |text| + |rest|;
    assert t[i + |text|..] == t[i..][|text|..];
    assert t[i..i + |text|] == t[i..][..|text|];
  }

  // What follows the first piece ends it.
  lemma PieceEnds(d: Dialect, t: string, ps: seq<Piece>, e: nat, k: nat)
    requires ps != [] && Spaced(ps) && e <= |t| && t[e..] == Written(d, ps[1..], k)
    ensures OpenEnded(ps[0]) ==> e == |t| || Separator(t[e])
  {
    hide PieceText, PieceArgs, OpenEnded, SeparatorPiece, Separator;
    if |ps| == 1 {
      assert |t[e..]| == 0;
    } else if OpenEnded(ps[0]) {
      assert SeparatorPiece(ps[1]);
      SeparatorStart(d, ps[1], k);
      assert ps[1..][0] == ps[1];
      assert t[e] == t[e..][0];
    }
  }

  lemma SpacedTail(ps: seq<Piece>)
    requires ps != [] && Spaced(ps)
    ensures Spaced(ps[1..])
  {
    hide OpenEnded, SeparatorPiece;
    forall i | 0 <= i < |ps[1..]| - 1 && OpenEnded(ps[1..][i])
      ensures SeparatorPiece(ps[1..][i + 1])
    {
      assert ps[1..][i] == ps[i + 1] && ps[1..][i + 1] == ps[i + 2];
    }
  }
}
