// The SQL scanner: a statement is cut into literal text and parameter references.
//
// A statement is a `string` whose characters stand for the bytes of the source
// text. Nothing below depends on a character being smaller than 256, so every
// byte string is covered.

module Integers {
  const TWO_63: int := 0x8000_0000_0000_0000
  const TWO_64: int := 0x1_0000_0000_0000_0000
  const MAX_INT64: int := TWO_63 - 1

  predicate IsInt64(x: int) {
    -TWO_63 <= x < TWO_63
  }

  // The two's-complement 64-bit integer congruent to x.
  function Wrap64(x: int): (r: int)
    ensures IsInt64(r)
    ensures IsInt64(x) ==> r == x
  {
    (x + TWO_63) % TWO_64 - TWO_63
  }

  // It is the only one.
  lemma Wrap64Exactly(x: int, r: int)
    ensures r == Wrap64(x) <==> IsInt64(r) && exists k :: r == x + k * TWO_64
  {
    var q := (x + TWO_63) / TWO_64;
    assert Wrap64(x) == x + (-q) * TWO_64;
    if IsInt64(r) && exists k :: r == x + k * TWO_64 {
      var k :| r == x + k * TWO_64;
      assert (k + q) * TWO_64 == r - Wrap64(x);
    }
  }
}

module Scanner {
  import opened Integers

  datatype Kind = Text | Named | Ordinal | Numbered | EscapedQ

  // name is set for Named tokens only, num for Numbered tokens only.
  datatype Token = Token(kind: Kind, lo: nat, hi: nat, name: string, num: int)

  predicate IsDigit(c: char) {
    '0' <= c <= '9'
  }

  predicate IsIdentStart(c: char) {
    c == '_' || 'a' <= c <= 'z' || 'A' <= c <= 'Z' || 0x80 <= c as int
  }

  predicate IsIdentByte(c: char) {
    IsIdentStart(c) || IsDigit(c)
  }

  predicate IsQuote(c: char) {
    c == '\'' || c == '\"' || c == '`'
  }

  // ----- where each lexical region that starts at i ends

  function LineEnd(s: string, i: nat): (j: nat)
    requires i <= |s|
    ensures i <= j <= |s|
    decreases |s| - i
  {
    if i < |s| && s[i] != '\n' then LineEnd(s, i + 1) else i
  }

  function BlockEnd(s: string, i: nat, depth: nat): (j: nat)
    requires i <= |s|
    ensures i <= j <= |s|
    decreases |s| - i
  {
    if i == |s| || depth == 0 then i
    else if s[i] == '/' && i + 1 < |s| && s[i + 1] == '*' then BlockEnd(s, i + 2, depth + 1)
    else if s[i] == '*' && i + 1 < |s| && s[i + 1] == '/' then BlockEnd(s, i + 2, depth - 1)
    else BlockEnd(s, i + 1, depth)
  }

  // i is inside the quotes.
  function QuotedEnd(s: string, i: nat, q: char): (j: nat)
    requires i <= |s|
    ensures i <= j <= |s|
    decreases |s| - i
  {
    if i == |s| then i
    else if s[i] != q then QuotedEnd(s, i + 1, q)
    else if i + 1 < |s| && s[i + 1] == q then QuotedEnd(s, i + 2, q)
    else i + 1
  }

  // i is inside the quotes; a trailing backslash may have pushed it one past the end.
  function EscapeEnd(s: string, i: nat): (j: nat)
    ensures j <= |s| && (i <= |s| ==> i <= j)
    decreases |s| - i
  {
    if i >= |s| then |s|
    else if s[i] == '\\' then EscapeEnd(s, i + 2)
    else if s[i] != '\'' then EscapeEnd(s, i + 1)
    else if i + 1 < |s| && s[i + 1] == '\'' then EscapeEnd(s, i + 2)
    else i + 1
  }

  function IdentEnd(s: string, i: nat): (j: nat)
    requires i <= |s|
    ensures i <= j <= |s|
    decreases |s| - i
  {
    if i < |s| && IsIdentByte(s[i]) then IdentEnd(s, i + 1) else i
  }

  function DigitEnd(s: string, i: nat): (j: nat)
    requires i <= |s|
    ensures i <= j <= |s|
    decreases |s| - i
  {
    if i < |s| && IsDigit(s[i]) then DigitEnd(s, i + 1) else i
  }

  predicate MatchesAt(s: string, tag: string, k: nat) {
    k + |tag| <= |s| && s[k..k + |tag|] == tag
  }

  // Just past the first occurrence of tag at or after i, or the end of s.
  function TagEnd(s: string, tag: string, i: nat): (j: nat)
    requires i <= |s|
    ensures i <= j <= |s|
    decreases |s| - i
  {
    if MatchesAt(s, tag, i) then i + |tag|
    else if i == |s| then i
    else TagEnd(s, tag, i + 1)
  }

  // The value of the digits s[i..j], in the 64-bit arithmetic of the scanner.
  function DigitsValue(s: string, i: nat, j: nat): int
    requires i <= j <= |s|
    decreases j
  {
    if i == j then 0
    else Wrap64(DigitsValue(s, i, j - 1) * 10 + (s[j - 1] as int - '0' as int))
  }

  // ----- one lexeme

  function TextLexeme(i: nat, j: nat): Token {
    Token(Text, i, j, "", 0)
  }

  function DollarLexeme(s: string, i: nat): (t: Token)
    requires i < |s| && s[i] == '$'
    ensures t.lo == i < t.hi <= |s|
  {
    if i + 1 < |s| && IsDigit(s[i + 1]) then
      var j := DigitEnd(s, i + 1);
      Token(Numbered, i, j, "", DigitsValue(s, i + 1, j))
    else
      var j := IdentEnd(s, i + 1);
      if j < |s| && s[j] == '$' then TextLexeme(i, TagEnd(s, s[i..j + 1], j + 1))
      else TextLexeme(i, i + 1)
  }

  // The lexeme that starts at i when i is not inside a string, comment or body.
  function LexemeAt(s: string, i: nat): (t: Token)
    requires i < |s|
    ensures t.lo == i < t.hi <= |s|
  {
    var c := s[i];
    var more := i + 1 < |s|;
    if c == '-' && more && s[i + 1] == '-' then TextLexeme(i, LineEnd(s, i + 2))
    else if c == '/' && more && s[i + 1] == '*' then TextLexeme(i, BlockEnd(s, i + 2, 1))
    else if (c == 'E' || c == 'e') && more && s[i + 1] == '\'' then TextLexeme(i, EscapeEnd(s, i + 2))
    else if IsQuote(c) then TextLexeme(i, QuotedEnd(s, i + 1, c))
    else if c == '$' then DollarLexeme(s, i)
    else if c == ':' then
      if more && s[i + 1] == ':' then TextLexeme(i, i + 2)
      else if more && IsIdentStart(s[i + 1]) then
        var j := IdentEnd(s, i + 1);
        Token(Named, i, j, s[i + 1..j], 0)
      else TextLexeme(i, i + 1)
    else if c == '?' then
      if more && (s[i + 1] == '|' || s[i + 1] == '&') then TextLexeme(i, i + 2)
      else if more && s[i + 1] == '?' then Token(EscapedQ, i, i + 2, "", 0)
      else Token(Ordinal, i, i + 1, "", 0)
    else if IsIdentStart(c) then TextLexeme(i, IdentEnd(s, i + 1))
    else TextLexeme(i, i + 1)
  }

  // ----- the whole statement

  // The end of the run of text lexemes that starts at i.
  function TextEnd(s: string, i: nat): (j: nat)
    requires i <= |s|
    ensures i <= j <= |s|
    ensures j < |s| ==> !LexemeAt(s, j).kind.Text?
    ensures i < j ==> LexemeAt(s, i).kind.Text?
    decreases |s| - i
  {
    if i == |s| || !LexemeAt(s, i).kind.Text? then i else TextEnd(s, LexemeAt(s, i).hi)
  }

  lemma TextEndStep(s: string, i: nat)
    requires i < |s| && LexemeAt(s, i).kind.Text?
    ensures TextEnd(s, i) == TextEnd(s, LexemeAt(s, i).hi) >= LexemeAt(s, i).hi
  {
  }

  // The tokens of s[i..], text runs merged.
  function Tokens(s: string, i: nat): seq<Token>
    requires i <= |s|
    decreases |s| - i
  {
    if i == |s| then []
    else if LexemeAt(s, i).kind.Text? then
      var j := TextEnd(s, i);
      [TextLexeme(i, j)] + Tokens(s, j)
    else
      [LexemeAt(s, i)] + Tokens(s, LexemeAt(s, i).hi)
  }

  // How the tokens of s[i..] start.
  lemma TokensStep(s: string, i: nat)
    requires i < |s|
    ensures Tokens(s, i) == if LexemeAt(s, i).kind.Text? then [TextLexeme(i, TextEnd(s, i))] + Tokens(s, TextEnd(s, i))
                            else [LexemeAt(s, i)] + Tokens(s, LexemeAt(s, i).hi)
    ensures LexemeAt(s, i).kind.Text? ==> i < TextEnd(s, i)
  {
  }

  // ----- the scanner as the program runs it

  method SkipDoubled(sql: string, i0: nat, q: char) returns (i: nat)
    requires i0 < |sql|
    ensures i == QuotedEnd(sql, i0 + 1, q)
  {
    i := i0 + 1;
    while i < |sql|
      invariant i <= |sql|
      invariant QuotedEnd(sql, i, q) == QuotedEnd(sql, i0 + 1, q)
    {
      if sql[i] == q {
        if i + 1 < |sql| && sql[i + 1] == q {
          i := i + 2;
          continue;
        }
        return i + 1;
      }
      i := i + 1;
    }
    return |sql|;
  }

  method SkipEscapeString(sql: string, i0: nat) returns (i: nat)
    requires i0 < |sql|
    ensures i == EscapeEnd(sql, i0 + 1)
  {
    i := i0 + 1;
    while i < |sql|
      invariant EscapeEnd(sql, i) == EscapeEnd(sql, i0 + 1)
      decreases |sql| - i
    {
      if sql[i] == '\\' {
        i := i + 2;
      } else if sql[i] == '\'' {
        if i + 1 < |sql| && sql[i + 1] == '\'' {
          i := i + 2;
          continue;
        }
        return i + 1;
      } else {
        i := i + 1;
      }
    }
    return |sql|;
  }

  method SkipBlockComment(sql: string, i0: nat) returns (i: nat)
    requires i0 + 2 <= |sql|
    ensures i == BlockEnd(sql, i0 + 2, 1)
  {
    i := i0 + 2;
    var depth := 1;
    while i < |sql| && depth > 0
      invariant i <= |sql| && 0 <= depth
      invariant BlockEnd(sql, i, depth) == BlockEnd(sql, i0 + 2, 1)
      decreases |sql| - i
    {
      if sql[i] == '/' && i + 1 < |sql| && sql[i + 1] == '*' {
        depth := depth + 1;
        i := i + 2;
      } else if sql[i] == '*' && i + 1 < |sql| && sql[i + 1] == '/' {
        depth := depth - 1;
        i := i + 2;
      } else {
        i := i + 1;
      }
    }
  }

  method SkipLineComment(sql: string, i0: nat) returns (i: nat)
    requires i0 + 2 <= |sql|
    ensures i == LineEnd(sql, i0 + 2)
  {
    i := i0 + 2;
    while i < |sql| && sql[i] != '\n'
      invariant i <= |sql|
      invariant LineEnd(sql, i) == LineEnd(sql, i0 + 2)
    {
      i := i + 1;
    }
  }

  method SkipIdent(sql: string, i0: nat) returns (i: nat)
    requires i0 <= |sql|
    ensures i == IdentEnd(sql, i0)
  {
    i := i0;
    while i < |sql| && IsIdentByte(sql[i])
      invariant i <= |sql|
      invariant IdentEnd(sql, i) == IdentEnd(sql, i0)
    {
      i := i + 1;
    }
  }

  // The text token the scanner emits before a parameter, if any text is pending.
  function Flush(toks: seq<Token>, textStart: nat, end: nat): seq<Token> {
    if end > textStart then toks + [TextLexeme(textStart, end)] else toks
  }

  // The scanner's state (next, toks, textStart) after the lexeme at i: text stays
  // pending, a parameter flushes the pending text and is appended.
  ghost predicate Advanced(s: string, i: nat, toks0: seq<Token>, textStart0: nat, next: nat, toks: seq<Token>,
                           textStart: nat)
    requires i < |s|
  {
    var t := LexemeAt(s, i);
    && next == t.hi
    && (if t.kind.Text? then toks == toks0 && textStart == textStart0
        else textStart == next && toks == Flush(toks0, textStart0, i) + [t])
  }

  method LexDollar(sql: string, i: nat, toks0: seq<Token>, textStart0: nat)
    returns (next: nat, toks: seq<Token>, textStart: nat)
    requires i < |sql| && sql[i] == '$'
    ensures Advanced(sql, i, toks0, textStart0, next, toks, textStart)
  {
    var n := |sql|;
    toks, textStart := toks0, textStart0;
    if i + 1 < n && IsDigit(sql[i + 1]) {
      var j := i + 1;
      var num := 0;
      while j < n && IsDigit(sql[j])
        invariant i + 1 <= j <= n
        invariant DigitEnd(sql, j) == DigitEnd(sql, i + 1)
        invariant num == DigitsValue(sql, i + 1, j)
      {
        num := Wrap64(num * 10 + (sql[j] as int - '0' as int));
        j := j + 1;
      }
      return j, Flush(toks, textStart, i) + [Token(Numbered, i, j, "", num)], j;
    }
    var j := SkipIdent(sql, i + 1);
    if j < n && sql[j] == '$' {
      next := TagEnd(sql, sql[i..j + 1], j + 1);
      return;
    }
    next := i + 1;
  }

  // ':' and '?' start a parameter, or an operator that is not one.
  method LexPunctuation(sql: string, i: nat, toks0: seq<Token>, textStart0: nat)
    returns (next: nat, toks: seq<Token>, textStart: nat)
    requires i < |sql| && (sql[i] == ':' || sql[i] == '?')
    ensures Advanced(sql, i, toks0, textStart0, next, toks, textStart)
  {
    var n := |sql|;
    toks, textStart := toks0, textStart0;
    if sql[i] == ':' {
      if i + 1 < n && sql[i + 1] == ':' {
        next := i + 2;
      } else if i + 1 < n && IsIdentStart(sql[i + 1]) {
        next := SkipIdent(sql, i + 1);
        toks := Flush(toks, textStart, i) + [Token(Named, i, next, sql[i + 1..next], 0)];
        textStart := next;
      } else {
        next := i + 1;
      }
    } else if i + 1 < n && (sql[i + 1] == '|' || sql[i + 1] == '&') {
      next := i + 2;
    } else if i + 1 < n && sql[i + 1] == '?' {
      next := i + 2;
      toks := Flush(toks, textStart, i) + [Token(EscapedQ, i, next, "", 0)];
      textStart := next;
    } else {
      next := i + 1;
      toks := Flush(toks, textStart, i) + [Token(Ordinal, i, next, "", 0)];
      textStart := next;
    }
  }

  method Lex(sql: string) returns (toks: seq<Token>)
    ensures toks == Tokens(sql, 0)
  {
    var n := |sql|;
    toks := [];
    var textStart: nat, i: nat := 0, 0;
    while i < n
      invariant textStart <= i <= n
      invariant TextEnd(sql, textStart) == TextEnd(sql, i)
      invariant toks + Tokens(sql, textStart) == Tokens(sql, 0)
    {
      var c := sql[i];
      ghost var i0, toks0, textStart0 := i, toks, textStart;
      if c == '-' && i + 1 < n && sql[i + 1] == '-' {
        i := SkipLineComment(sql, i);
      } else if c == '/' && i + 1 < n && sql[i + 1] == '*' {
        i := SkipBlockComment(sql, i);
      } else if (c == 'E' || c == 'e') && i + 1 < n && sql[i + 1] == '\'' {
        i := SkipEscapeString(sql, i + 1);
      } else if IsQuote(c) {
        i := SkipDoubled(sql, i, c);
      } else if c == '$' {
        i, toks, textStart := LexDollar(sql, i, toks, textStart);
      } else if c == ':' || c == '?' {
        i, toks, textStart := LexPunctuation(sql, i, toks, textStart);
      } else if IsIdentStart(c) {
        i := SkipIdent(sql, i + 1);
      } else {
        i := i + 1;
      }
      assert Advanced(sql, i0, toks0, textStart0, i, toks, textStart);
      FlushStep(sql, toks0, textStart0, i0);
    }
    FinalFlush(sql, textStart);
    toks := Flush(toks, textStart, n);
  }

  lemma FlushStep(s: string, toks: seq<Token>, textStart: nat, i: nat)
    requires textStart <= i < |s|
    requires TextEnd(s, textStart) == TextEnd(s, i)
    ensures var t := LexemeAt(s, i);
            if t.kind.Text? then TextEnd(s, textStart) == TextEnd(s, t.hi)
            else Flush(toks, textStart, i) + [t] + Tokens(s, t.hi) == toks + Tokens(s, textStart)
  {
    hide LexemeAt;
    var t := LexemeAt(s, i);
    if !t.kind.Text? {
      assert Tokens(s, i) == [t] + Tokens(s, t.hi);
      if textStart < i {
        assert Tokens(s, textStart) == [TextLexeme(textStart, i)] + Tokens(s, i);
      }
    }
  }

  lemma FinalFlush(s: string, textStart: nat)
    requires textStart <= |s|
    requires TextEnd(s, textStart) == |s|
    ensures Tokens(s, textStart) == Flush([], textStart, |s|)
  {
  }

  // ----- the tokens tile the statement

  // toks cover s[i..] in order, with no gap and no overlap.
  predicate Tiles(toks: seq<Token>, i: nat, end: nat) {
    if toks == [] then i == end
    else toks[0].lo == i < toks[0].hi <= end && Tiles(toks[1..], toks[0].hi, end)
  }

  lemma {:induction false} TokensTile(s: string, i: nat)
    requires i <= |s|
    ensures Tiles(Tokens(s, i), i, |s|)
    ensures forall k :: 0 <= k < |Tokens(s, i)| - 1 && Tokens(s, i)[k].kind.Text? ==> !Tokens(s, i)[k + 1].kind.Text?
    ensures i < |s| && !LexemeAt(s, i).kind.Text? ==> !Tokens(s, i)[0].kind.Text?
    decreases |s| - i
  {
    if i < |s| {
      var t := LexemeAt(s, i);
      var j := if t.kind.Text? then TextEnd(s, i) else t.hi;
      var rest := Tokens(s, j);
      TokensTile(s, j);
      var head := if t.kind.Text? then TextLexeme(i, j) else t;
      assert Tokens(s, i) == [head] + rest;
      assert Tokens(s, i)[1..] == rest;
    }
  }
}
