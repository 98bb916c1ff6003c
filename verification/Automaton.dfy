// A reference automaton for the lexical rules of sections 4.1.2 and 4.1.5 of
// the PostgreSQL manual. It reads one byte at a time, never looks ahead and
// never goes back; what the scanner decides by looking ahead, the automaton
// decides by remembering a pending byte in its mode.

module Automaton {
  import opened Integers
  import opened Scanner

  datatype Mode =
    // code, nothing pending
    | Code
    // code, with a pending construct; lo is where it started
    | Dash
    | Slash
    | LetterE
    | Word
    | Colon(lo: nat)
    | Name(lo: nat, text: string)
    | Quest(lo: nat)
    | Dollar(lo: nat, tag: string)
    | Number(lo: nat, value: int)
    // inside a region that hides parameters
    | Line
    | Block(depth: nat, last: char)
    | Inside(q: char)
    | QuoteSeen(q: char)
    | Escape
    | Backslash
    | EscapeQuoteSeen
    | Body(tag: string, seen: string)

  predicate Hidden(m: Mode) {
    m.Line? || m.Block? || m.Inside? || m.QuoteSeen? || m.Escape? || m.Backslash? || m.EscapeQuoteSeen? || m.Body?
  }

  predicate EndsWith(s: string, suffix: string) {
    |suffix| <= |s| && s[|s| - |suffix|..] == suffix
  }

  // The automaton's own classes of bytes.
  predicate Begins(c: char) {
    (c as int >= 0x80) || ('A' <= c <= 'Z') || ('a' <= c <= 'z') || c == '_'
  }

  predicate Numeric(c: char) {
    0x30 <= c as int <= 0x39
  }

  predicate Continues(c: char) {
    Numeric(c) || Begins(c)
  }

  predicate Quotes(c: char) {
    c as int == 0x22 || c as int == 0x27 || c as int == 0x60
  }

  // Reading c at position p in code with nothing pending.
  function Start(c: char, p: nat): Mode {
    if c == '-' then Dash
    else if c == '/' then Slash
    else if c == 'E' || c == 'e' then LetterE
    else if Quotes(c) then Inside(c)
    else if c == '$' then Dollar(p, "")
    else if c == ':' then Colon(p)
    else if c == '?' then Quest(p)
    else if Begins(c) then Word
    else Code
  }

  // A byte either belongs to the pending construct or ends it, in which case the
  // byte is read again from plain code: that is what `Start` stands for below.
  function Step(m: Mode, c: char, p: nat): Mode {
    match m
    case Code => Start(c, p)
    case Dash => if c == '-' then Line else Start(c, p)
    case Slash => if c == '*' then Block(1, ' ') else Start(c, p)
    case LetterE => if c == '\'' then Escape else if Continues(c) then Word else Start(c, p)
    case Word => if Continues(c) then Word else Start(c, p)
    case Colon(lo) => if c == ':' then Code else if Begins(c) then Name(lo, [c]) else Start(c, p)
    case Name(lo, text) => if Continues(c) then Name(lo, text + [c]) else Start(c, p)
    case Quest(lo) => if c == '|' || c == '&' || c == '?' then Code else Start(c, p)
    case Dollar(lo, tag) =>
      if c == '$' then Body("$" + tag + "$", "")
      else if tag == "" && Numeric(c) then Number(lo, Wrap64(c as int - '0' as int))
      else if Continues(c) then Dollar(lo, tag + [c])
      else if (tag == "E" || tag == "e") && c == '\'' then Escape  // not a tag after all, but an E'...' string
      else Start(c, p)
    case Number(lo, value) =>
      if Numeric(c) then Number(lo, Wrap64(value * 10 + (c as int - '0' as int))) else Start(c, p)
    case Line => if c == '\n' then Code else Line
    case Block(depth, last) =>
      if last == '/' && c == '*' then Block(depth + 1, ' ')
      else if last == '*' && c == '/' then (if depth <= 1 then Code else Block(depth - 1, ' '))
      else Block(depth, c)
    case Inside(q) => if c == q then QuoteSeen(q) else Inside(q)
    case QuoteSeen(q) => if c == q then Inside(q) else Start(c, p)
    case Escape => if c == '\\' then Backslash else if c == '\'' then EscapeQuoteSeen else Escape
    case Backslash => Escape
    case EscapeQuoteSeen => if c == '\'' then Escape else Start(c, p)
    case Body(tag, seen) => if EndsWith(seen + [c], tag) then Code else Body(tag, seen + [c])
  }

  // The parameter that is complete once the byte at p turns out not to continue it.
  function Ended(m: Mode, p: nat): seq<Token> {
    match m
    case Name(lo, text) => [Token(Named, lo, p, text, 0)]
    case Quest(lo) => [Token(Ordinal, lo, p, "", 0)]
    case Number(lo, value) => [Token(Numbered, lo, p, "", value)]
    case _ => []
  }

  // What reading c at p completes.
  function Emit(m: Mode, c: char, p: nat): seq<Token> {
    match m
    case Name(_, _) => if Continues(c) then [] else Ended(m, p)
    case Quest(lo) =>
      if c == '?' then [Token(EscapedQ, lo, p + 1, "", 0)]
      else if c == '|' || c == '&' then []
      else Ended(m, p)
    case Number(_, _) => if Numeric(c) then [] else Ended(m, p)
    case _ => []
  }

  // What the automaton emits over s[p..] when it is in mode m at p.
  function Run(s: string, p: nat, m: Mode): seq<Token>
    requires p <= |s|
    decreases |s| - p
  {
    if p == |s| then Ended(m, p) else Emit(m, s[p], p) + Run(s, p + 1, Step(m, s[p], p))
  }

  // The parameter and ?? tokens among toks.
  function Params(toks: seq<Token>): seq<Token> {
    if toks == [] then []
    else (if toks[0].kind.Text? then [] else [toks[0]]) + Params(toks[1..])
  }

  lemma ParamsAppend(a: seq<Token>, b: seq<Token>)
    ensures Params(a + b) == Params(a) + Params(b)
  {
    if a == [] {
      assert a + b == b;
    } else {
      assert (a + b)[1..] == a[1..] + b;
      ParamsAppend(a[1..], b);
    }
  }

  // Reading the parameters lexeme by lexeme, without merging text.
  lemma ParamsStep(s: string, i: nat)
    requires i < |s|
    ensures Params(Tokens(s, i)) ==
            (if LexemeAt(s, i).kind.Text? then [] else [LexemeAt(s, i)]) + Params(Tokens(s, LexemeAt(s, i).hi))
    decreases |s| - i
  {
    var t := LexemeAt(s, i);
    if t.kind.Text? {
      var j := TextEnd(s, i);
      assert Tokens(s, i) == [TextLexeme(i, j)] + Tokens(s, j);
      assert Tokens(s, i)[1..] == Tokens(s, j);
      if t.hi < |s| && LexemeAt(s, t.hi).kind.Text? {
        assert j == TextEnd(s, t.hi);
        assert Tokens(s, t.hi) == [TextLexeme(t.hi, j)] + Tokens(s, j);
        assert Tokens(s, t.hi)[1..] == Tokens(s, j);
      } else {
        assert j == t.hi;
      }
    } else {
      assert Tokens(s, i)[1..] == Tokens(s, t.hi);
    }
  }

  lemma Silent(s: string, p: nat, m: Mode, next: Mode)
    requires p < |s|
    requires Step(m, s[p], p) == next
    requires Emit(m, s[p], p) == []
    ensures Run(s, p, m) == Run(s, p + 1, next)
  {
  }

  // A byte that does not continue the pending construct is read again from plain code.
  lemma Restart(s: string, p: nat, m: Mode)
    requires p <= |s|
    requires p < |s| ==> Step(m, s[p], p) == Start(s[p], p) && Emit(m, s[p], p) == Ended(m, p)
    ensures Run(s, p, m) == Ended(m, p) + Run(s, p, Code)
  {
  }

  // ----- each region of the scanner is one stay of the automaton in a mode

  lemma {:induction false} RunLine(s: string, p: nat)
    requires p <= |s|
    ensures Run(s, p, Line) == Run(s, LineEnd(s, p), Code)
    decreases |s| - p
  {
    if p < |s| && s[p] != '\n' {
      RunLine(s, p + 1);
    } else if p < |s| {
      assert Step(Line, s[p], p) == Code == Step(Code, s[p], p);
    }
  }

  lemma {:induction false} RunBlock(s: string, p: nat, depth: nat, last: char)
    requires p <= |s| && depth >= 1
    requires last == '/' ==> p == |s| || s[p] != '*'
    requires last == '*' ==> p == |s| || s[p] != '/'
    ensures Run(s, p, Block(depth, last)) == Run(s, BlockEnd(s, p, depth), Code)
    decreases |s| - p
  {
    hide Run;
    if p < |s| {
      var c, m := s[p], Block(depth, last);
      if c == '/' && p + 1 < |s| && s[p + 1] == '*' {
        Silent(s, p, m, Block(depth, '/'));
        Silent(s, p + 1, Block(depth, '/'), Block(depth + 1, ' '));
        RunBlock(s, p + 2, depth + 1, ' ');
      } else if c == '*' && p + 1 < |s| && s[p + 1] == '/' {
        Silent(s, p, m, Block(depth, '*'));
        if depth > 1 {
          Silent(s, p + 1, Block(depth, '*'), Block(depth - 1, ' '));
          RunBlock(s, p + 2, depth - 1, ' ');
        } else {
          Silent(s, p + 1, Block(depth, '*'), Code);
        }
      } else {
        Silent(s, p, m, Block(depth, c));
        RunBlock(s, p + 1, depth, c);
      }
    } else {
      Restart(s, p, Block(depth, last));
    }
  }

  lemma {:induction false} RunQuoted(s: string, p: nat, q: char)
    requires p <= |s|
    ensures Run(s, p, Inside(q)) == Run(s, QuotedEnd(s, p, q), Code)
    decreases |s| - p
  {
    hide Run;
    if p == |s| {
      Restart(s, p, Inside(q));
    } else if s[p] != q {
      Silent(s, p, Inside(q), Inside(q));
      RunQuoted(s, p + 1, q);
    } else {
      Silent(s, p, Inside(q), QuoteSeen(q));
      if p + 1 < |s| && s[p + 1] == q {
        Silent(s, p + 1, QuoteSeen(q), Inside(q));
        RunQuoted(s, p + 2, q);
      } else {
        Restart(s, p + 1, QuoteSeen(q));
      }
    }
  }

  lemma {:induction false} RunEscape(s: string, p: nat)
    requires p <= |s|
    ensures Run(s, p, Escape) == Run(s, EscapeEnd(s, p), Code)
    decreases |s| - p
  {
    hide Run;
    if p < |s| {
      if s[p] == '\\' {
        Silent(s, p, Escape, Backslash);
        if p + 1 < |s| {
          Silent(s, p + 1, Backslash, Escape);
          RunEscape(s, p + 2);
        } else {
          Restart(s, p + 1, Backslash);
        }
      } else if s[p] != '\'' {
        Silent(s, p, Escape, Escape);
        RunEscape(s, p + 1);
      } else {
        Silent(s, p, Escape, EscapeQuoteSeen);
        if p + 1 < |s| && s[p + 1] == '\'' {
          Silent(s, p + 1, EscapeQuoteSeen, Escape);
          RunEscape(s, p + 2);
        } else {
          Restart(s, p + 1, EscapeQuoteSeen);
        }
      }
    } else {
      Restart(s, p, Escape);
    }
  }

  lemma {:induction false} RunWord(s: string, p: nat)
    requires p <= |s|
    ensures Run(s, p, Word) == Run(s, IdentEnd(s, p), Code)
    decreases |s| - p
  {
    hide Run;
    if p < |s| && IsIdentByte(s[p]) {
      Silent(s, p, Word, Word);
      RunWord(s, p + 1);
    } else {
      Restart(s, p, Word);
    }
  }

  lemma {:induction false} RunName(s: string, lo: nat, p: nat)
    requires lo < p <= |s|
    ensures Run(s, p, Name(lo, s[lo + 1..p])) ==
            [Token(Named, lo, IdentEnd(s, p), s[lo + 1..IdentEnd(s, p)], 0)] + Run(s, IdentEnd(s, p), Code)
    decreases |s| - p
  {
    hide Run;
    if p < |s| && IsIdentByte(s[p]) {
      assert s[lo + 1..p] + [s[p]] == s[lo + 1..p + 1];
      Silent(s, p, Name(lo, s[lo + 1..p]), Name(lo, s[lo + 1..p + 1]));
      RunName(s, lo, p + 1);
    } else {
      Restart(s, p, Name(lo, s[lo + 1..p]));
    }
  }

  lemma {:induction false} RunNumber(s: string, lo: nat, p: nat)
    requires lo < p <= |s|
    ensures Run(s, p, Number(lo, DigitsValue(s, lo + 1, p))) ==
            [Token(Numbered, lo, DigitEnd(s, p), "", DigitsValue(s, lo + 1, DigitEnd(s, p)))]
                + Run(s, DigitEnd(s, p), Code)
    decreases |s| - p
  {
    hide Run;
    var value := DigitsValue(s, lo + 1, p);
    if p < |s| && IsDigit(s[p]) {
      assert DigitsValue(s, lo + 1, p + 1) == Wrap64(value * 10 + (s[p] as int - '0' as int));
      hide DigitsValue;
      hide Wrap64;
      Silent(s, p, Number(lo, value), Number(lo, DigitsValue(s, lo + 1, p + 1)));
      RunNumber(s, lo, p + 1);
    } else {
      hide DigitsValue;
      Restart(s, p, Number(lo, value));
    }
  }

  lemma BodyReads(s: string, tag: string, start: nat, p: nat)
    requires start <= p < |s|
    ensures Run(s, p, Body(tag, s[start..p]))
         == Run(s, p + 1, if EndsWith(s[start..p + 1], tag) then Code else Body(tag, s[start..p + 1]))
  {
    hide Run, EndsWith;
    assert s[start..p] + [s[p]] == s[start..p + 1];
    Silent(s, p, Body(tag, s[start..p]), Step(Body(tag, s[start..p]), s[p], p));
  }

  lemma TagEndStep(s: string, tag: string, k: nat)
    requires k <= |s| && tag != ""
    ensures MatchesAt(s, tag, k) ==> TagEnd(s, tag, k) == k + |tag|
    ensures !MatchesAt(s, tag, k) && k < |s| ==> TagEnd(s, tag, k) == TagEnd(s, tag, k + 1)
  {
    hide MatchesAt;
  }

  // The bytes s[start..p] of a dollar-quoted body have been read and do not close it.
  lemma {:induction false} RunBody(s: string, tag: string, start: nat, k: nat, p: nat)
    requires start <= k <= p <= |s| && tag != "" && p < k + |tag|
    requires forall j :: start <= j < k ==> !MatchesAt(s, tag, j)
    ensures Run(s, p, Body(tag, s[start..p])) == Run(s, TagEnd(s, tag, k), Code)
    decreases |s| - p
  {
    hide Run, EndsWith, MatchesAt, TagEnd;
    if p == |s| {
      TagEndNone(s, tag, k);
      Restart(s, p, Body(tag, s[start..p]));
    } else {
      BodyStep(s, tag, start, p);
      TagEndStep(s, tag, k);
      BodyReads(s, tag, start, p);
      if EndsWith(s[start..p + 1], tag) {
        assert p + 1 - |tag| == k;
      } else {
        RunBody(s, tag, start, if p + 1 < k + |tag| then k else k + 1, p + 1);
      }
    }
  }

  // The tag closes the body at p exactly when it occurs there after the opening tag.
  lemma BodyStep(s: string, tag: string, start: nat, p: nat)
    requires start <= p < |s| && tag != ""
    ensures EndsWith(s[start..p + 1], tag) <==> start + |tag| <= p + 1 && MatchesAt(s, tag, p + 1 - |tag|)
  {
    var seen := s[start..p + 1];
    if start + |tag| <= p + 1 {
      assert seen[|seen| - |tag|..] == s[p + 1 - |tag|..p + 1];
    }
  }

  lemma {:induction false} TagEndNone(s: string, tag: string, k: nat)
    requires k <= |s| < k + |tag|
    ensures TagEnd(s, tag, k) == |s|
    decreases |s| - k
  {
    if k < |s| {
      TagEndNone(s, tag, k + 1);
    }
  }

  // After a '$' and identifier bytes that do not end in another '$', the '$'
  // was ordinary text and the byte after them is read as if they were a word.
  lemma {:induction false} RunTag(s: string, lo: nat, p: nat)
    requires lo < p <= |s|
    requires p <= IdentEnd(s, lo + 1) == IdentEnd(s, p)
    requires lo + 1 < |s| ==> !IsDigit(s[lo + 1])
    ensures Run(s, p, Dollar(lo, s[lo + 1..p])) ==
            Run(s, IdentEnd(s, lo + 1), Dollar(lo, s[lo + 1..IdentEnd(s, lo + 1)]))
    decreases |s| - p
  {
    hide Run;
    if p < IdentEnd(s, lo + 1) {
      assert s[lo + 1..p] + [s[p]] == s[lo + 1..p + 1];
      assert p == lo + 1 <==> s[lo + 1..p] == "";
      Silent(s, p, Dollar(lo, s[lo + 1..p]), Dollar(lo, s[lo + 1..p + 1]));
      RunTag(s, lo, p + 1);
    }
  }

  // Reading one identifier from plain code.
  lemma RunIdent(s: string, p: nat)
    requires p < |s| && IsIdentStart(s[p])
    requires !((s[p] == 'E' || s[p] == 'e') && p + 1 < |s| && s[p + 1] == '\'')
    ensures Run(s, p, Code) == Run(s, IdentEnd(s, p + 1), Code)
  {
    hide Run;
    if s[p] == 'E' || s[p] == 'e' {
      Silent(s, p, Code, LetterE);
      if p + 1 < |s| && IsIdentByte(s[p + 1]) {
        Silent(s, p + 1, LetterE, Word);
        RunWord(s, p + 2);
      } else {
        Restart(s, p + 1, LetterE);
      }
    } else {
      Silent(s, p, Code, Word);
      RunWord(s, p + 1);
    }
  }

  lemma RunClosedTag(s: string, p: nat, e: nat)
    requires p < e < |s| && s[p] == '$' == s[e]
    ensures Run(s, e, Dollar(p, s[p + 1..e])) == Run(s, TagEnd(s, s[p..e + 1], e + 1), Code)
  {
    hide Run;
    var tag := s[p..e + 1];
    assert tag == "$" + s[p + 1..e] + "$";
    Silent(s, e, Dollar(p, s[p + 1..e]), Body(tag, ""));
    assert s[e + 1..e + 1] == "";
    RunBody(s, tag, e + 1, e + 1, e + 1);
  }

  lemma RunFailedTag(s: string, p: nat)
    requires p < |s|
    requires p + 1 < |s| ==> !IsDigit(s[p + 1])
    requires var e := IdentEnd(s, p + 1); e == |s| || s[e] != '$'
    ensures var e := IdentEnd(s, p + 1); Run(s, e, Dollar(p, s[p + 1..e])) == Run(s, p + 1, Code)
  {
    hide Run;
    var e := IdentEnd(s, p + 1);
    IdentEndBytes(s, p + 1);
    var word := s[p + 1..e];
    if e == p + 1 {
      assert word == "";
      Restart(s, e, Dollar(p, word));
    } else {
      assert word[0] == s[p + 1];
      if e < |s| && s[e] == '\'' && (word == "E" || word == "e") {
        assert e == p + 2;
        Silent(s, e, Dollar(p, word), Escape);
        Silent(s, p + 1, Code, LetterE);
        Silent(s, p + 2, LetterE, Escape);
      } else {
        Restart(s, e, Dollar(p, word));
        if e == p + 2 {
          assert word == [s[p + 1]];
        }
        RunIdent(s, p + 1);
      }
    }
  }

  lemma {:induction false} IdentEndBytes(s: string, p: nat)
    requires p <= |s|
    ensures forall j :: p <= j < IdentEnd(s, p) ==> IsIdentByte(s[j])
    ensures IdentEnd(s, p) < |s| ==> !IsIdentByte(s[IdentEnd(s, p)])
    decreases |s| - p
  {
    if p < |s| && IsIdentByte(s[p]) {
      IdentEndBytes(s, p + 1);
    }
  }

  // One lexeme read by the scanner, seen by the automaton: it emits the
  // parameter, if the lexeme is one, and is back in plain code at its end.
  predicate Follows(s: string, p: nat)
    requires p < |s|
  {
    var t := LexemeAt(s, p);
    Run(s, p, Code) == (if t.kind.Text? then [] else [t]) + Run(s, t.hi, Code)
  }

  lemma RunDash(s: string, p: nat)
    requires p < |s| && s[p] == '-'
    ensures Follows(s, p)
  {
    hide Run;
    Silent(s, p, Code, Dash);
    if p + 1 < |s| && s[p + 1] == '-' {
      Silent(s, p + 1, Dash, Line);
      RunLine(s, p + 2);
    } else {
      Restart(s, p + 1, Dash);
    }
  }

  lemma RunSlash(s: string, p: nat)
    requires p < |s| && s[p] == '/'
    ensures Follows(s, p)
  {
    hide Run;
    Silent(s, p, Code, Slash);
    if p + 1 < |s| && s[p + 1] == '*' {
      Silent(s, p + 1, Slash, Block(1, ' '));
      RunBlock(s, p + 2, 1, ' ');
    } else {
      Restart(s, p + 1, Slash);
    }
  }

  lemma RunColon(s: string, p: nat)
    requires p < |s| && s[p] == ':'
    ensures Follows(s, p)
  {
    hide Run;
    Silent(s, p, Code, Colon(p));
    if p + 1 < |s| && s[p + 1] == ':' {
      Silent(s, p + 1, Colon(p), Code);
    } else if p + 1 < |s| && IsIdentStart(s[p + 1]) {
      assert s[p + 1..p + 2] == [s[p + 1]];
      Silent(s, p + 1, Colon(p), Name(p, s[p + 1..p + 2]));
      assert IdentEnd(s, p + 1) == IdentEnd(s, p + 2);
      RunName(s, p, p + 2);
    } else {
      Restart(s, p + 1, Colon(p));
    }
  }

  lemma RunQuestion(s: string, p: nat)
    requires p < |s| && s[p] == '?'
    ensures Follows(s, p)
  {
    Silent(s, p, Code, Quest(p));
    if p + 1 < |s| && (s[p + 1] == '|' || s[p + 1] == '&') {
      Silent(s, p + 1, Quest(p), Code);
    } else if p + 1 < |s| && s[p + 1] == '?' {
      var t := LexemeAt(s, p);
      assert Run(s, p + 1, Quest(p)) == [t] + Run(s, p + 2, Code);
    } else {
      Restart(s, p + 1, Quest(p));
    }
  }

  lemma RunNumberLexeme(s: string, p: nat)
    requires p + 1 < |s| && s[p] == '$' && IsDigit(s[p + 1])
    ensures Follows(s, p)
  {
    hide Run;
    var d := s[p + 1];
    Silent(s, p, Code, Dollar(p, ""));
    assert DigitsValue(s, p + 1, p + 1) == 0;
    assert DigitsValue(s, p + 1, p + 2) == Wrap64(d as int - '0' as int);
    hide Wrap64, DigitsValue;
    Silent(s, p + 1, Dollar(p, ""), Number(p, DigitsValue(s, p + 1, p + 2)));
    assert DigitEnd(s, p + 1) == DigitEnd(s, p + 2);
    RunNumber(s, p, p + 2);
  }

  lemma RunDollarLexeme(s: string, p: nat)
    requires p < |s| && s[p] == '$'
    ensures Follows(s, p)
  {
    hide Run, DigitsValue;
    if p + 1 < |s| && IsDigit(s[p + 1]) {
      RunNumberLexeme(s, p);
    } else {
      var e := IdentEnd(s, p + 1);
      assert s[p + 1..p + 1] == "";
      Silent(s, p, Code, Dollar(p, ""));
      RunTag(s, p, p + 1);
      if e < |s| && s[e] == '$' {
        RunClosedTag(s, p, e);
      } else {
        RunFailedTag(s, p);
      }
    }
  }

  // Reading one whole lexeme from plain code ends in plain code.
  lemma RunLexeme(s: string, p: nat)
    requires p < |s|
    ensures Follows(s, p)
  {
    hide Run;
    var c := s[p];
    if c == '-' {
      RunDash(s, p);
    } else if c == '/' {
      RunSlash(s, p);
    } else if (c == 'E' || c == 'e') && p + 1 < |s| && s[p + 1] == '\'' {
      Silent(s, p, Code, LetterE);
      Silent(s, p + 1, LetterE, Escape);
      RunEscape(s, p + 2);
    } else if IsQuote(c) {
      Silent(s, p, Code, Inside(c));
      RunQuoted(s, p + 1, c);
    } else if c == '$' {
      RunDollarLexeme(s, p);
    } else if c == ':' {
      RunColon(s, p);
    } else if c == '?' {
      RunQuestion(s, p);
    } else if IsIdentStart(c) {
      RunIdent(s, p);
    } else {
      Silent(s, p, Code, Code);
    }
  }

  // The scanner and the automaton find the same parameters, at the same bytes,
  // with the same names and numbers; neither finds one the other does not.
  lemma {:induction false} ScannerRefinesAutomaton(s: string, i: nat)
    requires i <= |s|
    ensures Params(Tokens(s, i)) == Run(s, i, Code)
    decreases |s| - i
  {
    if i < |s| {
      ParamsStep(s, i);
      RunLexeme(s, i);
      ScannerRefinesAutomaton(s, LexemeAt(s, i).hi);
    }
  }

  // ----- parameters lie in code

  // The automaton's mode after the first k bytes.
  function ModeAt(s: string, k: nat): Mode
    requires k <= |s|
  {
    if k == 0 then Code else Step(ModeAt(s, k - 1), s[k - 1], k - 1)
  }

  function EmittedBy(s: string, k: nat): seq<Token>
    requires k <= |s|
  {
    if k == 0 then [] else EmittedBy(s, k - 1) + Emit(ModeAt(s, k - 1), s[k - 1], k - 1)
  }

  // No byte of s[lo..hi] leaves the automaton in a region that hides parameters.
  predicate InCode(s: string, lo: nat, hi: nat) {
    lo < hi <= |s| && forall j :: lo < j <= hi ==> !Hidden(ModeAt(s, j))
  }

  predicate Pending(m: Mode) {
    m.Name? || m.Quest? || m.Number? || m.Colon? || m.Dollar?
  }

  // A pending construct starts at the byte just read or was pending before it.
  lemma PendingStart(m: Mode, c: char, p: nat)
    ensures var m' := Step(m, c, p); Pending(m') ==> m'.lo == p || (Pending(m) && m'.lo == m.lo)
  {
  }

  lemma EmitsPending(m: Mode, c: char, p: nat)
    ensures forall t :: t in Emit(m, c, p) ==>
              Pending(m) && t.lo == m.lo && (t.hi == p || (t.hi == p + 1 && Step(m, c, p) == Code))
  {
  }

  lemma {:induction false} EmittedInCode(s: string, k: nat)
    requires k <= |s|
    ensures forall t :: t in EmittedBy(s, k) ==> InCode(s, t.lo, t.hi)
    ensures Pending(ModeAt(s, k)) ==> InCode(s, ModeAt(s, k).lo, k)
  {
    hide Step;
    hide Emit;
    if k > 0 {
      EmittedInCode(s, k - 1);
      var m, m' := ModeAt(s, k - 1), ModeAt(s, k);
      PendingStart(m, s[k - 1], k - 1);
      EmitsPending(m, s[k - 1], k - 1);
    }
  }

  lemma {:induction false} RunSplit(s: string, k: nat)
    requires k <= |s|
    ensures Run(s, 0, Code) == EmittedBy(s, k) + Run(s, k, ModeAt(s, k))
  {
    if k > 0 {
      RunSplit(s, k - 1);
    }
  }

  // Every parameter and ?? the scanner finds lies wholly in code: never in a
  // string, a quoted identifier, a comment or a dollar-quoted body.
  lemma ParametersLieInCode(s: string)
    ensures forall t :: t in Tokens(s, 0) && !t.kind.Text? ==> InCode(s, t.lo, t.hi)
  {
    ScannerRefinesAutomaton(s, 0);
    RunSplit(s, |s|);
    EmittedInCode(s, |s|);
    forall t | t in Tokens(s, 0) && !t.kind.Text?
      ensures InCode(s, t.lo, t.hi)
    {
      ParamsContains(Tokens(s, 0), t);
      assert t in EmittedBy(s, |s|) || t in Ended(ModeAt(s, |s|), |s|);
    }
  }

  lemma {:induction false} ParamsContains(toks: seq<Token>, t: Token)
    requires t in toks && !t.kind.Text?
    ensures t in Params(toks)
  {
    if t != toks[0] {
      ParamsContains(toks[1..], t);
    }
  }
}
