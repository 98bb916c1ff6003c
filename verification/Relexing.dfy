// What the database reads in a rendered statement: the scanner applied to the
// output of `render` finds the placeholders 1..k and nothing else.

module Relexing {
  import opened Wrappers
  import opened Integers
  import opened Numerals
  import opened Scanner
  import opened Automaton
  import opened Dialects
  import opened Binder

  // Bytes that would join with a placeholder written right after them, in
  // PostgreSQL if not here: it takes a dollar as part of an identifier.
  predicate Sticky(c: char) {
    IsIdentByte(c) || c == '$' || c == ':' || c == '?'
  }

  // A slot that nothing before it can join.
  predicate LeftClean(s: string, t: Token) {
    && t.lo < t.hi <= |s|
    && (t.lo == 0 || !Sticky(s[t.lo - 1]))
  }

  predicate AllLeftClean(s: string, toks: seq<Token>) {
    forall t :: t in toks && !t.kind.Text? ==> LeftClean(s, t)
  }

  predicate DigitAfter(s: string, t: Token) {
    t.hi < |s| && IsDigit(s[t.hi])
  }

  predicate WordAfter(s: string, t: Token) {
    t.hi < |s| && IsIdentByte(s[t.hi])
  }

  // No empty list, which is written NULL, runs into a word after it.
  predicate EmptiesApart(s: string, slots: seq<Token>, vals: seq<Value>)
    requires |slots| == |vals|
  {
    forall j :: 0 <= j < |slots| && Expansion(vals[j]) == [] ==> !WordAfter(s, slots[j])
  }

  // No slot that is written as placeholders has a digit right after it.
  predicate NoDigitAfter(s: string, slots: seq<Token>, vals: seq<Value>)
    requires |slots| == |vals|
  {
    forall j :: 0 <= j < |slots| && Expansion(vals[j]) != [] ==> !DigitAfter(s, slots[j])
  }

  // Every parameter of the statement is a slot of its style: no ?? and no
  // question mark demoted to text.
  predicate OnlySlots(toks: seq<Token>, style: Style) {
    forall t :: t in toks && !t.kind.Text? ==> IsSlot(t, style) && (t.kind.Named? || t.kind.Ordinal?)
  }

  // s[i..j] occurs in r, shifted by delta, and both go on alike: with the end of
  // the text, or with a slot in s and what replaces it in r.
  predicate Copied(s: string, r: string, i: nat, j: nat, delta: int) {
    && i <= j <= |s|
    && 0 <= i + delta && j + delta <= |r|
    && (forall k :: i <= k < j ==> s[k] == r[k + delta])
    && (if j == |s| then j + delta == |r|
        else j + delta < |r| && (s[j] == ':' || s[j] == '?') && (r[j + delta] == '$' || r[j + delta] == 'N'))
  }

  // A slot does not follow a sticky byte.
  predicate CleanEnd(s: string, i: nat, j: nat)
    requires j <= |s|
  {
    j == |s| || i >= j || !Sticky(s[j - 1])
  }

  // ----- each region that ends inside copied text ends at the same place in the copy

  lemma {:induction false} LineCopied(s: string, r: string, i: nat, j: nat, delta: int)
    requires Copied(s, r, i, j, delta) && LineEnd(s, i) <= j
    ensures LineEnd(r, i + delta) == LineEnd(s, i) + delta
    decreases j - i
  {
    if i < j && s[i] != '\n' {
      LineCopied(s, r, i + 1, j, delta);
    }
  }

  lemma {:induction false} BlockCopied(s: string, r: string, i: nat, j: nat, depth: nat, delta: int)
    requires Copied(s, r, i, j, delta) && BlockEnd(s, i, depth) <= j
    ensures BlockEnd(r, i + delta, depth) == BlockEnd(s, i, depth) + delta
    decreases j - i
  {
    if i < j && depth > 0 {
      assert r[i + delta] == s[i] && (i + 1 < j ==> r[i + delta + 1] == s[i + 1]);
      if s[i] == '/' && i + 1 < |s| && s[i + 1] == '*' {
        BlockCopied(s, r, i + 2, j, depth + 1, delta);
      } else if s[i] == '*' && i + 1 < |s| && s[i + 1] == '/' {
        BlockCopied(s, r, i + 2, j, depth - 1, delta);
      } else {
        BlockCopied(s, r, i + 1, j, depth, delta);
      }
    }
  }

  lemma {:induction false} QuotedCopied(s: string, r: string, i: nat, j: nat, q: char, delta: int)
    requires IsQuote(q)
    requires Copied(s, r, i, j, delta) && QuotedEnd(s, i, q) <= j
    ensures QuotedEnd(r, i + delta, q) == QuotedEnd(s, i, q) + delta
    decreases j - i
  {
    if i < j {
      if s[i] != q {
        QuotedCopied(s, r, i + 1, j, q, delta);
      } else if i + 1 < |s| && s[i + 1] == q {
        QuotedCopied(s, r, i + 2, j, q, delta);
      }
    }
  }

  lemma {:induction false} EscapeCopied(s: string, r: string, i: nat, j: nat, delta: int)
    requires Copied(s, r, i, j, delta) && EscapeEnd(s, i) <= j
    ensures EscapeEnd(r, i + delta) == EscapeEnd(s, i) + delta
    decreases j - i
  {
    if i < j {
      if s[i] == '\\' {
        if i + 2 <= j {
          EscapeCopied(s, r, i + 2, j, delta);
        }
      } else if s[i] != '\'' {
        EscapeCopied(s, r, i + 1, j, delta);
      } else if i + 1 < |s| && s[i + 1] == '\'' {
        EscapeCopied(s, r, i + 2, j, delta);
      }
    }
  }

  lemma {:induction false} IdentCopied(s: string, r: string, i: nat, j: nat, delta: int)
    requires Copied(s, r, i, j, delta) && IdentEnd(s, i) <= j
    requires IdentEnd(s, i) < j || j == |s|
    ensures IdentEnd(r, i + delta) == IdentEnd(s, i) + delta
    decreases j - i
  {
    if i < j && IsIdentByte(s[i]) {
      IdentCopied(s, r, i + 1, j, delta);
    }
  }

  lemma {:induction false} TagEndLow(s: string, tag: string, i: nat)
    requires i <= |s|
    ensures TagEnd(s, tag, i) == |s| || TagEnd(s, tag, i) >= i + |tag|
    decreases |s| - i
  {
    if !MatchesAt(s, tag, i) && i < |s| {
      TagEndLow(s, tag, i + 1);
    }
  }

  lemma MatchCopied(s: string, r: string, i: nat, j: nat, delta: int, tag: string)
    requires Copied(s, r, i, j, delta) && i + |tag| <= j
    ensures MatchesAt(s, tag, i) == MatchesAt(r, tag, i + delta)
  {
    assert s[i..i + |tag|] == r[i + delta..i + delta + |tag|];
  }

  lemma {:induction false} TagCopied(s: string, r: string, i: nat, j: nat, tag: string, delta: int)
    requires tag != ""
    requires Copied(s, r, i, j, delta) && TagEnd(s, tag, i) <= j
    ensures TagEnd(r, tag, i + delta) == TagEnd(s, tag, i) + delta
    decreases j - i
  {
    TagEndLow(s, tag, i);
    if i + |tag| <= j {
      MatchCopied(s, r, i, j, delta, tag);
    }
    if !MatchesAt(s, tag, i) && i < j {
      TagCopied(s, r, i + 1, j, tag, delta);
    }
  }

  lemma {:induction false} IdentEndLast(s: string, i: nat)
    requires i <= |s| && i < IdentEnd(s, i)
    ensures IsIdentByte(s[IdentEnd(s, i) - 1])
    decreases |s| - i
  {
    if i + 1 < IdentEnd(s, i) {
      IdentEndLast(s, i + 1);
    }
  }

  lemma DollarCopied(s: string, r: string, i: nat, j: nat, delta: int)
    requires i < j && Copied(s, r, i, j, delta) && CleanEnd(s, i, j) && s[i] == '$'
    requires DollarLexeme(s, i).kind.Text? && DollarLexeme(s, i).hi <= j
    ensures DollarLexeme(r, i + delta) == TextLexeme(i + delta, DollarLexeme(s, i).hi + delta)
  {
    hide IdentEnd, TagEnd, DigitEnd, DigitsValue;
    var p := i + delta;
    var e := IdentEnd(s, i + 1);
    IdentEndBytes(s, i + 1);
    assert e <= j && (e < j || j == |s|) by {
      if i + 1 < e {
        assert IsIdentByte(s[e - 1]);
      }
    }
    IdentCopied(s, r, i + 1, j, delta);
    if e < |s| && s[e] == '$' {
      var tag := s[i..e + 1];
      assert tag == r[p..e + delta + 1];
      TagCopied(s, r, e + 1, j, tag, delta);
    }
  }

  lemma WordCopied(s: string, r: string, i: nat, j: nat, delta: int)
    requires i < j && Copied(s, r, i, j, delta) && CleanEnd(s, i, j) && IsIdentByte(s[i])
    requires IdentEnd(s, i + 1) <= j
    ensures IdentEnd(r, i + 1 + delta) == IdentEnd(s, i + 1) + delta
  {
    if i + 1 < IdentEnd(s, i + 1) {
      IdentEndLast(s, i + 1);
    }
    IdentCopied(s, r, i + 1, j, delta);
  }

  // A comment, string or quoted identifier of s that lies in copied text.
  lemma RegionCopied(s: string, r: string, i: nat, j: nat, delta: int)
    requires i < j && Copied(s, r, i, j, delta) && OpensRegion(s, i) && LexemeAt(s, i).hi <= j
    ensures LexemeAt(r, i + delta) == TextLexeme(i + delta, LexemeAt(s, i).hi + delta)
  {
    hide LineEnd, BlockEnd, QuotedEnd, EscapeEnd, IdentEnd, DollarLexeme;
    var c := s[i];
    if c == '-' {
      LineCopied(s, r, i + 2, j, delta);
    } else if c == '/' {
      BlockCopied(s, r, i + 2, j, 1, delta);
    } else if c == 'E' || c == 'e' {
      EscapeCopied(s, r, i + 2, j, delta);
    } else {
      QuotedCopied(s, r, i + 1, j, c, delta);
    }
  }

  predicate OpensRegion(s: string, i: nat)
    requires i < |s|
  {
    var more := i + 1 < |s|;
    || (s[i] == '-' && more && s[i + 1] == '-')
    || (s[i] == '/' && more && s[i + 1] == '*')
    || ((s[i] == 'E' || s[i] == 'e') && more && s[i + 1] == '\'')
    || IsQuote(s[i])
  }

  // A text lexeme of s that lies in copied text is the same lexeme in r.
  lemma LexemeCopied(s: string, r: string, i: nat, j: nat, delta: int)
    requires i < j && Copied(s, r, i, j, delta) && CleanEnd(s, i, j)
    requires LexemeAt(s, i).kind.Text? && LexemeAt(s, i).hi <= j
    ensures LexemeAt(r, i + delta) == TextLexeme(i + delta, LexemeAt(s, i).hi + delta)
  {
    hide LineEnd, BlockEnd, QuotedEnd, EscapeEnd, IdentEnd, DollarLexeme;
    if OpensRegion(s, i) {
      RegionCopied(s, r, i, j, delta);
    } else if s[i] == '$' {
      DollarCopied(s, r, i, j, delta);
    } else if IsIdentStart(s[i]) {
      WordCopied(s, r, i, j, delta);
    }
  }

  // A copied run of text contributes no parameter.
  lemma {:induction false} TextCopied(s: string, r: string, i: nat, j: nat, delta: int)
    requires Copied(s, r, i, j, delta) && CleanEnd(s, i, j) && TextEnd(s, i) == j
    ensures Params(Tokens(r, i + delta)) == Params(Tokens(r, j + delta))
    decreases j - i
  {
    hide LexemeAt, Tokens, Params, TextEnd;
    if i < j {
      TextEndStep(s, i);
      LexemeCopied(s, r, i, j, delta);
      ParamsStep(r, i + delta);
      TextCopied(s, r, LexemeAt(s, i).hi, j, delta);
    }
  }

  // ----- what replaces a slot

  // t is the placeholder of number k, spelled with no digit more.
  predicate Spells(t: Token, k: nat) {
    t.kind.Numbered? && t.num == k && t.hi == t.lo + 1 + |Decimal(k)|
  }

  // toks are the placeholders n+1, n+2, ...
  predicate NumberedFrom(toks: seq<Token>, n: nat) {
    forall k :: 0 <= k < |toks| ==> Spells(toks[k], n + 1 + k)
  }

  // From p to q the scanner finds the placeholders n+1..n+count and no other parameter.
  predicate Counts(r: string, p: nat, q: nat, n: nat, count: nat)
    requires p <= |r| && q <= |r|
  {
    Prefixed(Params(Tokens(r, p)), Params(Tokens(r, q)), n, count)
  }

  predicate Prefixed(all: seq<Token>, rest: seq<Token>, n: nat, count: nat) {
    |all| == count + |rest| && NumberedFrom(all[..count], n) && all[count..] == rest
  }

  lemma PrefixedJoin(a: seq<Token>, b: seq<Token>, c: seq<Token>, n: nat, k: nat, l: nat)
    requires Prefixed(a, b, n, k) && Prefixed(b, c, n + k, l)
    ensures Prefixed(a, c, n, k + l)
  {
    hide Spells;
    assert a == a[..k] + b;
    forall i | 0 <= i < k + l
      ensures Spells(a[i], n + 1 + i)
    {
      if i >= k {
        assert a[i] == b[i - k] == b[..l][i - k];
      } else {
        assert a[i] == a[..k][i];
      }
    }
    assert a[k + l..] == b[l..];
  }

  lemma PrefixedOne(t: Token, rest: seq<Token>, n: nat)
    requires Spells(t, n + 1)
    ensures Prefixed([t] + rest, rest, n, 1)
  {
  }

  lemma PrefixedNone(all: seq<Token>, n: nat)
    ensures Prefixed(all, all, n, 0)
  {
    assert all[0..] == all;
  }

  predicate StartsAt(r: string, p: nat, text: string) {
    p + |text| <= |r| && r[p..p + |text|] == text
  }

  lemma PlaceholderLexeme(d: Dialect, r: string, p: nat, k: nat)
    requires d.numbered && IsInt64(k)
    requires StartsAt(r, p, Placeholder(d, k))
    requires var q := p + |Placeholder(d, k)|; q == |r| || !IsDigit(r[q])
    ensures LexemeAt(r, p) == Token(Numbered, p, p + |Placeholder(d, k)|, "", k)
  {
    var text := Decimal(k);
    var q := p + 1 + |text|;
    var slice := r[p..q];
    assert slice == "$" + text;
    assert r[p] == slice[0] && r[p + 1] == slice[1];
    assert r[p + 1..q] == text by {
      assert slice[1..] == text;
    }
    forall i | p + 1 <= i < q
      ensures IsDigit(r[i])
    {
      assert r[i] == slice[i - p] == text[i - p - 1];
    }
    DigitEndReadsDecimal(r, p + 1, q);
    DigitsValueReadsDecimal(r, p + 1, k);
  }

  // A placeholder is read back exactly when no digit follows it. Named
  // parameters cannot be followed by one, but "?5" becomes "$15".
  lemma PlaceholderReadBack(d: Dialect, r: string, p: nat, k: nat)
    requires d.numbered && IsInt64(k) && StartsAt(r, p, Placeholder(d, k))
    ensures var q := p + |Placeholder(d, k)|;
            LexemeAt(r, p) == Token(Numbered, p, q, "", k) <==> q == |r| || !IsDigit(r[q])
  {
    var text := Decimal(k);
    var q := p + 1 + |text|;
    if q == |r| || !IsDigit(r[q]) {
      PlaceholderLexeme(d, r, p, k);
    } else {
      var slice := r[p..q];
      assert slice == "$" + text;
      assert r[p] == slice[0] && r[p + 1] == slice[1];
      forall i | p + 1 <= i < q + 1
        ensures IsDigit(r[i])
      {
        if i < q {
          assert r[i] == slice[i - p] == text[i - p - 1];
        }
      }
      DigitEndPast(r, p + 1, q + 1);
    }
  }

  lemma {:induction false} DigitEndPast(s: string, i: nat, j: nat)
    requires i <= j <= |s| && forall k :: i <= k < j ==> IsDigit(s[k])
    ensures DigitEnd(s, i) >= j
    decreases j - i
  {
    if i < j {
      DigitEndPast(s, i + 1, j);
    }
  }

  lemma {:induction false} PlaceholderListFront(d: Dialect, n: nat, count: nat)
    requires count > 1
    ensures PlaceholderList(d, n, count) == Placeholder(d, n + 1) + "," + PlaceholderList(d, n + 1, count - 1)
  {
    hide Placeholder;
    var first, last := Placeholder(d, n + 1) + ",", Placeholder(d, n + count);
    var front := PlaceholderList(d, n, count - 1);
    assert PlaceholderList(d, n, count) == front + "," + last;
    if count > 2 {
      PlaceholderListFront(d, n, count - 1);
      var middle := PlaceholderList(d, n + 1, count - 2);
      assert PlaceholderList(d, n + 1, count - 1) == middle + "," + last;
      assert first + middle + "," + last == first + (middle + "," + last);
    }
  }

  lemma StartsAtSplit(r: string, p: nat, a: string, b: string)
    requires StartsAt(r, p, a + b)
    ensures StartsAt(r, p, a) && StartsAt(r, p + |a|, b)
  {
    assert r[p..p + |a|] == (a + b)[..|a|];
    assert r[p + |a|..p + |a| + |b|] == (a + b)[|a|..];
  }

  lemma CommaLexeme(r: string, p: nat)
    requires p < |r| && r[p] == ','
    ensures LexemeAt(r, p) == TextLexeme(p, p + 1)
  {
  }

  lemma {:induction false} PlaceholderListTokens(d: Dialect, r: string, p: nat, n: nat, count: nat)
    requires d.numbered && count > 0 && IsInt64(n + count)
    requires StartsAt(r, p, PlaceholderList(d, n, count))
    requires var q := p + |PlaceholderList(d, n, count)|; q == |r| || !IsDigit(r[q])
    ensures Counts(r, p, p + |PlaceholderList(d, n, count)|, n, count)
    decreases count
  {
    hide LexemeAt, Tokens, Params, Prefixed, StartsAt, Placeholder;
    if count == 1 {
      PlaceholderTokens(d, r, p, n);
    } else {
      var first, rest := Placeholder(d, n + 1), PlaceholderList(d, n + 1, count - 1);
      PlaceholderListFront(d, n, count);
      StartsAtSplit(r, p, first + ",", rest);
      StartsAtSplit(r, p, first, ",");
      var p1, q := p + |first|, p + |PlaceholderList(d, n, count)|;
      StartsAtByte(r, p1, ",");
      PlaceholderTokens(d, r, p, n);
      CommaLexeme(r, p1);
      ParamsStep(r, p1);
      assert [] + Params(Tokens(r, p1 + 1)) == Params(Tokens(r, p1 + 1));
      PlaceholderListTokens(d, r, p1 + 1, n + 1, count - 1);
      PrefixedJoin(Params(Tokens(r, p)), Params(Tokens(r, p1)), Params(Tokens(r, q)), n, 1, count - 1);
    }
  }

  lemma StartsAtByte(r: string, p: nat, text: string)
    requires text != "" && StartsAt(r, p, text)
    ensures p < |r| && r[p] == text[0]
  {
    assert r[p] == r[p..p + |text|][0];
  }

  lemma PlaceholderTokens(d: Dialect, r: string, p: nat, n: nat)
    requires d.numbered && IsInt64(n + 1)
    requires StartsAt(r, p, Placeholder(d, n + 1))
    requires var q := p + |Placeholder(d, n + 1)|; q == |r| || !IsDigit(r[q])
    ensures Counts(r, p, p + |Placeholder(d, n + 1)|, n, 1)
  {
    hide LexemeAt, Tokens, Params, Prefixed;
    PlaceholderLexeme(d, r, p, n + 1);
    ParamsStep(r, p);
    PrefixedOne(LexemeAt(r, p), Params(Tokens(r, p + |Placeholder(d, n + 1)|)), n);
  }

  // An empty list is written as the word NULL, which holds no parameter.
  lemma NullWord(r: string, p: nat)
    requires StartsAt(r, p, "NULL")
    requires p + 4 == |r| || !IsIdentByte(r[p + 4])
    ensures Params(Tokens(r, p)) == Params(Tokens(r, p + 4))
  {
    var slice := r[p..p + 4];
    assert slice[0] == 'N' && slice[1] == 'U' && slice[2] == 'L' && slice[3] == 'L';
    assert r[p] == 'N' && r[p + 1] == 'U' && r[p + 2] == 'L' && r[p + 3] == 'L';
    assert IdentEnd(r, p + 4) == p + 4;
    assert IdentEnd(r, p + 2) == p + 4;
    assert LexemeAt(r, p) == TextLexeme(p, p + 4);
    ParamsStep(r, p);
  }

  lemma SlotTokens(d: Dialect, r: string, p: nat, n: nat, v: Value)
    requires d.numbered && IsInt64(n + |Expansion(v)|)
    requires StartsAt(r, p, SlotText(d, v, n))
    requires var q := p + |SlotText(d, v, n)|;
             q == |r| || !(if Expansion(v) == [] then IsIdentByte(r[q]) else IsDigit(r[q]))
    ensures Counts(r, p, p + |SlotText(d, v, n)|, n, |Expansion(v)|)
  {
    hide Tokens, Params, Prefixed, PlaceholderList, IsIdentByte, IsDigit;
    if Expansion(v) == [] {
      NullWord(r, p);
      PrefixedNone(Params(Tokens(r, p)), n);
    } else {
      PlaceholderListTokens(d, r, p, n, |Expansion(v)|);
    }
  }

  // With a digit right after it, the last placeholder of a list is not read back.
  lemma {:induction false} PlaceholderListBroken(d: Dialect, r: string, p: nat, n: nat, count: nat)
    requires d.numbered && count > 0 && IsInt64(n + count)
    requires StartsAt(r, p, PlaceholderList(d, n, count))
    requires var q := p + |PlaceholderList(d, n, count)|; q < |r| && IsDigit(r[q])
    ensures !NumberedFrom(Params(Tokens(r, p)), n)
    decreases count
  {
    hide LexemeAt, Tokens, Params, StartsAt, Placeholder, Spells;
    if count == 1 {
      PlaceholderMerges(d, r, p, n + 1);
      ParamsStep(r, p);
      assert Params(Tokens(r, p))[0] == LexemeAt(r, p);
    } else {
      var first, rest := Placeholder(d, n + 1), PlaceholderList(d, n + 1, count - 1);
      PlaceholderListFront(d, n, count);
      StartsAtSplit(r, p, first + ",", rest);
      StartsAtSplit(r, p, first, ",");
      var p1 := p + |first|;
      StartsAtByte(r, p1, ",");
      PlaceholderTokens(d, r, p, n);
      CommaLexeme(r, p1);
      ParamsStep(r, p1);
      PlaceholderListBroken(d, r, p1 + 1, n + 1, count - 1);
      assert [] + Params(Tokens(r, p1 + 1)) == Params(Tokens(r, p1 + 1));
      BrokenAfter(Params(Tokens(r, p)), Params(Tokens(r, p1)), n, 1);
    }
  }

  lemma PlaceholderMerges(d: Dialect, r: string, p: nat, k: nat)
    requires d.numbered && StartsAt(r, p, Placeholder(d, k))
    requires var q := p + |Placeholder(d, k)|; q < |r| && IsDigit(r[q])
    ensures p < |r| && LexemeAt(r, p).kind.Numbered? && !Spells(LexemeAt(r, p), k)
  {
    var text := Decimal(k);
    var q := p + 1 + |text|;
    var slice := r[p..q];
    assert slice == "$" + text;
    assert r[p] == slice[0] && r[p + 1] == slice[1];
    forall i | p + 1 <= i < q + 1
      ensures IsDigit(r[i])
    {
      if i < q {
        assert r[i] == slice[i - p] == text[i - p - 1];
      }
    }
    DigitEndPast(r, p + 1, q + 1);
  }

  lemma BrokenAfter(all: seq<Token>, rest: seq<Token>, n: nat, count: nat)
    requires Prefixed(all, rest, n, count) && !NumberedFrom(rest, n + count)
    ensures !NumberedFrom(all, n)
  {
    hide Spells;
    var k :| 0 <= k < |rest| && !Spells(rest[k], n + count + 1 + k);
    assert all[count..][k] == all[count + k];
  }

  lemma {:induction false} PlaceholderListStart(d: Dialect, n: nat, count: nat)
    requires d.numbered && count > 0
    ensures PlaceholderList(d, n, count) != "" && PlaceholderList(d, n, count)[0] == '$'
  {
    if count > 1 {
      PlaceholderListStart(d, n, count - 1);
    }
  }

  lemma SlotTextStart(d: Dialect, v: Value, n: nat)
    requires d.numbered
    ensures SlotText(d, v, n) != "" && (SlotText(d, v, n)[0] == '$' || SlotText(d, v, n)[0] == 'N')
  {
    if Expansion(v) != [] {
      PlaceholderListStart(d, n, |Expansion(v)|);
    }
  }

  // ----- the whole statement

  // The first byte of what follows a token, if anything does.
  lemma SubstitutedStart(d: Dialect, s: string, i: nat, style: Style, vals: seq<Value>, n: nat)
    requires d.numbered && i <= |s|
    requires OnlySlots(Tokens(s, i), style)
    requires |vals| == |SlotsOf(Tokens(s, i), style)|
    ensures var text := Substituted(d, s, Tokens(s, i), style, vals, n);
            if i == |s| then text == ""
            else if LexemeAt(s, i).kind.Text? then text != "" && text[0] == s[i]
            else text != "" && (text[0] == '$' || text[0] == 'N') && (s[i] == ':' || s[i] == '?')
  {
    hide LexemeAt, TextEnd, SlotText, OnlySlots;
    if i < |s| {
      TokensStep(s, i);
      RestOfTokens(s, i, style);
      var toks := Tokens(s, i);
      if LexemeAt(s, i).kind.Text? {
        assert Verbatim(s, toks[0]) == s[i..TextEnd(s, i)];
      } else {
        SlotStart(s, i);
        SlotTextStart(d, vals[0], n);
      }
    }
  }

  lemma SlotStart(s: string, i: nat)
    requires i < |s| && (LexemeAt(s, i).kind.Named? || LexemeAt(s, i).kind.Ordinal?)
    ensures s[i] == ':' || s[i] == '?'
  {
  }

  // The token stream that starts at i, after its first token.
  function TokensAfter(s: string, i: nat): seq<Token>
    requires i < |s|
  {
    Tokens(s, if LexemeAt(s, i).kind.Text? then TextEnd(s, i) else LexemeAt(s, i).hi)
  }

  lemma FirstToken(s: string, i: nat)
    requires i < |s|
    ensures Tokens(s, i) != [] && Tokens(s, i)[1..] == TokensAfter(s, i)
    ensures Tokens(s, i)[0].kind.Text? <==> LexemeAt(s, i).kind.Text?
    ensures !LexemeAt(s, i).kind.Text? ==> Tokens(s, i)[0] == LexemeAt(s, i)
  {
    hide LexemeAt, TextEnd;
    TokensStep(s, i);
  }

  // The conditions on a statement's tokens hold of what follows the first one.
  lemma RestOfTokens(s: string, i: nat, style: Style)
    requires i < |s| && OnlySlots(Tokens(s, i), style)
    ensures OnlySlots(TokensAfter(s, i), style)
    ensures AllLeftClean(s, Tokens(s, i)) ==> AllLeftClean(s, TokensAfter(s, i))
    ensures var first := if LexemeAt(s, i).kind.Text? then [] else [LexemeAt(s, i)];
            SlotsOf(Tokens(s, i), style) == first + SlotsOf(TokensAfter(s, i), style)
    ensures !LexemeAt(s, i).kind.Text? ==>
              && IsSlot(LexemeAt(s, i), style) && (LexemeAt(s, i).kind.Named? || LexemeAt(s, i).kind.Ordinal?)
              && (AllLeftClean(s, Tokens(s, i)) ==> LeftClean(s, LexemeAt(s, i)))
  {
    hide LexemeAt, TokensAfter, Tokens, LeftClean;
    FirstToken(s, i);
    var toks := Tokens(s, i);
    assert toks[0] in toks;
    assert forall t :: t in toks[1..] ==> t in toks;
  }

  // What is known of a rendered statement from some point on: r from p is what
  // the tokens from i render to.
  ghost predicate RendersAt(d: Dialect, s: string, i: nat, style: Style, vals: seq<Value>, n: nat, r: string, p: nat)
  {
    && d.numbered && i <= |s| && p <= |r|
    && OnlySlots(Tokens(s, i), style) && AllLeftClean(s, Tokens(s, i))
    && |vals| == |SlotsOf(Tokens(s, i), style)|
    && EmptiesApart(s, SlotsOf(Tokens(s, i), style), vals)
    && r[p..] == Substituted(d, s, Tokens(s, i), style, vals, n)
    && IsInt64(n + |Arguments(vals)|)
  }

  ghost predicate DigitFree(s: string, i: nat, style: Style, vals: seq<Value>)
    requires i <= |s| && |vals| == |SlotsOf(Tokens(s, i), style)|
  {
    NoDigitAfter(s, SlotsOf(Tokens(s, i), style), vals)
  }

  lemma {:induction false} RelexFrom(
    d: Dialect, s: string, i: nat, style: Style, vals: seq<Value>, n: nat, r: string, p: nat)
    requires RendersAt(d, s, i, style, vals, n, r, p)
    ensures DigitFree(s, i, style, vals) ==> Counts(r, p, |r|, n, |Arguments(vals)|)
    ensures !DigitFree(s, i, style, vals) ==> !NumberedFrom(Params(Tokens(r, p)), n)
    decreases |s| - i
  {
    hide *;
    RendersFacts(d, s, i, style, vals, n, r, p);
    if i == |s| {
      RelexEnd(d, s, style, vals, n, r, p);
    } else if LexemeAt(s, i).kind.Text? {
      TokensStep(s, i);
      RelexText(d, s, i, style, vals, n, r, p);
      var j, q := TextEnd(s, i), p + (TextEnd(s, i) - i);
      RelexFrom(d, s, j, style, vals, n, r, q);
      RendersFacts(d, s, j, style, vals, n, r, q);
      if DigitFree(s, j, style, vals) {
        SameCounts(r, p, q, n, |Arguments(vals)|);
      }
    } else {
      RelexSlot(d, s, i, style, vals, n, r, p);
      var hi, q, n' := LexemeAt(s, i).hi, p + |SlotText(d, vals[0], n)|, n + |Expansion(vals[0])|;
      ArgumentsStep(vals);
      RendersFacts(d, s, hi, style, vals[1..], n', r, q);
      RelexFrom(d, s, hi, style, vals[1..], n', r, q);
      if Expansion(vals[0]) == [] || !DigitAfter(s, LexemeAt(s, i)) {
        if DigitFree(s, hi, style, vals[1..]) {
          CountsJoin(r, p, q, n, |Expansion(vals[0])|, |Arguments(vals[1..])|);
        } else {
          CountsBroken(r, p, q, n, |Expansion(vals[0])|);
        }
      }
    }
  }

  lemma RendersFacts(d: Dialect, s: string, i: nat, style: Style, vals: seq<Value>, n: nat, r: string, p: nat)
    requires RendersAt(d, s, i, style, vals, n, r, p)
    ensures i <= |s| && p <= |r| && |vals| == |SlotsOf(Tokens(s, i), style)|
  {
  }

  lemma CountsBroken(r: string, p: nat, q: nat, n: nat, count: nat)
    requires p <= |r| && q <= |r| && Counts(r, p, q, n, count)
    requires !NumberedFrom(Params(Tokens(r, q)), n + count)
    ensures !NumberedFrom(Params(Tokens(r, p)), n)
  {
    BrokenAfter(Params(Tokens(r, p)), Params(Tokens(r, q)), n, count);
  }

  lemma RelexEnd(d: Dialect, s: string, style: Style, vals: seq<Value>, n: nat, r: string, p: nat)
    requires RendersAt(d, s, |s|, style, vals, n, r, p)
    ensures DigitFree(s, |s|, style, vals) && Counts(r, p, |r|, n, |Arguments(vals)|)
  {
    assert |r[p..]| == 0;
    PrefixedNone(Params(Tokens(r, p)), n);
  }

  lemma ArgumentsStep(vals: seq<Value>)
    requires vals != []
    ensures |Arguments(vals)| == |Expansion(vals[0])| + |Arguments(vals[1..])|
  {
  }

  lemma CountsJoin(r: string, p: nat, q: nat, n: nat, k: nat, l: nat)
    requires p <= |r| && q <= |r|
    requires Counts(r, p, q, n, k) && Counts(r, q, |r|, n + k, l)
    ensures Counts(r, p, |r|, n, k + l)
  {
    PrefixedJoin(Params(Tokens(r, p)), Params(Tokens(r, q)), Params(Tokens(r, |r|)), n, k, l);
  }

  lemma SameCounts(r: string, p: nat, q: nat, n: nat, k: nat)
    requires p <= |r| && q <= |r| && Params(Tokens(r, p)) == Params(Tokens(r, q))
    requires Counts(r, q, |r|, n, k)
    ensures Counts(r, p, |r|, n, k)
  {
  }

  // A slot at the front: it and what follows it are rendered, and it counts its
  // own placeholders unless a digit comes right after them.
  lemma RelexSlot(d: Dialect, s: string, i: nat, style: Style, vals: seq<Value>, n: nat, r: string, p: nat)
    requires i < |s| && RendersAt(d, s, i, style, vals, n, r, p)
    requires !LexemeAt(s, i).kind.Text?
    ensures var t := LexemeAt(s, i);
            && vals != []
            && var v := vals[0];
               var q := p + |SlotText(d, v, n)|;
               && q <= |r| && t.hi <= |s| && RendersAt(d, s, t.hi, style, vals[1..], n + |Expansion(v)|, r, q)
               && (DigitFree(s, i, style, vals) <==>
                     (Expansion(v) == [] || !DigitAfter(s, t)) && DigitFree(s, t.hi, style, vals[1..]))
               && (Expansion(v) == [] || !DigitAfter(s, t) ==> Counts(r, p, q, n, |Expansion(v)|))
               && (Expansion(v) != [] && DigitAfter(s, t) ==> !NumberedFrom(Params(Tokens(r, p)), n))
  {
    hide *;
    var t := LexemeAt(s, i);
    SlotRendered(d, s, i, style, vals, n, r, p);
    var v, q := vals[0], p + |SlotText(d, vals[0], n)|;
    RelexSlotEnd(d, s, t, style, vals[1..], n + |Expansion(v)|, r, q);
    SlotReads(d, s, t, r, p, n, v);
  }

  lemma SlotRendered(d: Dialect, s: string, i: nat, style: Style, vals: seq<Value>, n: nat, r: string, p: nat)
    requires i < |s| && RendersAt(d, s, i, style, vals, n, r, p)
    requires !LexemeAt(s, i).kind.Text?
    ensures var t := LexemeAt(s, i);
            && vals != [] && d.numbered && IsInt64(n + |Expansion(vals[0])|) && i < t.hi <= |s| && Sticky(s[t.hi - 1])
            && var v := vals[0];
               var q := p + |SlotText(d, v, n)|;
               && StartsAt(r, p, SlotText(d, v, n)) && q <= |r|
               && RendersAt(d, s, t.hi, style, vals[1..], n + |Expansion(v)|, r, q)
               && (DigitFree(s, i, style, vals) <==>
                     (Expansion(v) == [] || !DigitAfter(s, t)) && DigitFree(s, t.hi, style, vals[1..]))
               && (Expansion(v) == [] ==> !WordAfter(s, t))
  {
    hide LexemeAt, TextEnd, SlotText, Substituted, Tokens, Arguments, OnlySlots, AllLeftClean, SlotsOf;
    RestOfTokens(s, i, style);
    SubstitutedSlot(d, s, i, style, vals, n);
    var t := LexemeAt(s, i);
    var v, n' := vals[0], n + |Expansion(vals[0])|;
    Suffix(r, p, SlotText(d, v, n), Substituted(d, s, Tokens(s, t.hi), style, vals[1..], n'));
    StartsWithin(r, p, SlotText(d, v, n));
    SlotEndsSticky(s, i, style);
    ArgumentsStep(vals);
    SmallerInt64(n + |Arguments(vals)|, n + |Expansion(v)|);
    var slots := SlotsOf(Tokens(s, i), style);
    assert slots[0] == t && slots[1..] == SlotsOf(Tokens(s, t.hi), style);
    ConditionsSplit(s, slots, vals);
  }

  lemma StartsWithin(r: string, p: nat, text: string)
    requires StartsAt(r, p, text)
    ensures p + |text| <= |r|
  {
  }

  lemma ConditionsSplit(s: string, slots: seq<Token>, vals: seq<Value>)
    requires |slots| == |vals| && slots != []
    ensures NoDigitAfter(s, slots, vals) <==>
            (Expansion(vals[0]) == [] || !DigitAfter(s, slots[0])) && NoDigitAfter(s, slots[1..], vals[1..])
    ensures EmptiesApart(s, slots, vals) ==>
              EmptiesApart(s, slots[1..], vals[1..]) && (Expansion(vals[0]) == [] ==> !WordAfter(s, slots[0]))
  {
    hide DigitAfter, WordAfter, Expansion;
    if NoDigitAfter(s, slots[1..], vals[1..]) && (Expansion(vals[0]) == [] || !DigitAfter(s, slots[0])) {
      forall j | 0 <= j < |slots| && Expansion(vals[j]) != []
        ensures !DigitAfter(s, slots[j])
      {
        if j > 0 {
          assert vals[1..][j - 1] == vals[j] && slots[1..][j - 1] == slots[j];
        }
      }
    }
  }

  // What the scanner makes of a slot's text, given the byte after it.
  lemma SlotReads(d: Dialect, s: string, t: Token, r: string, p: nat, n: nat, v: Value)
    requires d.numbered && IsInt64(n + |Expansion(v)|) && t.hi <= |s| && StartsAt(r, p, SlotText(d, v, n))
    requires var q := p + |SlotText(d, v, n)|; q <= |r| && SameNext(s, t.hi, r, q)
    requires Expansion(v) == [] ==> !WordAfter(s, t)
    ensures p <= |r|
    ensures Expansion(v) == [] || !DigitAfter(s, t) ==> Counts(r, p, p + |SlotText(d, v, n)|, n, |Expansion(v)|)
    ensures Expansion(v) != [] && DigitAfter(s, t) ==> !NumberedFrom(Params(Tokens(r, p)), n)
  {
    hide Tokens, Params, Counts, NumberedFrom, PlaceholderList, StartsAt, IsIdentByte, IsDigit;
    StartsWithin(r, p, SlotText(d, v, n));
    if Expansion(v) == [] || !DigitAfter(s, t) {
      SlotTokens(d, r, p, n, v);
    } else {
      PlaceholderListBroken(d, r, p, n, |Expansion(v)|);
    }
  }

  // s goes on after i as r does after q.
  predicate SameNext(s: string, i: nat, r: string, q: nat)
    requires i <= |s| && q <= |r|
  {
    (i == |s| <==> q == |r|) && (i < |s| ==> r[q] == s[i])
  }

  lemma SmallerInt64(m: nat, n: nat)
    requires n <= m && IsInt64(m)
    ensures IsInt64(n)
  {
  }

  lemma SubstitutedSlot(d: Dialect, s: string, i: nat, style: Style, vals: seq<Value>, n: nat)
    requires i < |s| && IsSlot(LexemeAt(s, i), style) && !LexemeAt(s, i).kind.Text?
    requires |vals| == |SlotsOf(Tokens(s, i), style)|
    ensures |vals| == 1 + |SlotsOf(Tokens(s, LexemeAt(s, i).hi), style)|
    ensures Substituted(d, s, Tokens(s, i), style, vals, n) ==
            SlotText(d, vals[0], n)
                + Substituted(d, s, Tokens(s, LexemeAt(s, i).hi), style, vals[1..], n + |Expansion(vals[0])|)
  {
    hide LexemeAt, TextEnd, SlotText;
    TokensStep(s, i);
    assert Tokens(s, i)[1..] == Tokens(s, LexemeAt(s, i).hi);
  }

  lemma Suffix(r: string, p: nat, text: string, rest: string)
    requires p <= |r| && r[p..] == text + rest
    ensures StartsAt(r, p, text) && r[p + |text|..] == rest
  {
    var q := p + |text|;
    assert |r| == q + |rest|;
    assert r[q..] == r[p..][|text|..];
    assert r[p..q] == r[p..][..|text|];
  }

  lemma SlotEndsSticky(s: string, i: nat, style: Style)
    requires i < |s| && IsSlot(LexemeAt(s, i), style)
    ensures Sticky(s[LexemeAt(s, i).hi - 1])
  {
    if s[i] == ':' {
      IdentEndLast(s, i + 1);
    }
  }

  // A slot is followed by text, which the output copies, or by nothing.
  lemma RelexSlotEnd(d: Dialect, s: string, t: Token, style: Style, vals: seq<Value>, n: nat, r: string, q: nat)
    requires 0 < t.hi <= |s| && RendersAt(d, s, t.hi, style, vals, n, r, q)
    requires Sticky(s[t.hi - 1])
    ensures q <= |r| && SameNext(s, t.hi, r, q)
  {
    hide LexemeAt, TextEnd, Substituted, OnlySlots, AllLeftClean, Tokens, SlotsOf, EmptiesApart, Arguments, Sticky;
    SubstitutedStart(d, s, t.hi, style, vals, n);
    if t.hi < |s| {
      RestOfTokens(s, t.hi, style);
      LexemeStarts(s, t.hi);
    }
    if q < |r| {
      assert r[q] == r[q..][0];
    }
  }

  lemma LexemeStarts(s: string, i: nat)
    requires i < |s|
    ensures LexemeAt(s, i).lo == i
  {
    hide LexemeAt;
  }

  // A run of text before a slot or the end is copied.
  lemma RelexText(d: Dialect, s: string, i: nat, style: Style, vals: seq<Value>, n: nat, r: string, p: nat)
    requires i < |s| && RendersAt(d, s, i, style, vals, n, r, p)
    requires LexemeAt(s, i).kind.Text?
    ensures var j := TextEnd(s, i);
            var q := p + (j - i);
            && i < j <= |s| && q <= |r| && RendersAt(d, s, j, style, vals, n, r, q)
            && (DigitFree(s, i, style, vals) <==> DigitFree(s, j, style, vals))
            && Params(Tokens(r, p)) == Params(Tokens(r, q))
  {
    hide LexemeAt, Params, TextEnd, SlotText, OnlySlots, AllLeftClean, Tokens, SlotsOf, EmptiesApart, Arguments;
    TextEndStep(s, i);
    RestOfTokens(s, i, style);
    TextSubstituted(d, s, i, style, vals, n);
    var j := TextEnd(s, i);
    assert [] + SlotsOf(Tokens(s, j), style) == SlotsOf(Tokens(s, j), style);
    var rest := Substituted(d, s, Tokens(s, j), style, vals, n);
    assert r[p..] == s[i..j] + rest;
    Suffix(r, p, s[i..j], rest);
    StartsWithin(r, p, s[i..j]);
    RelexCopy(d, s, i, j, style, vals, n, r, p);
  }

  lemma TextSubstituted(d: Dialect, s: string, i: nat, style: Style, vals: seq<Value>, n: nat)
    requires i < |s| && LexemeAt(s, i).kind.Text? && |vals| == |SlotsOf(Tokens(s, i), style)|
    ensures i <= TextEnd(s, i) <= |s| && |vals| == |SlotsOf(Tokens(s, TextEnd(s, i)), style)|
    ensures Substituted(d, s, Tokens(s, i), style, vals, n)
         == s[i..TextEnd(s, i)] + Substituted(d, s, Tokens(s, TextEnd(s, i)), style, vals, n)
  {
    hide LexemeAt, TextEnd, SlotText;
    TokensStep(s, i);
    var j := TextEnd(s, i);
    var toks := Tokens(s, i);
    assert toks[0] == TextLexeme(i, j) && toks[1..] == Tokens(s, j);
  }

  lemma RelexCopy(d: Dialect, s: string, i: nat, j: nat, style: Style, vals: seq<Value>, n: nat, r: string, p: nat)
    requires i < j <= |s| && j == TextEnd(s, i) && p + (j - i) <= |r|
    requires RendersAt(d, s, j, style, vals, n, r, p + (j - i))
    requires StartsAt(r, p, s[i..j])
    ensures Params(Tokens(r, p)) == Params(Tokens(r, p + (j - i)))
  {
    hide LexemeAt, Params, TextEnd, Tokens;
    CopiedHere(d, s, i, j, style, vals, n, r, p);
    TextCopied(s, r, i, j, p - i);
  }

  lemma CopiedHere(d: Dialect, s: string, i: nat, j: nat, style: Style, vals: seq<Value>, n: nat, r: string, p: nat)
    requires i < j <= |s| && j == TextEnd(s, i) && p + (j - i) <= |r|
    requires RendersAt(d, s, j, style, vals, n, r, p + (j - i))
    requires StartsAt(r, p, s[i..j])
    ensures Copied(s, r, i, j, p - i) && CleanEnd(s, i, j)
  {
    hide LexemeAt, Params, Substituted, TextEnd, Tokens;
    hide SlotsOf, OnlySlots, AllLeftClean, EmptiesApart, Arguments, Sticky;
    var q, delta := p + (j - i), p - i;
    TextEndStops(s, i);
    SubstitutedStart(d, s, j, style, vals, n);
    forall k | i <= k < j
      ensures s[k] == r[k + delta]
    {
      assert r[p..q][k - i] == s[i..j][k - i];
    }
    if j < |s| {
      assert r[q] == r[q..][0];
      RestOfTokens(s, j, style);
      LexemeStarts(s, j);
    } else {
      assert |r[q..]| == 0;
    }
  }

  lemma TextEndStops(s: string, i: nat)
    requires i <= |s|
    ensures TextEnd(s, i) < |s| ==> !LexemeAt(s, TextEnd(s, i)).kind.Text?
  {
    hide LexemeAt, TextEnd;
  }

  lemma NoTokensAtEnd(r: string)
    ensures Params(Tokens(r, |r|)) == []
  {
  }

  // ----- the main results

  // Reading the text back gives the placeholders 1..k in order, each spelled in
  // full, and no other parameter.
  predicate ReadsBack(text: string, k: nat) {
    |Params(Tokens(text, 0))| == k && NumberedFrom(Params(Tokens(text, 0)), 0)
  }

  // The values of a statement's slots, in statement order.
  predicate SlotValues(s: string, style: Style, src: Source, pos: seq<Value>, vals: seq<Value>) {
    Resolves(StatementSlots(s, style), style, src, pos, 0, vals)
  }

  predicate Relexable(s: string, style: Style, vals: seq<Value>) {
    && (style.NamedStyle? || style.OrdinalStyle?)
    && OnlySlots(Tokens(s, 0), style) && AllLeftClean(s, Tokens(s, 0))
    && |vals| == |StatementSlots(s, style)| && EmptiesApart(s, StatementSlots(s, style), vals)
  }

  // What `render` sends to a database with $n placeholders is read back as the
  // placeholders of its arguments, and nothing else, if and only if no slot that
  // is written as placeholders has a digit right after it.
  lemma RelexesExactly(s: string, d: Dialect, src: Source, pos: seq<Value>, vals: seq<Value>)
    requires d.numbered && PlanOf(s).Ok? && RenderPlan(PlanOf(s).value, d, src, pos).Ok?
    requires SlotValues(s, PlanOf(s).value.style, src, pos, vals) && Relexable(s, PlanOf(s).value.style, vals)
    requires IsInt64(|RenderPlan(PlanOf(s).value, d, src, pos).value.args|)
    ensures var sent := RenderPlan(PlanOf(s).value, d, src, pos).value;
            ReadsBack(sent.text, |sent.args|) <==> NoDigitAfter(s, StatementSlots(s, PlanOf(s).value.style), vals)
  {
    hide LexemeAt, Tokens, Params, RenderPlan, PlanOf, Substituted, EmptiesApart, AllLeftClean, OnlySlots, NoDigitAfter;
    hide SlotsOf;
    var style := PlanOf(s).value.style;
    var sent := RenderPlan(PlanOf(s).value, d, src, pos).value;
    SentIs(s, d, src, pos, vals);
    assert sent.text[0..] == sent.text;
    RelexFrom(d, s, 0, style, vals, 0, sent.text, 0);
    NoTokensAtEnd(sent.text);
    var all := Params(Tokens(sent.text, 0));
    if DigitFree(s, 0, style, vals) {
      assert all[..|sent.args|] == all;
    }
  }

  // What is sent, by either style.
  lemma SentIs(s: string, d: Dialect, src: Source, pos: seq<Value>, vals: seq<Value>)
    requires PlanOf(s).Ok? && RenderPlan(PlanOf(s).value, d, src, pos).Ok?
    requires PlanOf(s).value.style.NamedStyle? || PlanOf(s).value.style.OrdinalStyle?
    requires SlotValues(s, PlanOf(s).value.style, src, pos, vals)
    ensures var sent := RenderPlan(PlanOf(s).value, d, src, pos).value;
            && |vals| == |SlotsOf(Tokens(s, 0), PlanOf(s).value.style)|
            && sent == Substitution(d, s, Tokens(s, 0), PlanOf(s).value.style, vals, 0)
  {
    hide LexemeAt, Tokens, RenderPlan, PlanOf, Substituted, SlotsOf;
    if PlanOf(s).value.style.NamedStyle? {
      RenderNamed(s, d, src, pos);
      var slots := StatementSlots(s, NamedStyle);
      forall j | 0 <= j < |slots|
        ensures vals[j] == NamedValues(slots, src)[j]
      {
        assert ResolvesAt(slots, NamedStyle, src, pos, 0, vals, j);
      }
      assert vals == NamedValues(slots, src);
    } else {
      RenderOrdinal(s, d, src, pos);
      var slots := StatementSlots(s, OrdinalStyle);
      forall j | 0 <= j < |slots|
        ensures vals[j] == pos[j]
      {
        assert ResolvesAt(slots, OrdinalStyle, src, pos, 0, vals, j);
      }
      assert vals == pos;
    }
  }

  // A named parameter never has a digit after it, so a named statement is always
  // read back.
  lemma NamedRelexes(s: string, d: Dialect, src: Source, pos: seq<Value>, vals: seq<Value>)
    requires d.numbered && PlanOf(s).Ok? && RenderPlan(PlanOf(s).value, d, src, pos).Ok?
    requires PlanOf(s).value.style.NamedStyle?
    requires SlotValues(s, NamedStyle, src, pos, vals) && Relexable(s, NamedStyle, vals)
    requires IsInt64(|RenderPlan(PlanOf(s).value, d, src, pos).value.args|)
    ensures var sent := RenderPlan(PlanOf(s).value, d, src, pos).value; ReadsBack(sent.text, |sent.args|)
  {
    hide LexemeAt, Tokens, RenderPlan, PlanOf, SlotsOf, ReadsBack, EmptiesApart, AllLeftClean;
    var slots := StatementSlots(s, NamedStyle);
    forall j | 0 <= j < |slots|
      ensures !DigitAfter(s, slots[j])
    {
      NamedSlotEnds(s, 0, slots[j]);
    }
    RelexesExactly(s, d, src, pos, vals);
  }

  lemma {:induction false} NamedSlotEnds(s: string, i: nat, t: Token)
    requires i <= |s| && t in SlotsOf(Tokens(s, i), NamedStyle)
    ensures !DigitAfter(s, t)
    decreases |s| - i
  {
    hide LexemeAt, TextEnd;
    if i < |s| {
      FirstToken(s, i);
      TextEndStep'(s, i);
      SlotsAreSlots(Tokens(s, i), NamedStyle, t);
      if t == Tokens(s, i)[0] && !LexemeAt(s, i).kind.Text? {
        NamedLexemeEnds(s, i);
      } else {
        NamedSlotEnds(s, if LexemeAt(s, i).kind.Text? then TextEnd(s, i) else LexemeAt(s, i).hi, t);
      }
    }
  }

  lemma TextEndStep'(s: string, i: nat)
    requires i < |s|
    ensures i < LexemeAt(s, i).hi <= |s| && (LexemeAt(s, i).kind.Text? ==> i < TextEnd(s, i) <= |s|)
  {
    if LexemeAt(s, i).kind.Text? {
      TextEndStep(s, i);
    }
  }

  lemma {:induction false} SlotsAreSlots(toks: seq<Token>, style: Style, t: Token)
    requires t in SlotsOf(toks, style)
    ensures IsSlot(t, style) && t in toks
  {
    if !(IsSlot(toks[0], style) && t == toks[0]) {
      SlotsAreSlots(toks[1..], style, t);
    }
  }

  lemma NamedLexemeEnds(s: string, i: nat)
    requires i < |s| && LexemeAt(s, i).kind.Named?
    ensures !DigitAfter(s, LexemeAt(s, i))
  {
    IdentEndStops(s, i + 1);
  }

  lemma {:induction false} IdentEndStops(s: string, i: nat)
    requires i <= |s|
    ensures IdentEnd(s, i) < |s| ==> !IsIdentByte(s[IdentEnd(s, i)])
    decreases |s| - i
  {
    if i < |s| && IsIdentByte(s[i]) {
      IdentEndStops(s, i + 1);
    }
  }

  // A slot with a digit after it: "?5" is sent as "$15", one placeholder of
  // another number.
  lemma DigitMerges(d: Dialect, v: Value)
    requires d.numbered && !v.List?
    ensures PlanOf("?5").Ok?
    ensures RenderPlan(PlanOf("?5").value, d, None, [v]) == Ok(Rendered("$15", [v]))
    ensures Params(Tokens("$15", 0)) == [Token(Numbered, 0, 3, "", 15)]
  {
    var s := "?5";
    assert LexemeAt(s, 0) == Token(Ordinal, 0, 1, "", 0);
    assert LexemeAt(s, 1) == TextLexeme(1, 2);
    assert TextEnd(s, 2) == 2;
    assert TextEnd(s, 1) == 2;
    assert Tokens(s, 2) == [];
    assert Tokens(s, 1) == [TextLexeme(1, 2)];
    assert Tokens(s, 0) == [Token(Ordinal, 0, 1, "", 0), TextLexeme(1, 2)];
    MergedSlots(s, d, v);
    RenderOrdinal(s, d, None, [v]);
    MergedText(s, d, v);
    MergedTokens();
  }

  lemma MergedSlots(s: string, d: Dialect, v: Value)
    requires s == "?5" && Tokens(s, 0) == [Token(Ordinal, 0, 1, "", 0), TextLexeme(1, 2)]
    ensures PlanOf(s).Ok? && PlanOf(s).value.style == OrdinalStyle
    ensures |StatementSlots(s, OrdinalStyle)| == 1
  {
    var toks := Tokens(s, 0);
    assert toks[0] in toks;
    assert toks[1..] == [TextLexeme(1, 2)] && toks[1..][1..] == [];
    assert !Has(toks, Named) && !Has(toks, Numbered) && Has(toks, Ordinal);
    assert SlotsOf(toks[1..], OrdinalStyle) == [] + SlotsOf([], OrdinalStyle) == [];
    assert SlotsOf(toks, OrdinalStyle) == [toks[0]] + [];
  }

  lemma FrontSlot(d: Dialect, s: string, toks: seq<Token>, v: Value)
    requires toks != [] && toks[0].kind.Ordinal? && |SlotsOf(toks, OrdinalStyle)| == 1
    ensures |SlotsOf(toks[1..], OrdinalStyle)| == 0
    ensures Substituted(d, s, toks, OrdinalStyle, [v], 0)
         == SlotText(d, v, 0) + Substituted(d, s, toks[1..], OrdinalStyle, [], |Expansion(v)|)
  {
    hide SlotText;
    assert [v][1..] == [];
  }

  lemma FrontArgument(v: Value)
    requires !v.List?
    ensures Arguments([v]) == [v]
  {
    assert [v][1..] == [];
  }

  lemma MergedSlot(d: Dialect, v: Value)
    requires d.numbered && !v.List?
    ensures SlotText(d, v, 0) == "$1" && Expansion(v) == [v]
  {
    assert Decimal(1) == "1";
    assert PlaceholderList(d, 0, 1) == Placeholder(d, 1);
  }

  lemma MergedRest(s: string, d: Dialect, toks: seq<Token>)
    requires s == "?5" && toks == [TextLexeme(1, 2)]
    ensures SlotsOf(toks, OrdinalStyle) == [] && Substituted(d, s, toks, OrdinalStyle, [], 1) == "5"
  {
    assert toks[1..] == [];
    assert s[1..2] == "5";
  }

  lemma MergedText(s: string, d: Dialect, v: Value)
    requires d.numbered && !v.List? && s == "?5"
    requires Tokens(s, 0) == [Token(Ordinal, 0, 1, "", 0), TextLexeme(1, 2)]
    requires |StatementSlots(s, OrdinalStyle)| == 1
    ensures Substitution(d, s, Tokens(s, 0), OrdinalStyle, [v], 0) == Rendered("$15", [v])
  {
    hide Tokens, LexemeAt, SlotsOf, SlotText, Substituted, Arguments, Expansion;
    var toks := Tokens(s, 0);
    assert toks[1..] == [TextLexeme(1, 2)] && [v][1..] == [];
    MergedSlot(d, v);
    MergedRest(s, d, toks[1..]);
    FrontSlot(d, s, toks, v);
    FrontArgument(v);
    assert "$1" + "5" == "$15";
  }

  lemma MergedTokens()
    ensures Params(Tokens("$15", 0)) == [Token(Numbered, 0, 3, "", 15)]
  {
    var r := "$15";
    assert DigitEnd(r, 3) == 3;
    assert DigitEnd(r, 2) == 3;
    assert DigitsValue(r, 1, 1) == 0;
    assert DigitsValue(r, 1, 2) == 1;
    assert DigitsValue(r, 1, 3) == 15;
    assert LexemeAt(r, 0) == Token(Numbered, 0, 3, "", 15);
    assert Tokens(r, 3) == [];
    assert Tokens(r, 0) == [LexemeAt(r, 0)];
  }
}
