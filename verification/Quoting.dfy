// Quoting an identifier, and reading it back.

module Quoting {
  import opened Scanner

  function Doubled(name: string, q: char): string {
    if name == "" then ""
    else (if name[0] == q then [q, q] else [name[0]]) + Doubled(name[1..], q)
  }

  function Quoted(name: string, q: char): string {
    [q] + Doubled(name, q) + [q]
  }

  // The inverse of Doubled.
  function Undoubled(text: string, q: char): string {
    if text == "" then ""
    else if |text| > 1 && text[0] == q && text[1] == q then [q] + Undoubled(text[2..], q)
    else [text[0]] + Undoubled(text[1..], q)
  }

  lemma DoubledAppend(name: string, c: char, q: char)
    ensures Doubled(name + [c], q) == Doubled(name, q) + (if c == q then [q, q] else [c])
  {
    if name != "" {
      assert (name + [c])[1..] == name[1..] + [c];
      DoubledAppend(name[1..], c, q);
    }
  }

  // The buffer is allocated once, at exactly the size it needs.
  method QuoteWith(name: string, q: char) returns (text: string, capacity: nat)
    ensures text == Quoted(name, q)
    ensures capacity == |text|
  {
    var extra := 0;
    for i := 0 to |name|
      invariant extra >= 0 && |Doubled(name[..i], q)| == i + extra
    {
      DoubledAppend(name[..i], name[i], q);
      assert name[..i] + [name[i]] == name[..i + 1];
      if name[i] == q {
        extra := extra + 1;
      }
    }
    assert name[..|name|] == name;
    capacity := |name| + extra + 2;
    text := [q];
    for i := 0 to |name|
      invariant text == [q] + Doubled(name[..i], q)
    {
      DoubledAppend(name[..i], name[i], q);
      assert name[..i] + [name[i]] == name[..i + 1];
      if name[i] == q {
        text := text + [q];
      }
      text := text + [name[i]];
    }
    text := text + [q];
  }

  lemma {:induction false} UndoublingInverts(name: string, q: char)
    ensures Undoubled(Doubled(name, q), q) == name
  {
    if name != "" {
      var rest := Doubled(name[1..], q);
      UndoublingInverts(name[1..], q);
      if name[0] == q {
        assert Doubled(name, q)[2..] == rest;
      } else {
        assert Doubled(name, q)[1..] == rest;
      }
    }
  }

  lemma QuotedInjective(a: string, b: string, q: char)
    ensures Quoted(a, q) == Quoted(b, q) ==> a == b
  {
    if Quoted(a, q) == Quoted(b, q) {
      assert Quoted(a, q)[1..|Quoted(a, q)| - 1] == Doubled(a, q);
      assert Quoted(b, q)[1..|Quoted(b, q)| - 1] == Doubled(b, q);
      UndoublingInverts(a, q);
      UndoublingInverts(b, q);
    }
  }

  // Scanning a quoted name, anywhere in a statement, stops exactly at its closing quote.
  lemma {:induction false} ScanStopsAtClosingQuote(before: string, name: string, q: char, after: string)
    requires after == "" || after[0] != q
    ensures var s := before + Doubled(name, q) + [q] + after;
            QuotedEnd(s, |before|, q) == |s| - |after|
    decreases |name|
  {
    var s := before + Doubled(name, q) + [q] + after;
    var p := |before|;
    if name != "" {
      var c := name[0];
      var unit := if c == q then [q, q] else [c];
      assert s == (before + unit) + Doubled(name[1..], q) + [q] + after;
      ScanStopsAtClosingQuote(before + unit, name[1..], q, after);
      assert s[p] == c && (c == q ==> s[p + 1] == q);
    } else {
      assert s[p] == q;
      if after != "" {
        assert s[p + 1] == after[0];
      }
    }
  }

  // In code, a quoted name is one lexeme of text whatever the name holds.
  lemma QuotedNameIsOneLexeme(before: string, name: string, q: char, after: string)
    requires IsQuote(q)
    requires after == "" || after[0] != q
    ensures var s := before + Quoted(name, q) + after;
            LexemeAt(s, |before|) == TextLexeme(|before|, |before| + |Quoted(name, q)|)
  {
    var s := before + Quoted(name, q) + after;
    assert s == (before + [q]) + Doubled(name, q) + [q] + after;
    ScanStopsAtClosingQuote(before + [q], name, q, after);
    assert s[|before|] == q;
  }

  lemma QuotedNameIsOneToken(name: string, q: char)
    requires IsQuote(q)
    ensures Tokens(Quoted(name, q), 0) == [TextLexeme(0, |Quoted(name, q)|)]
  {
    var s := Quoted(name, q);
    assert "" + s + "" == s;
    QuotedNameIsOneLexeme("", name, q, "");
    assert TextEnd(s, 0) == |s|;
  }
}
