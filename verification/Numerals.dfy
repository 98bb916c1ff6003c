// Decimal numerals, as placeholders and savepoint names spell them.

module Numerals {
  import opened Integers
  import opened Scanner

  function Digit(n: nat): (c: char)
    requires n < 10
    ensures IsDigit(c) && c as int - '0' as int == n
  {
    '0' + n as char
  }

  function Decimal(n: nat): (text: string)
    ensures text != ""
    ensures forall k :: 0 <= k < |text| ==> IsDigit(text[k])
  {
    if n < 10 then [Digit(n)] else Decimal(n / 10) + [Digit(n % 10)]
  }

  lemma {:induction false} DecimalInjective(m: nat, n: nat)
    requires Decimal(m) == Decimal(n)
    ensures m == n
  {
    var a, b := Decimal(m), Decimal(n);
    assert a[|a| - 1] == b[|b| - 1];
    if m >= 10 && n >= 10 {
      assert a[..|a| - 1] == Decimal(m / 10);
      assert b[..|b| - 1] == Decimal(n / 10);
      DecimalInjective(m / 10, n / 10);
    }
  }

  // The scanner reads a numeral back as the number it spells, as long as the
  // number fits in the scanner's 64-bit integer.
  lemma {:induction false} DigitsValueReadsDecimal(s: string, i: nat, n: nat)
    requires i + |Decimal(n)| <= |s|
    requires s[i..i + |Decimal(n)|] == Decimal(n)
    requires IsInt64(n)
    ensures DigitsValue(s, i, i + |Decimal(n)|) == n
  {
    var text := Decimal(n);
    var j := i + |text|;
    assert s[j - 1] == s[i..j][|text| - 1];
    if n < 10 {
      assert DigitsValue(s, i, i) == 0;
    } else {
      assert s[i..j - 1] == text[..|text| - 1] == Decimal(n / 10);
      DigitsValueReadsDecimal(s, i, n / 10);
    }
  }

  lemma {:induction false} DigitEndReadsDecimal(s: string, i: nat, j: nat)
    requires i <= j <= |s|
    requires forall k :: i <= k < j ==> IsDigit(s[k])
    requires j < |s| ==> !IsDigit(s[j])
    ensures DigitEnd(s, i) == j
    decreases j - i
  {
    if i < j {
      DigitEndReadsDecimal(s, i + 1, j);
    }
  }
}
