// Numerals: hexadecimal and decimal text of natural numbers, read back exactly.

module Text {
  import opened Types

  function Digit(base: nat, d: nat): char
    requires d < base <= 16
  {
    "0123456789abcdef"[d]
  }

  // The value of one digit, letters in either case.
  function DigitValue(c: char): Option<nat> {
    if '0' <= c <= '9' then Some(c as nat - '0' as nat)
    else if 'a' <= c <= 'f' then Some(c as nat - 'a' as nat + 10)
    else if 'A' <= c <= 'F' then Some(c as nat - 'A' as nat + 10)
    else None
  }

  // Letters count from ten in either case, and nothing else is a digit.
  lemma DigitsOfBothCases(c: char)
    ensures DigitValue(c) ==
            if c in "0123456789" then Some(c as nat - 48)
            else if c in "abcdef" then Some(c as nat - 87)
            else if c in "ABCDEF" then Some(c as nat - 55)
            else None
  {
    assert "0123456789"[0] == '0' && "0123456789"[9] == '9' && "abcdef"[0] == 'a' && "abcdef"[5] == 'f';
    if '0' <= c <= '9' {
      assert c == "0123456789"[c as nat - 48];
    } else if 'a' <= c <= 'f' {
      assert c == "abcdef"[c as nat - 97];
    } else if 'A' <= c <= 'F' {
      assert c == "ABCDEF"[c as nat - 65];
    }
  }

  function Numeral(base: nat, n: nat): string
    requires 2 <= base <= 16
  {
    if n < base then [Digit(base, n)] else Numeral(base, n / base) + [Digit(base, n % base)]
  }

  // Zero-padded on the left to at least the given width.
  function Padded(s: string, width: nat): string
    decreases width - |s|
  {
    if |s| < width then Padded("0" + s, width) else s
  }

  predicate IsNumeral(base: nat, s: string)
    requires 2 <= base <= 16
  {
    forall c :: c in s ==> DigitValue(c).Some? && DigitValue(c).value < base
  }

  // Reads digits most significant first.
  function ValueOf(base: nat, s: string): nat
    requires 2 <= base <= 16 && IsNumeral(base, s)
  {
    if s == "" then 0
    else
      assert s[|s| - 1] in s;
      ValueOf(base, s[..|s| - 1]) * base + DigitValue(s[|s| - 1]).value
  }

  lemma AppendDigit(base: nat, s: string, d: nat)
    requires 2 <= base <= 16 && d < base && IsNumeral(base, s)
    ensures IsNumeral(base, s + [Digit(base, d)])
    ensures ValueOf(base, s + [Digit(base, d)]) == ValueOf(base, s) * base + d
  {
    var z := s + [Digit(base, d)];
    assert IsNumeral(base, z);
    assert z[..|z| - 1] == s;
  }

  lemma DivideAndCombine(n: nat, base: nat)
    requires base > 0
    ensures n / base * base + n % base == n
  {
  }

  lemma {:induction false} NumeralRoundTrip(base: nat, n: nat)
    requires 2 <= base <= 16
    ensures IsNumeral(base, Numeral(base, n)) && ValueOf(base, Numeral(base, n)) == n
  {
    hide IsNumeral, ValueOf;
    if n < base {
      EmptyNumeral(base);
      AppendDigit(base, "", n);
      assert "" + [Digit(base, n)] == Numeral(base, n);
    } else {
      NumeralRoundTrip(base, n / base);
      AppendDigit(base, Numeral(base, n / base), n % base);
      DivideAndCombine(n, base);
    }
  }

  lemma EmptyNumeral(base: nat)
    requires 2 <= base <= 16
    ensures IsNumeral(base, "") && ValueOf(base, "") == 0
  {
  }

  // Decimal numerals consist of decimal digits.
  lemma {:induction false} DecimalDigits(n: nat)
    ensures Numeral(10, n) != "" && forall c :: c in Numeral(10, n) ==> '0' <= c <= '9'
  {
    if n >= 10 {
      DecimalDigits(n / 10);
    }
  }

  lemma {:induction false} LeadingZero(base: nat, s: string)
    requires 2 <= base <= 16 && IsNumeral(base, s)
    ensures IsNumeral(base, "0" + s) && ValueOf(base, "0" + s) == ValueOf(base, s)
  {
    var z := "0" + s;
    assert IsNumeral(base, z);
    if s != "" {
      assert z[..|z| - 1] == "0" + s[..|s| - 1];
      LeadingZero(base, s[..|s| - 1]);
    }
  }

  lemma {:induction false} PaddedRoundTrip(base: nat, s: string, width: nat)
    requires 2 <= base <= 16 && IsNumeral(base, s)
    ensures IsNumeral(base, Padded(s, width)) && ValueOf(base, Padded(s, width)) == ValueOf(base, s)
    ensures |Padded(s, width)| == if |s| < width then width else |s|
    decreases width - |s|
  {
    if |s| < width {
      LeadingZero(base, s);
      PaddedRoundTrip(base, "0" + s, width);
    }
  }

  // ---- Hexadecimal ------------------------------------------------------------

  function Hex(n: nat, width: nat): string {
    Padded(Numeral(16, n), width)
  }

  lemma HexRoundTrip(n: nat, width: nat)
    ensures IsNumeral(16, Hex(n, width)) && ValueOf(16, Hex(n, width)) == n
  {
    NumeralRoundTrip(16, n);
    PaddedRoundTrip(16, Numeral(16, n), width);
  }

  function Power(base: nat, e: nat): nat {
    if e == 0 then 1 else base * Power(base, e - 1)
  }

  lemma {:induction false} NumeralLength(base: nat, n: nat, e: nat)
    requires 2 <= base <= 16 && e > 0 && n < Power(base, e)
    ensures |Numeral(base, n)| <= e
  {
    PowerStep(base, e);
    hide Power;
    if n >= base {
      DivideBelow(n, base, Power(base, e - 1));
      NumeralLength(base, n / base, e - 1);
    }
  }

  lemma PowerStep(base: nat, e: nat)
    requires e > 0
    ensures Power(base, e) == base * Power(base, e - 1) && (e == 1 ==> Power(base, e) == base)
  {
    if e == 1 {
      assert Power(base, 0) == 1;
    }
  }

  lemma DivideBelow(n: nat, base: nat, p: nat)
    requires base > 0 && n < base * p
    ensures n / base < p
  {
    DivideAndCombine(n, base);
    assert n / base * base < p * base;
  }

  lemma {:induction false} ValueBound(base: nat, s: string)
    requires 2 <= base <= 16 && IsNumeral(base, s)
    ensures ValueOf(base, s) < Power(base, |s|)
  {
    if s != "" {
      ValueBound(base, s[..|s| - 1]);
      assert s[|s| - 1] in s;
      NextDigitBound(ValueOf(base, s[..|s| - 1]), Power(base, |s| - 1), base, DigitValue(s[|s| - 1]).value);
    }
  }

  lemma NextDigitBound(v: nat, p: nat, base: nat, d: nat)
    requires v < p && d < base
    ensures v * base + d < base * p
  {
    var gap := p - v - 1;
    assert base * p == base * v + base + base * gap;
    assert base * gap >= 0;
  }

  lemma Power64()
    ensures Power(16, 16) == 0x1_0000_0000_0000_0000
  {
    assert Power(16, 4) == 0x1_0000;
    assert Power(16, 8) == 0x1_0000_0000;
    assert Power(16, 12) == 0x1_0000_0000_0000;
  }

  // ---- Splitting at a separator --------------------------------------------------

  lemma SplitUnique(a: string, b: string, c: string, d: string, sep: char)
    requires sep !in a && sep !in c
    requires a + [sep] + b == c + [sep] + d
    ensures a == c && b == d
  {
    var s, t := a + [sep] + b, c + [sep] + d;
    assert s[|a|] == sep && t[|c|] == sep;
    assert forall i :: 0 <= i < |a| ==> s[i] == a[i];
    assert forall i :: 0 <= i < |c| ==> t[i] == c[i];
    assert |a| == |c|;
    assert a == s[..|a|] && c == t[..|c|];
    assert b == s[|a| + 1..] && d == t[|c| + 1..];
  }
}
