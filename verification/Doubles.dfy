// Doubles: what the printer leaves of them, and what comes back.

module Doubles {
  import opened Text

  // ---- Numbers ------------------------------------------------------------------------

  function Squared(x: real, times: nat): real
    decreases times
  {
    if times == 0 then x else Squared(x * x, times - 1)
  }

  // From here on a number rounds to infinity: 2^1024 less half a step of the largest doubles.
  const OVERFLOW: real := Squared(2.0, 10) - Squared(2.0, 10) / 18014398509481984.0

  type Magnitude = x: real | 0.0 <= x < OVERFLOW witness 0.0

  // The sign is kept apart, so there is a negative zero.
  datatype Float64 = Finite(negative: bool, size: Magnitude) | Infinite(negative: bool) | NotANumber

  // A real number as a double.
  function FromReal(x: real): Float64 {
    var size := if x < 0.0 then -x else x;
    if size < OVERFLOW then Finite(x < 0.0, size) else Infinite(x < 0.0)
  }

  // The real number of a double; the bound stands for infinity.
  function ToReal(f: Float64): real {
    match f
    case Finite(negative, size) => if negative then 0.0 - size else size
    case Infinite(negative) => if negative then -OVERFLOW else OVERFLOW
    case NotANumber => 0.0
  }

  // ---- Rounding -------------------------------------------------------------------------

  // To the nearest integer, ties to the even one.
  function RoundEven(y: real): int {
    var f := y.Floor;
    var part := y - f as real;
    if part < 0.5 || (part == 0.5 && f % 2 == 0) then f else f + 1
  }

  lemma RoundsToNearest(y: real, n: int)
    ensures -0.5 <= RoundEven(y) as real - y <= 0.5
    ensures RoundEven(n as real) == n
    ensures y <= n as real ==> RoundEven(y) <= n
    ensures y >= n as real ==> RoundEven(y) >= n
  {
  }

  // Half way between two integers the even one is taken.
  lemma TiesGoToEven(n: int)
    ensures RoundEven(n as real + 0.5) == if n % 2 == 0 then n else n + 1
  {
    assert (n as real + 0.5).Floor == n;
  }

  lemma OverflowBound()
    ensures OVERFLOW == 179769313486231580793728971405303415079934132710037826936173778980444968292764750946649017977587207096330286416692887910946555547851940402630657488671505820681908902000708383676273854845817711531764475730270069855571366959622842914819860834936475292719074168444365510704342711559699508093042880177904174497792.0
  {
  }

  const MILLION: nat := 1_000_000

  // In millionths.
  function Micros(size: Magnitude): (n: nat) {
    RoundsToNearest(size * 1_000_000.0, 0);
    RoundEven(size * 1_000_000.0)
  }

  // ---- Text -----------------------------------------------------------------------------

  function Sign(negative: bool): string {
    if negative then "-" else ""
  }

  function Places(n: nat): string {
    Padded(Numeral(10, n % MILLION), 6)
  }

  function SixDecimals(negative: bool, size: Magnitude): string {
    Sign(negative) + Numeral(10, Micros(size) / MILLION) + "." + Places(Micros(size))
  }

  function StripZeros(s: string): string {
    if s != "" && s[|s| - 1] == '0' then StripZeros(s[..|s| - 1]) else s
  }

  // Without trailing zeros, and without the point if nothing is left behind it.
  function Shortened(s: string): string {
    var r := StripZeros(s);
    if r != "" && r[|r| - 1] == '.' then r[..|r| - 1] else r
  }

  function FloatText(f: Float64): string {
    match f
    case Finite(negative, size) => Shortened(SixDecimals(negative, size))
    case Infinite(negative) => Sign(negative) + "1e9999"
    case NotANumber => "null"
  }

  // The point and the places that are left, or nothing.
  function Tail(n: nat): string {
    var f := StripZeros(Places(n));
    if f == "" then "" else "." + f
  }

  lemma {:induction false} StripBehindPoint(a: string, f: string)
    ensures StripZeros(a + "." + f) == a + "." + StripZeros(f)
    decreases |f|
  {
    if f != "" && f[|f| - 1] == '0' {
      assert (a + "." + f)[..|a + "." + f| - 1] == a + "." + f[..|f| - 1];
      StripBehindPoint(a, f[..|f| - 1]);
    }
  }

  lemma FiniteText(negative: bool, size: Magnitude)
    ensures var n := Micros(size); FloatText(Finite(negative, size)) == Sign(negative) + Numeral(10, n / MILLION) + Tail(n)
  {
    hide Numeral, Padded, Micros;
    var n := Micros(size);
    var a, f := Sign(negative) + Numeral(10, n / MILLION), Places(n);
    StripBehindPoint(a, f);
    var r := a + "." + StripZeros(f);
    if StripZeros(f) == "" {
      assert r[..|r| - 1] == a;
    } else {
      StrippedEnd(f);
      assert r[|r| - 1] == StripZeros(f)[|StripZeros(f)| - 1];
      PlacesAreDigits(n);
      assert r == a + Tail(n);
    }
  }

  lemma {:induction false} StrippedEnd(f: string)
    ensures var s := StripZeros(f); s <= f && (s != "" ==> s[|s| - 1] != '0')
  {
    if f != "" && f[|f| - 1] == '0' {
      StrippedEnd(f[..|f| - 1]);
    }
  }

  predicate AllDigits(s: string) {
    forall i :: 0 <= i < |s| ==> '0' <= s[i] <= '9'
  }

  lemma {:induction false} PaddedDigits(s: string, width: nat)
    requires AllDigits(s)
    ensures AllDigits(Padded(s, width))
    decreases width - |s|
  {
    if |s| < width {
      PaddedDigits("0" + s, width);
    }
  }

  lemma NumeralIsDigits(n: nat)
    ensures Numeral(10, n) != "" && AllDigits(Numeral(10, n))
  {
    DecimalDigits(n);
    var s := Numeral(10, n);
    assert forall i :: 0 <= i < |s| ==> s[i] in s;
  }

  lemma PlacesAreDigits(n: nat)
    ensures AllDigits(Places(n)) && AllDigits(StripZeros(Places(n)))
  {
    NumeralIsDigits(n % MILLION);
    PaddedDigits(Numeral(10, n % MILLION), 6);
    StrippedEnd(Places(n));
  }

  lemma DigitsAreNumeral(s: string)
    requires AllDigits(s)
    ensures IsNumeral(10, s)
  {
  }

  // ---- The number a text denotes -----------------------------------------------------------

  lemma {:induction false} PowerAdds(a: nat, b: nat)
    ensures Power(10, a + b) == Power(10, a) * Power(10, b)
    decreases a
  {
    if a > 0 {
      PowerAdds(a - 1, b);
      Associates(10, Power(10, a - 1), Power(10, b));
    }
  }

  lemma Associates(a: int, b: int, c: int)
    ensures a * (b * c) == a * b * c
  {
  }

  lemma {:induction false} PowerIsPositive(e: nat)
    ensures Power(10, e) > 0
  {
    if e > 0 {
      PowerIsPositive(e - 1);
    }
  }

  // Digits written one behind the other.
  lemma {:induction false} ValueJoins(a: string, b: string)
    requires IsNumeral(10, a) && IsNumeral(10, b)
    ensures IsNumeral(10, a + b) && ValueOf(10, a + b) == ValueOf(10, a) * Power(10, |b|) + ValueOf(10, b)
    decreases |b|
  {
    assert IsNumeral(10, a + b);
    if b == "" {
      assert a + b == a;
    } else {
      var n := |b| - 1;
      assert (a + b)[..|a + b| - 1] == a + b[..n];
      assert IsNumeral(10, b[..n]);
      ValueJoins(a, b[..n]);
      Associates(ValueOf(10, a), Power(10, n), 10);
    }
  }

  lemma LastDigit(g: string, c: char)
    requires '0' <= c <= '9' && IsNumeral(10, g)
    ensures IsNumeral(10, g + [c]) && ValueOf(10, g + [c]) == 10 * ValueOf(10, g) + (c as nat - '0' as nat)
  {
    assert (g + [c])[..|g|] == g;
    assert IsNumeral(10, g + [c]);
  }

  // What stripping takes away is a power of ten, and what it leaves is not zero.
  lemma {:induction false} StrippedValue(f: string)
    requires AllDigits(f)
    ensures var s := StripZeros(f);
            && |s| <= |f| && IsNumeral(10, f) && IsNumeral(10, s)
            && ValueOf(10, f) == ValueOf(10, s) * Power(10, |f| - |s|)
            && (s != "" ==> ValueOf(10, s) > 0)
  {
    hide IsNumeral, ValueOf;
    NoDigits();
    if f != "" {
      var n := |f| - 1;
      var g := f[..n];
      StrippedValue(g);
      LastDigit(g, f[n]);
      assert f == g + [f[n]];
      if f[n] == '0' {
        var s := StripZeros(g);
        assert Power(10, |f| - |s|) == 10 * Power(10, n - |s|);
        Rearranged(ValueOf(10, s), Power(10, n - |s|));
      }
    }
  }

  lemma Rearranged(a: int, b: int)
    ensures 10 * (a * b) == a * (10 * b)
  {
  }

  // A number of n millionths: its whole part and what is left of its places.
  lemma ShortenedValue(n: nat)
    ensures var w, f := Numeral(10, n / MILLION), StripZeros(Places(n));
            && IsNumeral(10, w + f) && Power(10, |f|) > 0
            && ValueOf(10, w + f) as real / Power(10, |f|) as real == n as real / 1_000_000.0
            && (f == "" <==> n % MILLION == 0)
  {
    hide Numeral, Padded, StripZeros, IsNumeral, ValueOf, Power, AllDigits, Places;
    var k, rest := n / MILLION, n % MILLION;
    var w, p := Numeral(10, k), Places(n);
    var f := StripZeros(p);
    SixPlaces(n);
    NumeralRoundTrip(10, k);
    PlacesAreDigits(n);
    StrippedValue(p);
    ValueJoins(w, f);
    PowerIsPositive(|f|);
    PowerIsPositive(6 - |f|);
    PowerAdds(|f|, 6 - |f|);
    var a, b, v := Power(10, |f|), Power(10, 6 - |f|), ValueOf(10, f);
    assert a * b == MILLION;
    Proportion(k, a, b, v);
    assert n == k * MILLION + v * b;
    if f == "" {
      NoDigits();
    } else {
      Positive(v, b);
    }
  }

  lemma Positive(v: nat, b: nat)
    requires v > 0 && b > 0
    ensures v * b > 0
  {
  }

  lemma NoDigits()
    ensures IsNumeral(10, "") && ValueOf(10, "") == 0
  {
  }

  lemma SixPlaces(n: nat)
    ensures |Places(n)| == 6 && IsNumeral(10, Places(n)) && ValueOf(10, Places(n)) == n % MILLION
    ensures Power(10, 6) == MILLION
  {
    NumeralRoundTrip(10, n % MILLION);
    PaddedRoundTrip(10, Numeral(10, n % MILLION), 6);
    assert Power(10, 6) == MILLION;
    NumeralLength(10, n % MILLION, 6);
  }

  lemma Proportion(k: nat, a: nat, b: nat, v: nat)
    requires a > 0 && b > 0 && a * b == MILLION
    ensures (k * a + v) as real / a as real == (k * MILLION + v * b) as real / 1_000_000.0
  {
    var x := (k * a + v) as real;
    assert (k * a + v) * b == k * (a * b) + v * b;
    assert x * b as real == (k * MILLION + v * b) as real;
    assert a as real * b as real == 1_000_000.0;
    Extend(x, a as real, b as real);
  }

  lemma Extend(x: real, a: real, b: real)
    requires a > 0.0 && b > 0.0
    ensures a * b > 0.0 && x / a == (x * b) / (a * b)
  {
    var q := x / a;
    assert q * a == x;
    assert q * (a * b) == x * b;
  }

  lemma MicrosAreNear(size: Magnitude, top: nat)
    ensures var y := Micros(size) as real / 1_000_000.0;
            -0.000_000_5 <= y - size <= 0.000_000_5 && (size <= top as real ==> y <= top as real)
    ensures size <= top as real ==> Micros(size) <= top * MILLION
  {
    RoundsToNearest(size * 1_000_000.0, top * MILLION);
    hide RoundEven;
    assert (top * MILLION) as real == top as real * 1_000_000.0;
  }

  // Rounding again changes nothing.
  lemma MicrosAreKept(n: nat)
    requires n as real / 1_000_000.0 < OVERFLOW
    ensures Micros(n as real / 1_000_000.0) == n
  {
    RoundsToNearest(0.0, n);
    assert n as real / 1_000_000.0 * 1_000_000.0 == n as real;
  }

  // Rounding stays below infinity.
  lemma RoundedIsFinite(size: Magnitude)
    requires Micros(size) % MILLION != 0
    ensures Micros(size) as real / 1_000_000.0 < OVERFLOW
  {
  }

  // ---- Infinity ------------------------------------------------------------------------------

  lemma PowerOne()
    ensures Power(10, 1) == 10
  {
  }

  lemma PowerGrows(a: nat, b: nat)
    requires a <= b
    ensures Power(10, a) <= Power(10, b)
  {
    hide Power;
    PowerAdds(a, b - a);
    PowerIsPositive(a);
    PowerIsPositive(b - a);
    Multiplied(Power(10, a), Power(10, b - a));
  }

  lemma Multiplied(a: nat, b: nat)
    requires b > 0
    ensures a <= a * b
  {
  }

  lemma HugeExponent()
    ensures Power(10, 9999) as real >= OVERFLOW
  {
    hide Power;
    PowerOne();
    PowerAdds(1, 1);
    PowerAdds(2, 2);
    PowerAdds(4, 4);
    PowerAdds(8, 8);
    PowerAdds(16, 16);
    PowerAdds(32, 32);
    PowerAdds(64, 64);
    PowerAdds(128, 128);
    PowerAdds(256, 256);
    PowerGrows(512, 9999);
  }
}
