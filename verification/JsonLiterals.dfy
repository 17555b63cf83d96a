// What the numbers of a JSON text mean: whole ones, fractions and powers of ten.

module JsonLiterals {
  import opened Types
  import opened Text
  import opened Doubles
  import opened JsonValues
  import opened JsonGrammar
  import opened JsonNumbers

  // ---- Numbers ----------------------------------------------------------------------------

  datatype Exponent = NoExponent | Power10(mark: char, sign: string, digits: string)

  // Sign, digits, perhaps a point with more digits, perhaps an exponent.
  datatype Numeric = Numeric(negative: bool, whole: string, point: bool, fraction: string, exponent: Exponent)

  predicate ValidExponent(x: Exponent) {
    x.Power10? ==> x.mark in {'e', 'E'} && x.sign in {"", "+", "-"} && x.digits != "" && AllDigits(x.digits)
  }

  predicate ValidNumeric(n: Numeric) {
    && AllDigits(n.whole) && AllDigits(n.fraction) && (!n.point ==> n.fraction == "") && (n.whole != "" || n.fraction != "")
    && ValidExponent(n.exponent)
  }

  function TailText(n: Numeric): string {
    if n.point then ['.'] + n.fraction else ""
  }

  function ExponentText(x: Exponent): string {
    if x.NoExponent? then "" else [x.mark] + (x.sign + x.digits)
  }

  function NumericText(n: Numeric): string {
    Sign(n.negative) + (n.whole + (TailText(n) + ExponentText(n.exponent)))
  }

  // Without a point and an exponent it is an integer.
  predicate IsWhole(n: Numeric) {
    !n.point && n.exponent.NoExponent?
  }

  // size is the number that the digits denote: their value, divided by ten for each digit behind
  // the point, times or divided by the power of ten.
  ghost predicate Denotes(n: Numeric, size: real)
    requires ValidNumeric(n)
  {
    var digits := DigitsOf(n) as real;
    var shifted := size * Power(10, |n.fraction|) as real;
    match n.exponent
    case NoExponent => shifted == digits
    case Power10(_, sign, ds) =>
      DigitsAreNumeral(ds);
      var power := Power(10, ValueOf(10, ds)) as real;
      if sign == "-" then shifted * power == digits else shifted == digits * power
  }

  // Where the parts of a number end.
  lemma SignedDigitsAt(t: string, p: nat, sign: string, ds: string)
    requires sign in {"", "+", "-"} && ds != "" && AllDigits(ds) && StartsAt(t, p, sign + ds)
    requires NumberStops(t, p + |sign + ds|)
    ensures var q := p + |sign|;
            && p < |t| && q < |t| && q == (if t[p] == '+' || t[p] == '-' then p + 1 else p)
            && DigitsEnd(t, q) == q + |ds| <= |t| && (t[p] == '-' <==> sign == "-")
  {
    hide DigitsEnd, StartsAt;
    StartsSplit(t, p, sign, ds);
    CharactersAt(t, p, sign);
    DigitsAt(t, p + |sign|, ds);
  }

  lemma ExponentEnds(t: string, p: nat, x: Exponent)
    requires ValidExponent(x) && StartsAt(t, p, ExponentText(x)) && NumberStops(t, p + |ExponentText(x)|)
    ensures p + |ExponentText(x)| <= |t| && ExponentEnd(t, p) == p + |ExponentText(x)| && FractionEnd(t, p) == p
    ensures p < |t| ==> !IsDigit(t[p])
  {
    hide DigitsEnd, StartsAt, AllDigits;
    if x.Power10? {
      StartsWith(t, p, x.mark, x.sign + x.digits);
      SignedDigitsAt(t, p + 1, x.sign, x.digits);
    } else {
      StartsAtMeans(t, p, "");
    }
  }

  lemma TailEnds(t: string, p: nat, n: Numeric)
    requires ValidNumeric(n) && StartsAt(t, p, TailText(n) + ExponentText(n.exponent))
    requires NumberStops(t, p + |TailText(n) + ExponentText(n.exponent)|)
    ensures var q := p + |TailText(n)|;
            && q + |ExponentText(n.exponent)| <= |t| && FractionEnd(t, p) == q
            && ExponentEnd(t, q) == q + |ExponentText(n.exponent)|
    ensures p < |t| ==> !IsDigit(t[p])
  {
    hide DigitsEnd, StartsAt, AllDigits, ExponentText, ExponentEnd;
    StartsSplit(t, p, TailText(n), ExponentText(n.exponent));
    var q := p + |TailText(n)|;
    ExponentEnds(t, q, n.exponent);
    if n.point {
      StartsWith(t, p, '.', n.fraction);
      DigitsAt(t, p + 1, n.fraction);
    }
  }

  lemma FrontEnds(t: string, p: nat, negative: bool, w: string, rest: string)
    requires StartsAt(t, p, Sign(negative) + (w + rest)) && AllDigits(w) && w + rest != ""
    requires w == "" ==> rest[0] == '.'
    requires rest != "" ==> !IsDigit(rest[0])
    requires rest == "" ==> NumberStops(t, p + |Sign(negative)| + |w|)
    ensures var start := p + |Sign(negative)|;
            && p < |t| && start <= |t| && BehindSign(t, p) == start && DigitsEnd(t, start) == start + |w| <= |t|
            && StartsAt(t, start + |w|, rest) && (t[p] == '-' <==> negative)
  {
    hide DigitsEnd, StartsAt, AllDigits, NumberStops;
    var start := p + |Sign(negative)|;
    StartsSplit(t, p, Sign(negative), w + rest);
    StartsSplit(t, start, w, rest);
    FirstAt(t, p, Sign(negative));
    FirstAt(t, start, w);
    FirstAt(t, start + |w|, rest);
    if rest == "" {
      StoppedIsNoDigit(t, start + |w|);
    }
    if w != "" {
      FirstDigit(w);
    }
    DigitsAt(t, start, w);
  }

  lemma FirstAt(t: string, p: nat, s: string)
    requires StartsAt(t, p, s)
    ensures p + |s| <= |t| && (s != "" ==> t[p] == s[0])
  {
    hide StartsAt;
    CharactersAt(t, p, s);
  }

  lemma StoppedIsNoDigit(t: string, p: nat)
    requires NumberStops(t, p)
    ensures p < |t| ==> !IsDigit(t[p])
  {
  }

  lemma FirstDigit(w: string)
    requires AllDigits(w) && w != ""
    ensures IsDigit(w[0])
  {
  }

  lemma RestShape(n: Numeric)
    requires ValidNumeric(n)
    ensures var rest := TailText(n) + ExponentText(n.exponent);
            && (n.whole == "" ==> rest != "" && rest[0] == '.') && (rest != "" ==> !IsDigit(rest[0]))
            && |NumericText(n)| == |Sign(n.negative)| + |n.whole| + |rest|
  {
  }

  lemma NumericEnds(t: string, p: nat, n: Numeric)
    requires ValidNumeric(n) && StartsAt(t, p, NumericText(n)) && NumberStops(t, p + |NumericText(n)|)
    ensures var start := p + |Sign(n.negative)|;
            var whole := start + |n.whole|;
            var mantissa := whole + |TailText(n)|;
            && p < |t| && BehindSign(t, p) == start && start <= |t| && DigitsEnd(t, start) == whole && whole <= |t|
            && FractionEnd(t, whole) == mantissa && mantissa <= |t|
            && ExponentEnd(t, mantissa) == p + |NumericText(n)| <= |t|
            && (t[p] == '-' <==> n.negative)
  {
    hide DigitsEnd, StartsAt, AllDigits, FractionEnd, ExponentEnd, TailText, ExponentText, BehindSign, NumberStops, ValidExponent;
    var rest := TailText(n) + ExponentText(n.exponent);
    RestShape(n);
    FrontEnds(t, p, n.negative, n.whole, rest);
    TailEnds(t, p + |Sign(n.negative)| + |n.whole|, n);
  }

  // ---- What the token denotes --------------------------------------------------------------

  lemma ExponentMeans(tok: string, p: nat, x: Exponent)
    requires ValidExponent(x) && p <= |tok| && tok[p..] == ExponentText(x)
    ensures ExponentEnd(tok, p) == |tok|
    ensures match x
            case NoExponent => ExponentAt(tok, p) == 0
            case Power10(_, sign, ds) =>
              && IsNumeral(10, ds) && IsDigit(tok[|tok| - 1])
              && ExponentAt(tok, p) == (if sign == "-" then 0 - ValueOf(10, ds) else ValueOf(10, ds))
  {
    hide DigitsEnd, StartsAt, ValueOf, IsNumeral;
    assert StartsAt(tok, p, ExponentText(x)) by {
      WholeRestAt(tok, p);
    }
    ExponentEnds(tok, p, x);
    if x.Power10? {
      StartsWith(tok, p, x.mark, x.sign + x.digits);
      SignedDigitsAt(tok, p + 1, x.sign, x.digits);
      DigitsAreNumeral(x.digits);
      assert tok[p + 1..] == tok[p..][1..] == x.sign + x.digits;
      assert tok[p + 1 + |x.sign|..] == x.digits;
      assert tok[|tok| - 1] == x.digits[|x.digits| - 1];
    }
  }

  lemma WholeRestAt(t: string, p: nat)
    requires p <= |t|
    ensures StartsAt(t, p, t[p..]) && NumberStops(t, |t|)
  {
  }

  lemma ScaledBy(n: nat, places: nat, e: int)
    ensures var r := Scaled(n, e - places) * Power(10, places) as real;
            if e >= 0 then r == n as real * Power(10, e) as real else r * Power(10, -e) as real == n as real
  {
    hide Power;
    PowerIsPositive(places);
    if e >= places {
      PowerAdds(e - places, places);
      ScaleUpBy(n as real, Power(10, e - places) as real, Power(10, places) as real, Power(10, e) as real);
    } else if e >= 0 {
      PowerAdds(e, places - e);
      PowerIsPositive(places - e);
      ScaleDownBy(n as real, Power(10, places - e) as real, Power(10, e) as real, Power(10, places) as real);
    } else {
      PowerAdds(places, -e);
      PowerIsPositive(places - e);
      ScaleBackBy(n as real, Power(10, places - e) as real, Power(10, places) as real, Power(10, -e) as real);
    }
  }

  lemma ScaleUpBy(n: real, a: real, b: real, c: real)
    requires a * b == c
    ensures (n * a) * b == n * c
  {
  }

  lemma ScaleDownBy(n: real, a: real, b: real, c: real)
    requires a > 0.0 && b * a == c
    ensures (n / a) * c == n * b
  {
    var q := n / a;
    assert q * a == n;
    assert q * c == q * a * b;
  }

  lemma ScaleBackBy(n: real, a: real, b: real, c: real)
    requires a > 0.0 && b * c == a
    ensures (n / a) * b * c == n
  {
    var q := n / a;
    assert q * b * c == q * (b * c);
  }

  lemma WholeMeans(n: Numeric)
    requires ValidNumeric(n) && IsWhole(n)
    ensures var tok := NumericText(n);
            && IsNumeral(10, n.whole) && ReadsAsInteger(tok)
            && IntegerOf(tok) == WholeNumber(n.negative, ValueOf(10, n.whole))
  {
    hide ValueOf, WholeNumber;
    var tok := NumericText(n);
    DigitsAreNumeral(n.whole);
    assert tok == Sign(n.negative) + n.whole;
    assert BehindSign(tok, 0) == |Sign(n.negative)|;
    assert tok[|Sign(n.negative)|..] == n.whole;
  }

  lemma DecimalParts(n: Numeric)
    requires ValidNumeric(n)
    ensures var tok := NumericText(n);
            var start := |Sign(n.negative)|;
            var whole := start + |n.whole|;
            var mantissa := whole + |TailText(n)|;
            && mantissa <= |tok| && tok[start..whole] == n.whole && tok[mantissa..] == ExponentText(n.exponent)
            && (if mantissa == whole then "" else tok[whole + 1..mantissa]) == n.fraction
  {
    hide ExponentText, AllDigits;
    PartsOfText(Sign(n.negative), n.whole, TailText(n), ExponentText(n.exponent));
  }

  lemma PartsOfText(a: string, b: string, c: string, d: string)
    ensures var tok := a + (b + (c + d));
            && |tok| == |a| + |b| + |c| + |d| && tok[|a|..|a| + |b|] == b && tok[|a| + |b| + |c|..] == d
            && tok[|a| + |b|..|a| + |b| + |c|] == c
            && (c != "" ==> tok[|a| + |b| + 1..|a| + |b| + |c|] == c[1..])
  {
    var tok := a + (b + (c + d));
    assert tok[|a|..] == b + (c + d);
    assert tok[|a| + |b|..] == c + d;
  }

  lemma ReadsDecimal(n: Numeric)
    requires ValidNumeric(n)
    ensures ReadsAsDecimal(NumericText(n)) && NumericText(n) != "" && (NumericText(n)[0] == '-' <==> n.negative)
  {
    hide DigitsEnd, FractionEnd, ExponentEnd, BehindSign, AllDigits, StartsAt, NumberStops, ExponentText, TailText, NumericText, Sign;
    hide ValidExponent;
    var tok := NumericText(n);
    WholeText(tok);
    NumericEnds(tok, 0, n);
    NoTail(n);
    LastDigitIfExponent(n);
  }

  lemma LastDigitIfExponent(n: Numeric)
    requires ValidNumeric(n)
    ensures var tok := NumericText(n); tok != "" && (n.exponent.Power10? ==> IsDigit(tok[|tok| - 1]))
    ensures n.exponent.NoExponent? ==> ExponentText(n.exponent) == ""
    ensures |TailText(n)| == if n.point then 1 + |n.fraction| else 0
  {
    hide ExponentEnd, ExponentAt, NumericText;
    NoTail(n);
    DecimalParts(n);
    ExponentMeans(NumericText(n), |Sign(n.negative)| + |n.whole| + |TailText(n)|, n.exponent);
  }

  // The digits in front of the point and behind it, read as one number.
  function DigitsOf(n: Numeric): nat
    requires ValidNumeric(n)
  {
    DigitsJoin(n.whole, n.fraction);
    ValueOf(10, n.whole + n.fraction)
  }

  lemma SizeInParts(n: Numeric, tok: string, mantissa: nat)
    requires ValidNumeric(n) && tok == NumericText(n) && ReadsAsDecimal(tok)
    requires mantissa <= |tok| && ExponentEnd(tok, mantissa) == |tok|
    requires mantissa == |Sign(n.negative)| + |n.whole| + |TailText(n)|
    ensures DecimalSize(tok) == Scaled(DigitsOf(n), ExponentAt(tok, mantissa) - |n.fraction|)
  {
    hide DigitsEnd, FractionEnd, ExponentEnd, BehindSign, ExponentAt, IsNumeral, ValueOf, Scaled, AllDigits, ReadsAsDecimal;
    hide StartsAt, NumberStops, ExponentText, NumericText, TailText, Sign, ValidExponent, DigitsOf;
    WholeText(tok);
    NumericEnds(tok, 0, n);
    DecimalParts(n);
    DigitsAre(n);
  }

  lemma DigitsAre(n: Numeric)
    requires ValidNumeric(n)
    ensures IsNumeral(10, n.whole + n.fraction) && DigitsOf(n) == ValueOf(10, n.whole + n.fraction)
  {
    hide ValueOf;
    DigitsJoin(n.whole, n.fraction);
  }

  lemma DigitsJoin(a: string, b: string)
    requires AllDigits(a) && AllDigits(b)
    ensures IsNumeral(10, a + b)
  {
    DigitsAreNumeral(a + b);
  }

  // The token reads as the number its digits denote.
  lemma DecimalMeans(n: Numeric)
    requires ValidNumeric(n)
    ensures var tok := NumericText(n);
            && ReadsAsDecimal(tok) && Denotes(n, DecimalSize(tok)) && tok != "" && (tok[0] == '-' <==> n.negative)
  {
    hide DecimalSize, ReadsAsDecimal, ExponentEnd, ExponentAt, IsNumeral, ValueOf, Scaled, NumericText, ExponentText, AllDigits;
    hide Denotes, Power;
    var tok := NumericText(n);
    var mantissa := |Sign(n.negative)| + |n.whole| + |TailText(n)|;
    ReadsDecimal(n);
    DecimalParts(n);
    ExponentMeans(tok, mantissa, n.exponent);
    SizeInParts(n, tok, mantissa);
    var digits := DigitsOf(n);
    var e := ExponentAt(tok, mantissa);
    ScaledBy(digits, |n.fraction|, e);
    DenotesScaled(n, digits, e, DecimalSize(tok));
  }

  lemma DenotesScaled(n: Numeric, digits: nat, e: int, size: real)
    requires ValidNumeric(n) && digits == DigitsOf(n)
    requires match n.exponent
             case NoExponent => e == 0
             case Power10(_, sign, ds) => IsNumeral(10, ds) && e == if sign == "-" then 0 - ValueOf(10, ds) else ValueOf(10, ds)
    requires var r := size * Power(10, |n.fraction|) as real;
             if e >= 0 then r == digits as real * Power(10, e) as real else r * Power(10, -e) as real == digits as real
    ensures Denotes(n, size)
  {
    PowerZero();
    hide ValueOf, IsNumeral, Power, DigitsOf;
    var shifted := size * Power(10, |n.fraction|) as real;
    if n.exponent.Power10? && n.exponent.sign == "-" && e == 0 {
      assert shifted * 1.0 == shifted && digits as real * 1.0 == digits as real;
    }
  }

  lemma PowerZero()
    ensures Power(10, 0) == 1
  {
  }

  function NumericValue(n: Numeric): Value
    requires ValidNumeric(n)
  {
    if IsWhole(n) then
      DigitsAreNumeral(n.whole);
      WholeNumber(n.negative, ValueOf(10, n.whole))
    else
      DecimalMeans(n);
      Double(DecimalOf(NumericText(n)))
  }

  // A whole number saturates at 64 bits and is unsigned without a sign; any other number is the
  // double that its digits denote, infinite from the overflow bound on.
  lemma NumericMeaning(n: Numeric)
    requires ValidNumeric(n)
    ensures IsWhole(n) ==>
              && IsNumeral(10, n.whole)
              && var k: int := ValueOf(10, n.whole);
                 NumericValue(n) ==
                 if n.negative then Int(if k <= 0x8000_0000_0000_0000 then -k else -0x8000_0000_0000_0000)
                 else Uint(if k <= 0x7fff_ffff_ffff_ffff then k else 0x7fff_ffff_ffff_ffff)
    ensures !IsWhole(n) ==>
              exists size: real :: 0.0 <= size && Denotes(n, size) &&
                NumericValue(n) == Double(if size < OVERFLOW then Finite(n.negative, size) else Infinite(n.negative))
  {
    hide ValueOf, IsNumeral, DecimalSize, ReadsAsDecimal, Denotes;
    if IsWhole(n) {
      DigitsAreNumeral(n.whole);
    } else {
      DecimalMeans(n);
      var size := DecimalSize(NumericText(n));
      assert NumericValue(n) == Double(if size < OVERFLOW then Finite(n.negative, size) else Infinite(n.negative));
    }
  }

  lemma NumericValueIs(n: Numeric)
    requires ValidNumeric(n)
    ensures IsWhole(n) ==> IsNumeral(10, n.whole) && NumericValue(n) == WholeNumber(n.negative, ValueOf(10, n.whole))
    ensures !IsWhole(n) ==> ReadsAsDecimal(NumericText(n)) && NumericValue(n) == Double(DecimalOf(NumericText(n)))
  {
    hide NumericText, ValueOf, DecimalOf, ReadsAsDecimal, WholeNumber;
    DigitsAreNumeral(n.whole);
    DecimalMeans(n);
  }

  lemma NoTail(n: Numeric)
    requires ValidNumeric(n)
    ensures IsWhole(n) <==> |TailText(n)| + |ExponentText(n.exponent)| == 0
    ensures |NumericText(n)| == |Sign(n.negative)| + |n.whole| + |TailText(n)| + |ExponentText(n.exponent)| > 0
  {
  }

  lemma NumericReads(t: string, opt: ParseOptions, p: nat, n: Numeric)
    requires ValidNumeric(n) && StartsAt(t, p, NumericText(n)) && NumberStops(t, p + |NumericText(n)|)
    requires p < |t| && t[p] != '+' && t[p] != 'I' && t[p] != 'N'
    ensures NumberAt(t, opt, p) == NumberScan(NoError, NumericValue(n), p + |NumericText(n)|)
  {
    hide DigitsEnd, FractionEnd, ExponentEnd, BehindSign, ReadsAsDecimal, ReadsAsInteger, IntegerOf, DecimalOf, ValueOf, StartsAt;
    hide WholeNumber, NumericText, AllDigits, ValidExponent, NumberStops, Sign, TailText, ExponentText, NumericValue, DecimalSize;
    NumericValueIs(n);
    NumericEnds(t, p, n);
    NoTail(n);
    StartsAtMeans(t, p, NumericText(n));
    if IsWhole(n) {
      WholeMeans(n);
    } else {
      DecimalMeans(n);
    }
  }

  // A power of ten behind a number: with a minus sign it divides, else it multiplies.
  lemma ExponentScales(n: Numeric, x: Exponent, k: nat)
    requires ValidNumeric(n) && n.exponent.NoExponent? && ValidExponent(x) && x.Power10? && x.digits == Numeral(10, k)
    ensures var m, s := NumericText(n), NumericText(n.(exponent := x));
            && s == m + ([x.mark] + (x.sign + x.digits)) && ReadsAsDecimal(m) && ReadsAsDecimal(s)
            && (x.sign == "-" ==> DecimalSize(s) * Power(10, k) as real == DecimalSize(m))
            && (x.sign != "-" ==> DecimalSize(s) == DecimalSize(m) * Power(10, k) as real)
  {
    hide DecimalSize, ReadsAsDecimal, Power, ValueOf, IsNumeral, Numeral, NumericText, AllDigits;
    NumeralRoundTrip(10, k);
    DecimalMeans(n);
    DecimalMeans(n.(exponent := x));
    SameText(n, x);
    PowerIsPositive(|n.fraction|);
    var a, b := DecimalSize(NumericText(n)), DecimalSize(NumericText(n.(exponent := x)));
    var c, d := Power(10, |n.fraction|) as real, Power(10, k) as real;
    var digits := DigitsOf(n) as real;
    assert a * c == digits;
    assert if x.sign == "-" then b * c * d == digits else b * c == digits * d;
    hide Denotes;
    Compared(a, b, c, d, digits, x.sign == "-");
  }

  lemma Compared(a: real, b: real, c: real, d: real, digits: real, divides: bool)
    requires c > 0.0 && a * c == digits && if divides then b * c * d == digits else b * c == digits * d
    ensures if divides then b * d == a else b == a * d
  {
    if divides {
      assert (b * d) * c == b * c * d;
      SameProduct(b * d, a, c);
    } else {
      assert (a * d) * c == a * c * d;
      SameProduct(b, a * d, c);
    }
  }

  lemma SameText(n: Numeric, x: Exponent)
    requires n.exponent.NoExponent? && x.Power10?
    ensures NumericText(n.(exponent := x)) == NumericText(n) + ([x.mark] + (x.sign + x.digits))
  {
    var e := ExponentText(x);
    assert TailText(n) + "" == TailText(n);
    assert Sign(n.negative) + (n.whole + (TailText(n) + e)) == Sign(n.negative) + (n.whole + TailText(n)) + e;
  }

  lemma SameProduct(x: real, y: real, c: real)
    requires c > 0.0 && x * c == y * c
    ensures x == y
  {
    assert (x - y) * c == 0.0;
  }
}
