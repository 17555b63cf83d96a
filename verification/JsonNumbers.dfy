// Numbers in a printed text: where their tokens end, what the tokens denote, and that each
// printed number is read back.

module JsonNumbers {
  import opened Types
  import opened Text
  import opened Doubles
  import opened JsonValues
  import opened JsonGrammar
  import opened JsonPrinter

  // ---- Positions -------------------------------------------------------------------------

  lemma StartsSplit(t: string, p: nat, a: string, b: string)
    requires StartsAt(t, p, a + b)
    ensures StartsAt(t, p, a) && StartsAt(t, p + |a|, b)
  {
    var s := t[p..p + |a| + |b|];
    assert s == a + b;
    assert t[p..p + |a|] == s[..|a|];
    assert t[p + |a|..p + |a| + |b|] == s[|a|..];
  }

  lemma StartsWith(t: string, p: nat, c: char, s: string)
    requires StartsAt(t, p, [c] + s)
    ensures p < |t| && t[p] == c && StartsAt(t, p + 1, s)
  {
    StartsSplit(t, p, [c], s);
    assert t[p..p + 1][0] == c;
  }

  lemma CharactersAt(t: string, p: nat, s: string)
    requires StartsAt(t, p, s)
    ensures p + |s| <= |t|
    ensures forall i :: 0 <= i < |s| ==> s[i] == t[p + i]
    ensures forall k :: p <= k < p + |s| ==> t[k] == s[k - p] && t[k] in s
  {
    assert forall i :: 0 <= i < |s| ==> s[i] == t[p..p + |s|][i];
    assert forall k :: p <= k < p + |s| ==> t[k] == t[p..p + |s|][k - p];
  }

  lemma {:induction false} SkipExactly(t: string, p: nat, q: nat)
    requires p <= q <= |t| && forall i :: p <= i < q ==> IsWs(t[i])
    requires q < |t| ==> !IsWs(t[q])
    ensures SkipWs(t, p) == q
    decreases q - p
  {
    if p < q {
      SkipExactly(t, p + 1, q);
    }
  }

  lemma {:induction false} DigitsExactly(t: string, p: nat, q: nat)
    requires p <= q <= |t| && forall i :: p <= i < q ==> IsDigit(t[i])
    requires q < |t| ==> !IsDigit(t[q])
    ensures DigitsEnd(t, p) == q
    decreases q - p
  {
    if p < q {
      DigitsExactly(t, p + 1, q);
    }
  }

  // ---- Mantissas ---------------------------------------------------------------------------

  // A number token ends here.
  predicate NumberStops(t: string, p: nat) {
    p < |t| ==> !IsDigit(t[p]) && t[p] != '.' && t[p] != 'e' && t[p] != 'E'
  }

  // Digits behind an optional sign, and an optional point with more digits behind it.
  predicate IsMantissa(sign: string, w: string, tail: string) {
    && (sign == "" || sign == "-") && w != "" && AllDigits(w)
    && (tail == "" || (tail[0] == '.' && AllDigits(tail[1..])))
  }

  lemma DigitsAt(t: string, p: nat, w: string)
    requires StartsAt(t, p, w) && AllDigits(w) && (p + |w| < |t| ==> !IsDigit(t[p + |w|]))
    ensures p + |w| <= |t| && DigitsEnd(t, p) == p + |w| && (w != "" ==> IsDigit(t[p]))
  {
    hide DigitsEnd, StartsAt;
    CharactersAt(t, p, w);
    DigitsExactly(t, p, p + |w|);
  }

  lemma TailAt(t: string, p: nat, tail: string)
    requires StartsAt(t, p, tail) && NumberStops(t, p + |tail|)
    requires tail == "" || (tail[0] == '.' && AllDigits(tail[1..]))
    ensures p + |tail| <= |t| && FractionEnd(t, p) == p + |tail| && ExponentEnd(t, p + |tail|) == p + |tail|
    ensures p < |t| ==> !IsDigit(t[p])
  {
    hide DigitsEnd, StartsAt, AllDigits;
    CharactersAt(t, p, tail);
    if tail != "" {
      assert tail == ['.'] + tail[1..];
      StartsWith(t, p, '.', tail[1..]);
      DigitsAt(t, p + 1, tail[1..]);
    }
  }

  lemma MantissaAt(t: string, p: nat, sign: string, w: string, tail: string)
    requires IsMantissa(sign, w, tail)
    requires StartsAt(t, p, sign + w + tail) && NumberStops(t, p + |sign + w + tail|)
    ensures p < |t| && (t[p] == '-' || IsDigit(t[p])) && (t[p] == '-' <==> sign == "-")
    ensures var start := p + |sign|;
            var whole := start + |w|;
            var end := whole + |tail|;
            && end <= |t| && BehindSign(t, p) == start && DigitsEnd(t, start) == whole
            && FractionEnd(t, whole) == end && ExponentEnd(t, end) == end
  {
    hide DigitsEnd, StartsAt, FractionEnd, ExponentEnd, NumberStops, AllDigits;
    StartsSplit(t, p, sign + w, tail);
    StartsSplit(t, p, sign, w);
    TailAt(t, p + |sign + w|, tail);
    DigitsAt(t, p + |sign|, w);
    CharactersAt(t, p, sign);
  }

  function MantissaValue(sign: string, w: string, tail: string): Value
    requires IsMantissa(sign, w, tail)
  {
    DigitsAreNumeral(w);
    if tail == "" then WholeNumber(sign == "-", ValueOf(10, w))
    else MantissaToken(sign, w, tail); Double(DecimalOf(sign + w + tail))
  }

  // The token alone.
  lemma MantissaToken(sign: string, w: string, tail: string)
    requires IsMantissa(sign, w, tail)
    ensures var tok := sign + w + tail;
            if tail == "" then
              IsNumeral(10, w) && ReadsAsInteger(tok) && IntegerOf(tok) == WholeNumber(sign == "-", ValueOf(10, w))
            else
              && IsNumeral(10, w + tail[1..]) && ReadsAsDecimal(tok)
              && DecimalSize(tok) == Scaled(ValueOf(10, w + tail[1..]), -(|tail| - 1)) && (tok[0] == '-' <==> sign == "-")
  {
    hide DigitsEnd, IsNumeral, ValueOf, WholeNumber;
    var tok := sign + w + tail;
    assert tok[0..|tok|] == tok;
    MantissaAt(tok, 0, sign, w, tail);
    DigitsAreNumeral(w);
    if tail == "" {
      assert tok[|sign|..] == w;
    } else {
      assert AllDigits(w + tail[1..]);
      DigitsAreNumeral(w + tail[1..]);
      var whole := |sign| + |w|;
      assert tok[|sign|..whole] == w;
      assert tok[whole + 1..|tok|] == tail[1..];
    }
  }

  lemma MantissaReadsBack(t: string, opt: ParseOptions, p: nat, sign: string, w: string, tail: string)
    requires IsMantissa(sign, w, tail)
    requires StartsAt(t, p, sign + w + tail) && NumberStops(t, p + |sign + w + tail|)
    ensures p < |t| && (t[p] == '-' || IsDigit(t[p]))
    ensures NumberAt(t, opt, p) == NumberScan(NoError, MantissaValue(sign, w, tail), p + |sign + w + tail|)
  {
    hide DigitsEnd, StartsAt, FractionEnd, ExponentEnd, ReadsAsDecimal, ReadsAsInteger, IntegerOf, DecimalOf, IsNumeral, ValueOf;
    hide AllDigits, DecimalSize, Scaled;
    MantissaAt(t, p, sign, w, tail);
    MantissaToken(sign, w, tail);
    StartsAtMeans(t, p, sign + w + tail);
  }

  lemma StartsAtMeans(t: string, p: nat, s: string)
    requires StartsAt(t, p, s)
    ensures p + |s| <= |t| && t[p..p + |s|] == s
  {
  }

  // ---- Integers ------------------------------------------------------------------------------

  lemma SignedIsMantissa(i: int)
    ensures var w := Numeral(10, if i < 0 then -i else i);
            && IsMantissa(Sign(i < 0), w, "") && Signed(i) == Sign(i < 0) + w + "" && IsNumeral(10, w)
            && ValueOf(10, w) == (if i < 0 then -i else i)
  {
    hide Numeral;
    var n: nat := if i < 0 then -i else i;
    NumeralIsDigits(n);
    NumeralRoundTrip(10, n);
  }

  lemma SignedStarts(i: int)
    ensures Signed(i) != "" && (Signed(i)[0] == '-' || IsDigit(Signed(i)[0]))
  {
    hide Numeral;
    SignedIsMantissa(i);
  }

  lemma NumberReadsBack(t: string, opt: ParseOptions, p: nat, i: int)
    requires StartsAt(t, p, Signed(i)) && -0x8000_0000_0000_0000 <= i && NumberStops(t, p + |Signed(i)|)
    ensures p < |t| && (t[p] == '-' || IsDigit(t[p]))
    ensures NumberAt(t, opt, p) == NumberScan(NoError, if i < 0 then Int(i) else Uint(if i > MAX_INT64 then MAX_INT64 else i), p + |Signed(i)|)
  {
    hide Numeral, IsNumeral, ValueOf, Signed, StartsAt, NumberAt, IsMantissa;
    SignedIsMantissa(i);
    MantissaReadsBack(t, opt, p, Sign(i < 0), Numeral(10, if i < 0 then -i else i), "");
  }

  // ---- Doubles ---------------------------------------------------------------------------------

  // What a printed double reads back as: without places left it is an integer, and a number that
  // is none is null.
  function NormFloat(f: Float64): Value {
    match f
    case Finite(negative, size) =>
      var n := Micros(size);
      if n % MILLION == 0 then WholeNumber(negative, n / MILLION)
      else RoundedIsFinite(size); Double(Finite(negative, n as real / 1_000_000.0))
    case Infinite(_) => Double(f)
    case NotANumber => Null
  }

  lemma FiniteIsMantissa(negative: bool, size: Magnitude)
    ensures var n := Micros(size);
            && IsMantissa(Sign(negative), Numeral(10, n / MILLION), Tail(n))
            && FloatText(Finite(negative, size)) == Sign(negative) + Numeral(10, n / MILLION) + Tail(n)
  {
    hide Numeral, Micros, Shortened, SixDecimals;
    var n := Micros(size);
    FiniteText(negative, size);
    NumeralIsDigits(n / MILLION);
    PlacesAreDigits(n);
    assert Tail(n) != "" ==> Tail(n)[1..] == StripZeros(Places(n));
  }

  lemma FiniteReads(negative: bool, size: Magnitude)
    requires IsMantissa(Sign(negative), Numeral(10, Micros(size) / MILLION), Tail(Micros(size)))
    ensures MantissaValue(Sign(negative), Numeral(10, Micros(size) / MILLION), Tail(Micros(size))) == NormFloat(Finite(negative, size))
  {
    hide Numeral, Micros, IsNumeral, ValueOf, Power, Places, StripZeros;
    var n := Micros(size);
    var w, f := Numeral(10, n / MILLION), StripZeros(Places(n));
    ShortenedValue(n);
    NumeralRoundTrip(10, n / MILLION);
    MantissaToken(Sign(negative), w, Tail(n));
    if f != "" {
      assert Tail(n)[1..] == f;
      RoundedIsFinite(size);
    }
  }

  lemma FloatStarts(f: Float64)
    ensures FloatText(f) != "" && !IsWs(FloatText(f)[0]) && FloatText(f)[0] != ']' && FloatText(f)[0] != '}'
  {
    hide Numeral, Micros, Shortened, SixDecimals, Tail;
    if f.Finite? {
      FiniteIsMantissa(f.negative, f.size);
    }
  }

  lemma FloatReadsBack(t: string, opt: ParseOptions, p: nat, f: Float64)
    requires f != NotANumber && StartsAt(t, p, FloatText(f)) && NumberStops(t, p + |FloatText(f)|)
    ensures p < |t| && (t[p] == '-' || IsDigit(t[p]))
    ensures NumberAt(t, opt, p) == NumberScan(NoError, NormFloat(f), p + |FloatText(f)|)
  {
    hide Numeral, Micros, Shortened, SixDecimals, Tail, NumberAt, IsMantissa, StartsAt, MantissaValue, WholeNumber;
    if f.Finite? {
      FiniteIsMantissa(f.negative, f.size);
      FiniteReads(f.negative, f.size);
      MantissaReadsBack(t, opt, p, Sign(f.negative), Numeral(10, Micros(f.size) / MILLION), Tail(Micros(f.size)));
    } else {
      InfinityReadsBack(t, opt, p, f.negative);
    }
  }

  const INFINITY: string := "1e9999"

  lemma ExponentPart(t: string, p: nat, e: string)
    requires StartsAt(t, p, ['e'] + e) && AllDigits(e) && NumberStops(t, p + 1 + |e|) && (e == "" ==> p + 1 == |t|)
    ensures p + 1 + |e| <= |t| && FractionEnd(t, p) == p && ExponentEnd(t, p) == p + 1 + |e|
    ensures t[p] == 'e' && (e != "" ==> IsDigit(t[p + 1]))
  {
    hide DigitsEnd, StartsAt;
    StartsWith(t, p, 'e', e);
    DigitsAt(t, p + 1, e);
  }

  // One digit and an exponent, perhaps cut off.
  function Scientific(sign: string, e: string): string {
    sign + (['1'] + (['e'] + e))
  }

  lemma ScientificParts(sign: string, e: string)
    ensures var tok, s := Scientific(sign, e), |sign|;
            && |tok| == s + 2 + |e| && tok[s..s + 1] + "" == "1" && tok[s + 2..] == e && tok[s + 1] == 'e'
            && tok[|tok| - 1] == (if e == "" then 'e' else e[|e| - 1])
  {
    var tok, s := Scientific(sign, e), |sign|;
    assert tok[s..s + 1] == "1";
    assert e != "" ==> tok[|tok| - 1] == e[|e| - 1];
  }

  lemma ScientificAt(t: string, p: nat, sign: string, e: string)
    requires (sign == "" || sign == "-") && AllDigits(e) && StartsAt(t, p, Scientific(sign, e))
    requires NumberStops(t, p + |sign| + 2 + |e|) && (e == "" ==> p + |sign| + 2 == |t|)
    ensures p < |t| && (t[p] == '-' || IsDigit(t[p])) && (t[p] == '-' <==> sign == "-")
    ensures var start := p + |sign|;
            && start + 2 + |e| <= |t| && BehindSign(t, p) == start && DigitsEnd(t, start) == start + 1
            && FractionEnd(t, start + 1) == start + 1 && ExponentEnd(t, start + 1) == start + 2 + |e|
            && t[start + 1] == 'e' && (e != "" ==> IsDigit(t[start + 2]))
  {
    hide DigitsEnd, StartsAt, FractionEnd, ExponentEnd, NumberStops;
    var start := p + |sign|;
    StartsSplit(t, p, sign, ['1'] + (['e'] + e));
    CharactersAt(t, p, sign);
    StartsWith(t, start, '1', ['e'] + e);
    ExponentPart(t, start + 1, e);
    assert StartsAt(t, start, "1") by {
      StartsSplit(t, start, ['1'], ['e'] + e);
      assert ['1'] == "1";
    }
    DigitsAt(t, start, "1");
  }

  lemma ExponentReads(tok: string, p: nat, e: string)
    requires p + 1 < |tok| && tok[p + 1..] == e && AllDigits(e) && ExponentEnd(tok, p) == |tok|
    ensures IsNumeral(10, e) && ExponentAt(tok, p) == ValueOf(10, e)
  {
    hide ExponentEnd;
    DigitsAreNumeral(e);
    assert tok[p + 1] == e[0];
  }

  lemma ScientificToken(sign: string, e: string)
    requires (sign == "" || sign == "-") && AllDigits(e)
    ensures ReadsAsDecimal(Scientific(sign, e)) <==> e != ""
    ensures e != "" ==> IsNumeral(10, e) && DecimalSize(Scientific(sign, e)) == Scaled(1, ValueOf(10, e))
  {
    hide Scientific, DigitsEnd, FractionEnd, ExponentEnd, BehindSign, Scaled, ExponentAt, IsNumeral, ValueOf, NumberStops;
    var tok := Scientific(sign, e);
    ScientificParts(sign, e);
    WholeText(tok);
    ScientificAt(tok, 0, sign, e);
    if e != "" {
      ExponentReads(tok, |sign| + 1, e);
      SmallNumerals();
    }
  }

  lemma WholeText(t: string)
    ensures StartsAt(t, 0, t) && NumberStops(t, |t|)
  {
  }

  lemma InfinityIsScientific(negative: bool)
    ensures Sign(negative) + INFINITY == Scientific(Sign(negative), "9999")
  {
    assert INFINITY == ['1'] + (['e'] + "9999");
  }

  lemma InfinityToken(negative: bool)
    ensures var tok := Sign(negative) + INFINITY; ReadsAsDecimal(tok) && DecimalOf(tok) == Infinite(negative)
  {
    hide ReadsAsDecimal, DecimalSize, Power;
    var e := "9999";
    InfinityIsScientific(negative);
    ScientificToken(Sign(negative), e);
    SmallNumerals();
    HugeExponent();
  }

  lemma SmallNumerals()
    ensures IsNumeral(10, "1") && ValueOf(10, "1") == 1
    ensures IsNumeral(10, "9999") && ValueOf(10, "9999") == 9999
  {
    assert "1"[..0] == "" && "9999"[..3] == "999" && "999"[..2] == "99" && "99"[..1] == "9" && "9"[..0] == "";
  }

  lemma InfinityReadsBack(t: string, opt: ParseOptions, p: nat, negative: bool)
    requires StartsAt(t, p, Sign(negative) + INFINITY) && NumberStops(t, p + |Sign(negative) + INFINITY|)
    ensures p < |t| && (t[p] == '-' || IsDigit(t[p]))
    ensures NumberAt(t, opt, p) == NumberScan(NoError, Double(Infinite(negative)), p + |Sign(negative) + INFINITY|)
  {
    hide DigitsEnd, StartsAt, FractionEnd, ExponentEnd, ReadsAsDecimal, ReadsAsInteger, IntegerOf, DecimalOf;
    InfinityIsScientific(negative);
    ScientificAt(t, p, Sign(negative), "9999");
    InfinityToken(negative);
    StartsAtMeans(t, p, Sign(negative) + INFINITY);
  }
}
