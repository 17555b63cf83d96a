// What the parser makes of a printed text that was cut off.

module JsonTruncation {
  import opened Types
  import opened Text
  import opened JsonValues
  import opened JsonGrammar
  import opened JsonPrinter
  import opened JsonRoundTrip
  import opened JsonNumbers
  import opened Doubles
  import opened JsonTheorems

  // ---- Cut texts --------------------------------------------------------------------------

  // From p on, the text is s without its end.
  ghost predicate CutWithin(t: string, p: nat, s: string) {
    p <= |t| && |t| - p < |s| && t[p..] == s[..|t| - p]
  }

  lemma CutSplit(t: string, p: nat, a: string, b: string)
    requires CutWithin(t, p, a + b)
    ensures |t| - p < |a| ==> CutWithin(t, p, a)
    ensures |t| - p >= |a| ==> StartsAt(t, p, a) && CutWithin(t, p + |a|, b)
  {
    var c := |t| - p;
    if c < |a| {
      assert (a + b)[..c] == a[..c];
    } else {
      assert t[p..][..|a|] == (a + b)[..c][..|a|] == a;
      assert t[p..p + |a|] == t[p..][..|a|];
      assert t[p + |a|..] == t[p..][|a|..] == (a + b)[..c][|a|..] == b[..c - |a|];
    }
  }

  lemma CutCharacters(t: string, p: nat, s: string)
    requires CutWithin(t, p, s)
    ensures forall k :: p <= k < |t| ==> t[k] == s[k - p]
  {
    assert forall k :: p <= k < |t| ==> t[k] == t[p..][k - p];
  }

  // A place where reading stops for good: the end, or inside an escape.
  ghost predicate Stuck(t: string, q: nat) {
    q == |t| || (q < |t| && t[q] == 'u')
  }

  // ---- Strings ------------------------------------------------------------------------------

  // The first m characters of the escaped text end inside a Unicode escape, behind its u.
  ghost predicate MidEscape(s: string, m: nat) {
    s != "" && if m < |Escape(s[0])| then m >= 2 else MidEscape(s[1..], m - |Escape(s[0])|)
  }

  lemma EscapeShape(c: char)
    ensures var e := Escape(c);
            (|e| == 1) || (|e| == 2 && e[0] == '\\') || (|e| == 6 && e[0] == '\\' && e[1] == 'u')
  {
  }

  lemma CutEscape(t: string, opt: ParseOptions, p: nat, buf: string, c: char)
    requires CutWithin(t, p, Escape(c))
    ensures var r := StringAt(t, opt, p, buf);
            !r.ok && if |t| - p >= 2 then r.pos < |t| && t[r.pos] == 'u' else r.pos == |t|
  {
    hide Escape, Hex4, Utf8;
    EscapeShape(c);
    CutCharacters(t, p, Escape(c));
  }

  // A cut string does not scan; the scan stops at the end unless the cut is inside an escape.
  lemma {:induction false} CutString(t: string, opt: ParseOptions, p: nat, buf: string, s: string)
    requires CutWithin(t, p, Escaped(s) + "\"") && |buf| + |s| <= opt.maxStringBytes && SevenBit(s)
    ensures var r := StringAt(t, opt, p, buf);
            !r.ok && if MidEscape(s, |t| - p) then r.pos < |t| && t[r.pos] == 'u' else r.pos == |t|
    decreases |s|
  {
    hide StringAt, Escape, StartsAt;
    if s == "" {
      CutAtEnd(t, opt, p, buf);
    } else {
      var rest := s[1..];
      assert s == [s[0]] + rest;
      EscapedHead(s);
      CutSplit(t, p, Escape(s[0]), Escaped(rest) + "\"");
      if |t| - p < |Escape(s[0])| {
        CutEscape(t, opt, p, buf, s[0]);
      } else {
        EscapeReadsBack(t, opt, p, buf, s[0]);
        CutString(t, opt, p + |Escape(s[0])|, buf + [s[0]], rest);
      }
    }
  }

  lemma CutAtEnd(t: string, opt: ParseOptions, p: nat, buf: string)
    requires CutWithin(t, p, Escaped("") + "\"")
    ensures p == |t| && StringAt(t, opt, p, buf) == StringScan(false, "", p)
  {
    assert |Escaped("") + "\""| == 1;
  }

  lemma CutQuoted(t: string, opt: ParseOptions, p: nat, s: string)
    requires CutWithin(t, p, Quoted(s)) && p < |t| && Plain(s, opt)
    ensures t[p] == '\"'
    ensures var r := StringAt(t, opt, p + 1, "");
            !r.ok && if MidEscape(s, |t| - p - 1) then r.pos < |t| && t[r.pos] == 'u' else r.pos == |t|
  {
    hide StringAt, Escaped, MidEscape;
    assert Quoted(s) == ['\"'] + (Escaped(s) + "\"");
    CutCharacters(t, p, Quoted(s));
    CutSplit(t, p, ['\"'], Escaped(s) + "\"");
    CutString(t, opt, p + 1, "", s);
  }

  // ---- Numbers --------------------------------------------------------------------------------

  // A cut number is read to the end: it is a shorter number, or a lone sign.
  lemma CutMantissa(t: string, opt: ParseOptions, p: nat, sign: string, w: string, tail: string)
    requires IsMantissa(sign, w, tail) && CutWithin(t, p, sign + w + tail) && p < |t|
    ensures (t[p] == '-' || IsDigit(t[p])) && NumberAt(t, opt, p).pos == |t|
    ensures NumberAt(t, opt, p).error == NoError <==> |t| - p > |sign|
  {
    hide NumberAt, StartsAt;
    var c := |t| - p;
    var tok := sign + w + tail;
    assert t[p..|t|] == t[p..] == tok[..c];
    if c <= |sign| {
      assert tok[..1] == "-";
      LoneSign(t, opt, p);
    } else if c <= |sign| + |w| {
      var v := w[..c - |sign|];
      assert tok[..c] == sign + v + "";
      CutReads(t, opt, p, sign, v, "");
    } else {
      var rest := tail[..c - |sign| - |w|];
      assert tok[..c] == sign + w + rest;
      assert rest[1..] == tail[1..|rest|];
      CutReads(t, opt, p, sign, w, rest);
    }
  }

  lemma LoneSign(t: string, opt: ParseOptions, p: nat)
    requires p <= |t| && t[p..] == "-"
    ensures p < |t| && t[p] == '-' && NumberAt(t, opt, p).pos == |t| && NumberAt(t, opt, p).error == InvalidNumber
  {
    assert t[p] == t[p..][0] && |t| == p + 1;
    assert t[p..|t|] == "-";
  }

  lemma CutReads(t: string, opt: ParseOptions, p: nat, sign: string, w: string, tail: string)
    requires IsMantissa(sign, w, tail) && p <= |t| && t[p..] == sign + w + tail
    ensures p < |t| && (t[p] == '-' || IsDigit(t[p]))
    ensures NumberAt(t, opt, p).pos == |t| && NumberAt(t, opt, p).error == NoError
  {
    hide NumberAt;
    assert t[p..|t|] == t[p..];
    MantissaReadsBack(t, opt, p, sign, w, tail);
  }

  // A cut infinity: the sign and the exponent need a digit behind them.
  lemma CutInfinity(t: string, opt: ParseOptions, p: nat, negative: bool)
    requires CutWithin(t, p, Sign(negative) + INFINITY) && p < |t|
    ensures (t[p] == '-' || IsDigit(t[p])) && NumberAt(t, opt, p).pos == |t|
    ensures var c := |t| - p - |Sign(negative)|; NumberAt(t, opt, p).error == NoError <==> c > 0 && c != 2
  {
    hide StartsAt, DigitsEnd, FractionEnd, ExponentEnd, ReadsAsDecimal, ReadsAsInteger, IntegerOf, DecimalOf;
    var sign := Sign(negative);
    var c := |t| - p - |sign|;
    var tok := sign + INFINITY;
    assert t[p..|t|] == t[p..] == tok[..|t| - p];
    if c <= 0 {
      assert tok[..1] == "-";
      LoneSign(t, opt, p);
    } else if c == 1 {
      assert tok[..|sign| + 1] == sign + "1" + "";
      CutReads(t, opt, p, sign, "1", "");
    } else {
      var e := "9999"[..c - 2];
      InfinityIsScientific(negative);
      assert tok[..|t| - p] == Scientific(sign, e);
      CutScientific(t, opt, p, sign, e);
    }
  }

  lemma CutScientific(t: string, opt: ParseOptions, p: nat, sign: string, e: string)
    requires (sign == "" || sign == "-") && AllDigits(e) && p <= |t| && t[p..] == Scientific(sign, e)
    ensures p < |t| && (t[p] == '-' || IsDigit(t[p])) && NumberAt(t, opt, p).pos == |t|
    ensures NumberAt(t, opt, p).error == NoError <==> e != ""
  {
    hide StartsAt, DigitsEnd, FractionEnd, ExponentEnd, ReadsAsDecimal, ReadsAsInteger, IntegerOf, DecimalOf;
    assert t[p..|t|] == t[p..];
    assert StartsAt(t, p, t[p..]) by {
      WholeRest(t, p);
    }
    ScientificAt(t, p, sign, e);
    ScientificToken(sign, e);
  }

  lemma WholeRest(t: string, p: nat)
    requires p <= |t|
    ensures StartsAt(t, p, t[p..])
  {
  }

  // Which cuts of a printed number leave one.
  predicate NumberPasses(v: Value, c: nat) {
    match v
    case Int(i) => c > |Sign(i < 0)|
    case Uint(_) => c > 0
    case Double(Finite(negative, _)) => c > |Sign(negative)|
    case Double(Infinite(negative)) => c > |Sign(negative)| && c != |Sign(negative)| + 2
    case _ => false
  }

  lemma CutNumber(t: string, opt: ParseOptions, p: nat, v: Value, mode: WriteMode, d: nat)
    requires CutWithin(t, p, Dump(v, mode, d)) && p < |t| && (v.Int? || v.Uint? || (v.Double? && v.number != NotANumber))
    ensures (t[p] == '-' || IsDigit(t[p])) && NumberAt(t, opt, p).pos == |t|
    ensures NumberAt(t, opt, p).error == NoError <==> NumberPasses(v, |t| - p)
  {
    hide NumberAt, Numeral, Signed, CutWithin, IsMantissa, Micros, Shortened, SixDecimals, Tail;
    match v {
      case Int(i) =>
        var k: int := i;
        SignedIsMantissa(k);
        CutMantissa(t, opt, p, Sign(k < 0), Numeral(10, if k < 0 then -k else k), "");
      case Uint(u) =>
        SignedNat(u);
        SignedIsMantissa(u);
        CutMantissa(t, opt, p, "", Numeral(10, u), "");
      case Double(Finite(negative, size)) =>
        FiniteIsMantissa(negative, size);
        CutMantissa(t, opt, p, Sign(negative), Numeral(10, Micros(size) / MILLION), Tail(Micros(size)));
      case Double(Infinite(negative)) => CutInfinity(t, opt, p, negative);
    }
  }

  // ---- Values -----------------------------------------------------------------------------------

  // Words are recognised whole or not at all.
  lemma CutWord(t: string, p: nat, word: string, v: Value, n: nat)
    requires CutWithin(t, p, word)
    ensures WordAt(t, p, word, v, n).error == UnexpectedChar
  {
  }

  // A cut scalar is an error, a number read to the end, or a string that did not scan.
  lemma ScalarCut(t: string, opt: ParseOptions, p: nat, n: nat, d: nat, v: Value, mode: WriteMode)
    requires CutWithin(t, p, Dump(v, mode, d)) && p < |t| && Printable(v, opt) && !v.Array? && !v.Object?
    ensures var r := ParseToken(t, opt, p, n, d);
            match v
            case String(s) =>
              && r.error == NoError && r.value == Null && r.nodes == n
              && (if MidEscape(s, |t| - p - 1) then r.pos < |t| && t[r.pos] == 'u' else r.pos == |t|)
            case _ => (r.error == NoError ==> r.pos == |t|) && (r.error == NoError <==> NumberPasses(v, |t| - p))
  {
    hide StringAt, NumberAt, ParseItems, ParseFields, SkipWs, Quoted, Signed, Plain, MidEscape, StartsAt, Shortened, SixDecimals;
    CutCharacters(t, p, Dump(v, mode, d));
    match v {
      case Null => CutWord(t, p, "null", Null, n);
      case Bool(b) =>
        if b {
          CutWord(t, p, "true", Bool(true), n);
        } else {
          CutWord(t, p, "false", Bool(false), n);
        }
      case Int(_) => CutNumber(t, opt, p, v, mode, d);
      case Uint(_) => CutNumber(t, opt, p, v, mode, d);
      case Double(f) =>
        if f == NotANumber {
          CutWord(t, p, "null", Null, n);
        } else {
          CutNumber(t, opt, p, v, mode, d);
        }
      case String(s) => CutQuoted(t, opt, p, s);
    }
  }

  // Nothing is lost before the first character of what stands behind a gap.
  lemma CutGap(t: string, p: nat, mode: WriteMode, d: nat, body: string)
    requires CutWithin(t, p, Gap(mode, d) + body) && body != "" && !IsWs(body[0])
    ensures var q := SkipWs(t, p);
            q == |t| || (q == p + |Gap(mode, d)| < |t| && CutWithin(t, q, body) && t[q] == body[0])
    ensures |t| >= p + |Gap(mode, d)| ==> SkipWs(t, p) == p + |Gap(mode, d)| && CutWithin(t, p + |Gap(mode, d)|, body)
  {
    hide SkipWs, Gap, StartsAt;
    var g := Gap(mode, d);
    CutSplit(t, p, g, body);
    CutCharacters(t, p, g + body);
    GapIsWs(mode, d);
    if |t| - p < |g| {
      assert forall k :: p <= k < |t| ==> IsWs(t[k]);
      SkipExactly(t, p, |t|);
    } else {
      assert forall k :: p <= k < p + |g| ==> IsWs(t[k]);
      SkipExactly(t, p, p + |g|);
    }
  }

  lemma GapIsWs(mode: WriteMode, d: nat)
    ensures forall k :: 0 <= k < |Gap(mode, d)| ==> IsWs(Gap(mode, d)[k])
  {
    IndentIsWs(d);
    var s := Indent(d);
    assert forall k :: 0 <= k < |s| ==> s[k] in s;
  }

  // Where reading is stuck there is no comma and no closing character.
  lemma StuckIsNoChild(t: string, opt: ParseOptions, p: nat, n: nat, d: nat, close: char)
    requires p <= |t| && close != 'u'
    requires var r := ParseAt(t, opt, p, n, d + 1); r.error == NoError ==> Stuck(t, r.pos)
    ensures ChildAt(t, opt, p, n, d, close).NoChild?
  {
    hide ParseAt, SkipWs;
    var r := ParseAt(t, opt, p, n, d + 1);
    if r.error == NoError {
      SkipExactly(t, r.pos, r.pos);
    }
  }

  // A cut value is an error or leaves the reading stuck.
  lemma {:induction false} ValueCut(t: string, opt: ParseOptions, p: nat, n: nat, d: nat, v: Value, mode: WriteMode)
    requires CutWithin(t, p, Dump(v, mode, d)) && Fits(v, opt, n, d)
    ensures var r := ParseAt(t, opt, p, n, d); r.error == NoError ==> Stuck(t, r.pos)
    decreases v, 1
  {
    hide ParseToken, Dump, NestsWithin, SkipWs;
    if p == |t| {
      SkipExactly(t, p, p);
    } else {
      FirstCharacter(v, mode, d);
      CutCharacters(t, p, Dump(v, mode, d));
      SkipExactly(t, p, p);
      assert Size(v) >= 1;
      TokenCut(t, opt, p, n + 1, d, v, mode);
    }
  }

  lemma {:induction false} TokenCut(t: string, opt: ParseOptions, p: nat, n: nat, d: nat, v: Value, mode: WriteMode)
    requires CutWithin(t, p, Dump(v, mode, d)) && p < |t| && n > 0 && Fits(v, opt, n - 1, d)
    ensures var r := ParseToken(t, opt, p, n, d); r.error == NoError ==> Stuck(t, r.pos)
    decreases v, 0
  {
    hide ParseToken, Dump, NestsWithin, Size, MidEscape;
    match v {
      case Array(a) => ArrayCut(t, opt, p, n, d, a, mode);
      case Object(fs) => ObjectCut(t, opt, p, n, d, fs, mode);
      case _ => ScalarCut(t, opt, p, n, d, v, mode);
    }
  }

  // A child and what follows it, cut: the child is complete only when its comma is there.
  lemma {:induction false} ChildCut(t: string, opt: ParseOptions, p: nat, n: nat, d: nat, v: Value, mode: WriteMode,
                                    rest: string, close: char)
    requires CutWithin(t, p, Dump(v, mode, d + 1) + rest) && Fits(v, opt, n, d + 1)
    requires close == ']' || close == '}'
    requires rest == Closing(mode, d, close) || (rest != "" && rest[0] == ',')
    ensures var q := p + |Dump(v, mode, d + 1)|;
            if rest[0] == ',' && q < |t| then ChildAt(t, opt, p, n, d, close) == More(Norm(v), q + 1, n + Size(v))
            else ChildAt(t, opt, p, n, d, close).NoChild?
    decreases v, 2
  {
    hide ParseAt, Dump, Norm, Fits, Size, StartsAt, Closing, SkipWs, Stuck;
    var q := p + |Dump(v, mode, d + 1)|;
    ClosingStarts(mode, d, close);
    CutSplit(t, p, Dump(v, mode, d + 1), rest);
    if |t| < q {
      ValueCut(t, opt, p, n, d + 1, v, mode);
      StuckIsNoChild(t, opt, p, n, d, close);
    } else {
      CutCharacters(t, q, rest);
      assert q < |t| ==> t[q] == rest[0];
      ValueReadsBack(t, opt, p, n, d + 1, v, mode);
      if rest[0] == ',' {
        SkipExactly(t, q, q);
      } else {
        CutClosing(t, q, mode, d, close);
      }
    }
  }

  lemma CutClosing(t: string, p: nat, mode: WriteMode, d: nat, close: char)
    requires CutWithin(t, p, Closing(mode, d, close)) && !IsWs(close)
    ensures SkipWs(t, p) == |t|
  {
    hide Gap, SkipWs;
    CutGap(t, p, mode, d, [close]);
  }

  // ---- Arrays ---------------------------------------------------------------------------------------

  lemma NoItemAtEnd(t: string, opt: ParseOptions, p: nat, n: nat, d: nat, read: seq<Value>)
    requires p <= |t| && SkipWs(t, p) == |t|
    ensures ParseItems(t, opt, p, n, d, read).error == UnexpectedEnd
  {
  }

  lemma NoSpaceBeforeCut(t: string, p: nat, v: Value, mode: WriteMode, d: nat, rest: string)
    requires CutWithin(t, p, Dump(v, mode, d) + rest)
    ensures SkipWs(t, p) == p
  {
    hide Dump;
    FirstCharacter(v, mode, d);
    CutCharacters(t, p, Dump(v, mode, d) + rest);
    SkipExactly(t, p, p);
  }

  // Items cut off are never an array.
  lemma {:induction false} ItemsCut(t: string, opt: ParseOptions, p: nat, n: nat, d: nat, a: seq<Value>, i: nat, mode: WriteMode, read: seq<Value>)
    requires i < |a| && CutWithin(t, p, ItemsText(a, i, mode, d)) && ItemsFit(a, i, opt, n, d)
    ensures ParseItems(t, opt, p, n, d, read).error != NoError
    decreases a, |a| - i, 0
  {
    hide ChildAt, Dump, StartsAt, Gap, Size, ItemsSize, Norm, Closing, SkipWs, Fits, ItemsFit;
    NextItemFits(a, i, opt, n, d);
    var item, rest := Dump(a[i], mode, d + 1), AfterItem(a, i, mode, d);
    NoSpaceBeforeCut(t, p, a[i], mode, d + 1, rest);
    if p < |t| {
      ChildCut(t, opt, p, n, d, a[i], mode, rest, ']');
      ClosingStarts(mode, d, ']');
      var q := p + |item| + 1;
      if i + 1 < |a| && q <= |t| {
        CutSplit(t, p, item, rest);
        CutSplit(t, q - 1, [','], Gap(mode, d + 1) + ItemsText(a, i + 1, mode, d));
        NextItemFits(a, i + 1, opt, n + Size(a[i]), d);
        NextItemsCut(t, opt, q, n + Size(a[i]), d, a, i + 1, mode, read + [Norm(a[i])]);
      }
    }
  }

  lemma {:induction false} NextItemsCut(t: string, opt: ParseOptions, p: nat, n: nat, d: nat, a: seq<Value>, i: nat, mode: WriteMode, read: seq<Value>)
    requires i < |a| && CutWithin(t, p, Gap(mode, d + 1) + ItemsText(a, i, mode, d)) && ItemsFit(a, i, opt, n, d)
    ensures ParseItems(t, opt, p, n, d, read).error != NoError
    decreases a, |a| - i, 1
  {
    hide ParseItems, Dump, StartsAt, Gap, SkipWs, ItemsFit, AfterItem;
    FirstCharacter(a[i], mode, d + 1);
    assert ItemsText(a, i, mode, d)[0] == Dump(a[i], mode, d + 1)[0];
    CutGap(t, p, mode, d + 1, ItemsText(a, i, mode, d));
    ItemsBehindGap(t, opt, p, n, d, read);
    if SkipWs(t, p) == |t| {
      NoItemAtEnd(t, opt, p, n, d, read);
    } else {
      ItemsCut(t, opt, SkipWs(t, p), n, d, a, i, mode, read);
    }
  }

  lemma {:induction false} ArrayCut(t: string, opt: ParseOptions, p: nat, n: nat, d: nat, a: seq<Value>, mode: WriteMode)
    requires CutWithin(t, p, Dump(Array(a), mode, d)) && p < |t| && n > 0 && Fits(Array(a), opt, n - 1, d)
    ensures ParseToken(t, opt, p, n, d).error != NoError
    decreases a, |a| + 1
  {
    hide ParseItems, ParseFields, StartsAt, Gap, DumpItems, ItemsText, Fits, ItemsFit, SkipWs;
    if a == [] {
      assert Dump(Array(a), mode, d) == "[]" by {
        NoMoreItems(a, mode, d);
      }
      CutCharacters(t, p, "[]");
      SkipExactly(t, p + 1, p + 1);
      ItemsBehindGap(t, opt, p + 1, n, d, []);
      NoItemAtEnd(t, opt, p + 1, n, d, []);
    } else {
      ChildrenOfArrayFit(a, opt, n, d);
      ItemsLayout(a, 0, mode, d);
      var body := Gap(mode, d + 1) + ItemsText(a, 0, mode, d);
      ArrayLayout(a, mode, d, body);
      CutCharacters(t, p, ['['] + body);
      CutSplit(t, p, ['['], body);
      ArrayBehindBracket(t, p + 1, a, mode, d);
      ItemsBehindGap(t, opt, p + 1, n, d, []);
      NextItemsCut(t, opt, p + 1, n, d, a, 0, mode, []);
    }
  }

  lemma ArrayBehindBracket(t: string, p: nat, a: seq<Value>, mode: WriteMode, d: nat)
    requires a != [] && CutWithin(t, p, Gap(mode, d + 1) + ItemsText(a, 0, mode, d))
    ensures var q := SkipWs(t, p); q < |t| ==> t[q] != ']'
  {
    hide Dump, Gap, SkipWs, AfterItem;
    FirstCharacter(a[0], mode, d + 1);
    assert ItemsText(a, 0, mode, d)[0] == Dump(a[0], mode, d + 1)[0];
    CutGap(t, p, mode, d + 1, ItemsText(a, 0, mode, d));
  }

  // ---- Objects --------------------------------------------------------------------------------------

  // What is missing of the fields begins inside a key, not inside a Unicode escape.
  ghost predicate KeyCut(fs: seq<Field>, mode: WriteMode, d: nat, missing: int) {
    exists j: nat, m: nat :: CutAtKey(fs, mode, d, missing, j, m)
  }

  // m characters of the escaped key of field j are left.
  ghost predicate CutAtKey(fs: seq<Field>, mode: WriteMode, d: nat, missing: int, j: nat, m: nat) {
    && j < |fs| && m <= |Escaped(fs[j].key)| && !MidEscape(fs[j].key, m)
    && missing == |FieldsText(fs, j, mode, d)| - 1 - m
  }

  lemma {:induction false} LaterFieldsAreShorter(fs: seq<Field>, i: nat, j: nat, mode: WriteMode, d: nat)
    requires i < j < |fs|
    ensures |FieldsText(fs, j, mode, d)| + |Quoted(fs[i].key)| <= |FieldsText(fs, i, mode, d)|
    decreases j - i
  {
    hide Quoted, Colon, Dump, Gap;
    if i + 1 < j {
      LaterFieldsAreShorter(fs, i + 1, j, mode, d);
    }
  }

  // The fields from i on and how much is missing decide where the key is that was cut.
  lemma CutKeyIs(fs: seq<Field>, i: nat, mode: WriteMode, d: nat, c: nat, j: nat, m: nat)
    requires i < |fs| && c < |FieldsText(fs, i, mode, d)|
    requires CutAtKey(fs, mode, d, |FieldsText(fs, i, mode, d)| - c, j, m)
    ensures j >= i && (j == i ==> c == m + 1) && (j > i ==> c > |Quoted(fs[i].key)|)
    ensures j > i ==> |FieldsText(fs, i, mode, d)| - c < |FieldsText(fs, i + 1, mode, d)|
  {
    hide FieldsText, Quoted, MidEscape;
    if j > i {
      LaterFieldsAreShorter(fs, i, j, mode, d);
      if j > i + 1 {
        LaterFieldsAreShorter(fs, i + 1, j, mode, d);
      }
    } else if j < i {
      LaterFieldsAreShorter(fs, j, i, mode, d);
      QuotedLength(fs[j].key);
    }
  }

  lemma QuotedLength(s: string)
    ensures |Quoted(s)| == |Escaped(s)| + 2
  {
    hide Escaped;
  }

  // Behind the key and before the next field no key is cut.
  lemma NoKeyCutBetween(fs: seq<Field>, i: nat, mode: WriteMode, d: nat, c: nat)
    requires i < |fs| && |Quoted(fs[i].key)| <= c < |FieldsText(fs, i, mode, d)|
    requires i + 1 < |fs| ==> |FieldsText(fs, i + 1, mode, d)| <= |FieldsText(fs, i, mode, d)| - c
    ensures !KeyCut(fs, mode, d, |FieldsText(fs, i, mode, d)| - c)
  {
    hide FieldsText, Quoted, Escaped, MidEscape;
    var missing := |FieldsText(fs, i, mode, d)| - c;
    if j: nat, m: nat :| CutAtKey(fs, mode, d, missing, j, m) {
      CutKeyIs(fs, i, mode, d, c, j, m);
      QuotedLength(fs[i].key);
    }
  }

  // A cut inside the key: the object ends as null, unless nothing of the key is there.
  lemma CutInKey(t: string, opt: ParseOptions, p: nat, n: nat, d: nat, fs: seq<Field>, i: nat, mode: WriteMode, read: seq<Field>)
    requires i < |fs| && CutWithin(t, p, Quoted(fs[i].key)) && Plain(fs[i].key, opt)
    requires |t| - p < |FieldsText(fs, i, mode, d)|
    ensures var r := ParseFields(t, opt, p, n, d, read);
            && (r.error == NoError ==> r.value == Null && Stuck(t, r.pos))
            && (r.error == NoError && r.pos == |t| <==> KeyCut(fs, mode, d, |FieldsText(fs, i, mode, d)| - (|t| - p)))
  {
    hide FieldsText, Quoted, Escaped, MidEscape, StringAt, SkipWs, ChildAt, Plain;
    var k, c := fs[i].key, |t| - p;
    var missing := |FieldsText(fs, i, mode, d)| - c;
    QuotedLength(k);
    if c == 0 {
      SkipExactly(t, p, p);
    } else {
      CutQuoted(t, opt, p, k);
      SkipExactly(t, p, p);
      if !MidEscape(k, c - 1) {
        assert CutAtKey(fs, mode, d, missing, i, c - 1);
      }
    }
    if j: nat, m: nat :| CutAtKey(fs, mode, d, missing, j, m) {
      CutKeyIs(fs, i, mode, d, c, j, m);
    }
  }

  // A whole key with what follows it cut.
  lemma CutBehindKey(t: string, opt: ParseOptions, p: nat, k: string, mode: WriteMode, rest: string)
    requires CutWithin(t, p, Quoted(k) + (Colon(mode) + rest)) && p + |Quoted(k)| <= |t| && Plain(k, opt)
    requires rest != "" && !IsWs(rest[0])
    ensures var q := p + |Quoted(k)| + |Colon(mode)|;
            if q < |t| then KeyAt(t, opt, p) == Key(k, q) && CutWithin(t, q, rest)
            else KeyAt(t, opt, p).NotAKey? || KeyAt(t, opt, p) == Key(k, |t|)
  {
    hide StringAt, Quoted, StartsAt, Plain, SkipWs;
    var e := p + |Quoted(k)|;
    CutSplit(t, p, Quoted(k), Colon(mode) + rest);
    QuotedReadsBack(t, opt, p, k);
    SkipExactly(t, p, p);
    CutSplit(t, e, Colon(mode), rest);
    CutCharacters(t, e, Colon(mode) + rest);
    if e == |t| {
      SkipExactly(t, e, e);
    } else {
      assert t[e] == ':';
      SkipExactly(t, e, e);
      if e + |Colon(mode)| < |t| {
        assert t[e + |Colon(mode)|] == rest[0];
        SkipExactly(t, e + 1, e + |Colon(mode)|);
      } else {
        SkipExactly(t, e + 1, |t|);
      }
    }
  }

  lemma NothingAtEnd(t: string, opt: ParseOptions, n: nat, d: nat, close: char)
    ensures ChildAt(t, opt, |t|, n, d, close).NoChild?
  {
    hide ParseToken;
  }

  lemma NoKeyAtEnd(t: string, opt: ParseOptions, p: nat, n: nat, d: nat, read: seq<Field>)
    requires p <= |t| && SkipWs(t, p) == |t|
    ensures ParseFields(t, opt, p, n, d, read).error != NoError
  {
    hide SkipWs, ChildAt, StringAt;
  }

  // Fields cut off are no object; they pass as null exactly when a key of them is cut.
  lemma {:induction false} FieldsCut(t: string, opt: ParseOptions, p: nat, n: nat, d: nat, fs: seq<Field>, i: nat, mode: WriteMode, read: seq<Field>)
    requires i < |fs| && CutWithin(t, p, FieldsText(fs, i, mode, d)) && FieldsFit(fs, i, opt, n, d)
    ensures var r := ParseFields(t, opt, p, n, d, read);
            && (r.error == NoError ==> r.value == Null && Stuck(t, r.pos))
            && (r.error == NoError && r.pos == |t| <==> KeyCut(fs, mode, d, |FieldsText(fs, i, mode, d)| - (|t| - p)))
    decreases fs, |fs| - i, 0
  {
    hide ChildAt, KeyAt, Dump, StartsAt, Gap, Size, FieldsSize, Norm, Closing, Quoted, Colon, SetField, Plain, SkipWs;
    hide Fits, FieldsFit, Ascending, KeyCut, Stuck;
    NextFieldFits(fs, i, opt, n, d);
    var k, v := fs[i].key, fs[i].value;
    var item, rest := Dump(v, mode, d + 1), AfterField(fs, i, mode, d);
    CutSplit(t, p, Quoted(k), Colon(mode) + (item + rest));
    if |t| - p < |Quoted(k)| {
      CutInKey(t, opt, p, n, d, fs, i, mode, read);
    } else {
      FirstCharacter(v, mode, d + 1);
      CutBehindKey(t, opt, p, k, mode, item + rest);
      var q := p + |Quoted(k)| + |Colon(mode)|;
      var e := q + |item|;
      ClosingStarts(mode, d, '}');
      if q < |t| {
        ChildCut(t, opt, q, n, d, v, mode, rest, '}');
      } else {
        NothingAtEnd(t, opt, n, d, '}');
      }
      if i + 1 < |fs| && e < |t| {
        CutSplit(t, q, item, rest);
        CutSplit(t, e, [','], Gap(mode, d + 1) + FieldsText(fs, i + 1, mode, d));
        NextFieldsCut(t, opt, e + 1, n + Size(v), d, fs, i + 1, mode, SetField(read, k, Norm(v)), |t| - p);
      } else {
        NoKeyCutBetween(fs, i, mode, d, |t| - p);
      }
    }
  }

  // The next field behind its gap; c characters of the field before it and of this one are there.
  lemma {:induction false} NextFieldsCut(t: string, opt: ParseOptions, p: nat, n: nat, d: nat, fs: seq<Field>, i: nat, mode: WriteMode, read: seq<Field>,
                                         c: nat)
    requires 0 < i < |fs| && CutWithin(t, p, Gap(mode, d + 1) + FieldsText(fs, i, mode, d)) && FieldsFit(fs, i, opt, n, d)
    requires |Quoted(fs[i - 1].key)| <= c < |FieldsText(fs, i - 1, mode, d)|
    requires |FieldsText(fs, i - 1, mode, d)| - c == |Gap(mode, d + 1)| + |FieldsText(fs, i, mode, d)| - (|t| - p)
    ensures var r := ParseFields(t, opt, p, n, d, read);
            && (r.error == NoError ==> r.value == Null && Stuck(t, r.pos))
            && (r.error == NoError && r.pos == |t| <==> KeyCut(fs, mode, d, |FieldsText(fs, i - 1, mode, d)| - c))
    decreases fs, |fs| - i, 1
  {
    hide ParseFields, Dump, StartsAt, Gap, SkipWs, FieldsFit, AfterField, KeyCut, Stuck, Escaped;
    assert FieldsText(fs, i, mode, d)[0] == '\"';
    CutGap(t, p, mode, d + 1, FieldsText(fs, i, mode, d));
    FieldsBehindGap(t, opt, p, n, d, read);
    if SkipWs(t, p) == |t| {
      NoKeyAtEnd(t, opt, p, n, d, read);
      NoKeyCutBetween(fs, i - 1, mode, d, c);
    } else {
      FieldsCut(t, opt, SkipWs(t, p), n, d, fs, i, mode, read);
    }
  }

  // An object cut off is an error or null; null at the end exactly when a key is cut.
  lemma {:induction false} ObjectCut(t: string, opt: ParseOptions, p: nat, n: nat, d: nat, fs: seq<Field>, mode: WriteMode)
    requires CutWithin(t, p, Dump(Object(fs), mode, d)) && p < |t| && n > 0 && Fits(Object(fs), opt, n - 1, d)
    ensures var r := ParseToken(t, opt, p, n, d);
            && (r.error == NoError ==> r.value == Null && Stuck(t, r.pos))
            && (r.error == NoError && r.pos == |t| <==> KeyCut(fs, mode, d, |Dump(Object(fs), mode, d)| - (|t| - p)))
    decreases fs, |fs| + 1, 1
  {
    hide ParseItems, ParseFields, StartsAt, Gap, DumpFields, FieldsText, Fits, FieldsFit, SkipWs, Plain, KeyCut, Stuck;
    if fs == [] {
      EmptyObjectCut(t, opt, p, n, d, mode);
    } else {
      ChildrenOfObjectFit(fs, opt, n, d);
      FieldsLayout(fs, 0, mode, d);
      var body := Gap(mode, d + 1) + FieldsText(fs, 0, mode, d);
      ObjectLayout(fs, mode, d, body);
      CutCharacters(t, p, ['{'] + body);
      CutSplit(t, p, ['{'], body);
      FieldsBehindGap(t, opt, p + 1, n, d, []);
      FirstFieldsCut(t, opt, p + 1, n, d, fs, mode);
    }
  }

  lemma EmptyObjectCut(t: string, opt: ParseOptions, p: nat, n: nat, d: nat, mode: WriteMode)
    requires CutWithin(t, p, Dump(Object([]), mode, d)) && p < |t|
    ensures ParseToken(t, opt, p, n, d).error != NoError
    ensures forall missing :: !KeyCut([], mode, d, missing)
  {
    hide ParseItems, ParseFields, StartsAt, SkipWs;
    assert Dump(Object([]), mode, d) == "{}" by {
      NoMoreFields([], mode, d);
    }
    CutCharacters(t, p, "{}");
    SkipExactly(t, p + 1, p + 1);
    NoKeyAtEnd(t, opt, p + 1, n, d, []);
  }

  lemma {:induction false} FirstFieldsCut(t: string, opt: ParseOptions, p: nat, n: nat, d: nat, fs: seq<Field>, mode: WriteMode)
    requires fs != [] && CutWithin(t, p, Gap(mode, d + 1) + FieldsText(fs, 0, mode, d)) && FieldsFit(fs, 0, opt, n, d)
    ensures var q := SkipWs(t, p);
            var r := ParseFields(t, opt, q, n, d, []);
            && (q < |t| ==> t[q] != '}')
            && (r.error == NoError ==> r.value == Null && Stuck(t, r.pos))
            && (r.error == NoError && r.pos == |t| <==>
                KeyCut(fs, mode, d, |Gap(mode, d + 1)| + |FieldsText(fs, 0, mode, d)| - (|t| - p)))
    decreases fs, |fs| + 1, 0
  {
    hide ParseFields, Dump, StartsAt, Gap, SkipWs, FieldsFit, AfterField, KeyCut, Stuck, Escaped;
    assert FieldsText(fs, 0, mode, d)[0] == '\"';
    CutGap(t, p, mode, d + 1, FieldsText(fs, 0, mode, d));
    if SkipWs(t, p) == |t| {
      FieldsBehindGap(t, opt, p, n, d, []);
      NoKeyAtEnd(t, opt, p, n, d, []);
      NoKeyCutAhead(fs, mode, d, |Gap(mode, d + 1)| + |FieldsText(fs, 0, mode, d)| - (|t| - p));
    } else {
      FieldsCut(t, opt, SkipWs(t, p), n, d, fs, 0, mode, []);
    }
  }

  lemma NoKeyCutAhead(fs: seq<Field>, mode: WriteMode, d: nat, missing: int)
    requires fs != [] && missing >= |FieldsText(fs, 0, mode, d)|
    ensures !KeyCut(fs, mode, d, missing)
  {
    hide FieldsText, Quoted, Escaped, MidEscape;
    if j: nat, m: nat :| CutAtKey(fs, mode, d, missing, j, m) {
      if j > 0 {
        LaterFieldsAreShorter(fs, 0, j, mode, d);
      }
    }
  }

  // ---- The verdict on cut texts ----------------------------------------------------------------------

  // Which proper beginnings of a printed value are accepted: objects cut in a key of their own,
  // strings cut anywhere but in a Unicode escape, and numbers that still are one.
  ghost predicate CutPasses(v: Value, mode: WriteMode, c: nat) {
    match v
    case Object(fs) => KeyCut(fs, mode, 0, |Dump(v, mode, 0)| - c)
    case String(s) => c > 0 && !MidEscape(s, c - 1)
    case _ => NumberPasses(v, c)
  }

  // Every proper beginning of a printed value within the limits: accepted exactly as said, and
  // then read as null unless it is a shorter number.
  lemma TruncationVerdict(v: Value, mode: WriteMode, opt: ParseOptions, c: nat)
    requires Printable(v, opt) && InBounds(v, opt) && c < |Dump(v, mode, 0)|
    ensures var r := Parse(Dump(v, mode, 0)[..c], opt);
            && (r.Ok() <==> CutPasses(v, mode, c))
            && (r.Ok() && !v.Int? && !v.Uint? && !v.Double? ==> r.value == Null)
  {
    hide ParseToken, Dump, NestsWithin, Printable, SkipWs, KeyCut, MidEscape, Size;
    var t := Dump(v, mode, 0)[..c];
    assert t[0..] == t;
    assert CutWithin(t, 0, Dump(v, mode, 0));
    SizeIsPositive(v);
    if c == 0 {
      SkipExactly(t, 0, 0);
      NothingPasses(v, mode);
    } else {
      PrintedStart(v, mode, opt);
      CutCharacters(t, 0, Dump(v, mode, 0));
      SkipExactly(t, 0, 0);
      TokenVerdict(t, opt, v, mode);
      var r := ParseToken(t, opt, 0, 1, 0);
      if r.error == NoError {
        SkipExactly(t, r.pos, r.pos);
      }
    }
  }

  lemma SizeIsPositive(v: Value)
    ensures Size(v) > 0
  {
  }

  lemma PrintedStart(v: Value, mode: WriteMode, opt: ParseOptions)
    requires Printable(v, opt)
    ensures Dump(v, mode, 0) != "" && !IsWs(Dump(v, mode, 0)[0])
  {
    hide Dump;
    FirstCharacter(v, mode, 0);
  }

  lemma NothingPasses(v: Value, mode: WriteMode)
    ensures !CutPasses(v, mode, 0)
  {
    hide FieldsText, MidEscape, Quoted, Escaped;
    if v.Object? && KeyCut(v.fields, mode, 0, |Dump(v, mode, 0)|) {
      var fs := v.fields;
      FieldsLayout(fs, 0, mode, 0);
      ObjectLayout(fs, mode, 0, Gap(mode, 1) + FieldsText(fs, 0, mode, 0));
      NoKeyCutAhead(fs, mode, 0, |Dump(v, mode, 0)|);
    }
  }

  lemma TokenVerdict(t: string, opt: ParseOptions, v: Value, mode: WriteMode)
    requires CutWithin(t, 0, Dump(v, mode, 0)) && t != "" && Fits(v, opt, 0, 0)
    ensures var r := ParseToken(t, opt, 0, 1, 0);
            && (r.error == NoError ==> Stuck(t, r.pos) && (v.Int? || v.Uint? || v.Double? || r.value == Null))
            && (r.error == NoError && r.pos == |t| <==> CutPasses(v, mode, |t|))
  {
    hide ParseToken, NestsWithin, Size, KeyCut, MidEscape, Dump, CutWithin;
    match v {
      case Array(a) => ArrayCut(t, opt, 0, 1, 0, a, mode);
      case Object(fs) => ObjectCut(t, opt, 0, 1, 0, fs, mode);
      case _ => ScalarCut(t, opt, 0, 1, 0, v, mode);
    }
  }
}
