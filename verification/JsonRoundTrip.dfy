// Printing and parsing back: the identity up to normalisation of numbers. What is printed at a
// position is what the parser reads there.

module JsonRoundTrip {
  import opened Types
  import opened Text
  import opened Doubles
  import opened Ordering
  import opened JsonValues
  import opened JsonGrammar
  import opened JsonPrinter
  import opened JsonNumbers

  // ---- Normal values --------------------------------------------------------------------

  // What a value reads back as: integers that are not negative become unsigned, unsigned ones
  // saturate at the largest signed value, and doubles are rounded to six decimals.
  function Norm(v: Value): Value {
    match v
    case Int(i) => if i < 0 then v else Uint(i)
    case Uint(u) => Uint(if u > MAX_INT64 then MAX_INT64 else u)
    case Double(f) => NormFloat(f)
    case Array(a) => Array(seq(|a|, i requires 0 <= i < |a| => Norm(a[i])))
    case Object(fs) => Object(seq(|fs|, i requires 0 <= i < |fs| => Field(fs[i].key, Norm(fs[i].value))))
    case _ => v
  }

  ghost predicate Plain(s: string, opt: ParseOptions) {
    |s| <= opt.maxStringBytes && SevenBit(s)
  }

  predicate SevenBit(s: string) {
    forall i :: 0 <= i < |s| ==> s[i] as int < 0x80
  }

  // With 7-bit strings within the string bound.
  ghost predicate Printable(v: Value, opt: ParseOptions) {
    match v
    case String(s) => Plain(s, opt)
    case Array(a) => forall i :: 0 <= i < |a| ==> Printable(a[i], opt)
    case Object(fs) => Ascending(fs) && forall i :: 0 <= i < |fs| ==> Plain(fs[i].key, opt) && Printable(fs[i].value, opt)
    case _ => true
  }

  // ---- Gaps ---------------------------------------------------------------------------------

  lemma {:induction false} IndentIsWs(d: nat)
    ensures forall c :: c in Indent(d) ==> IsWs(c)
  {
    if d > 0 {
      IndentIsWs(d - 1);
    }
  }

  // A gap is skipped, whatever its mode.
  lemma SkipGap(t: string, p: nat, mode: WriteMode, d: nat)
    requires StartsAt(t, p, Gap(mode, d))
    requires var q := p + |Gap(mode, d)|; q < |t| ==> !IsWs(t[q])
    ensures SkipWs(t, p) == p + |Gap(mode, d)|
  {
    IndentIsWs(d);
    CharactersAt(t, p, Gap(mode, d));
    SkipExactly(t, p, p + |Gap(mode, d)|);
  }

  // ---- Strings --------------------------------------------------------------------------

  lemma ControlEscape(c: nat)
    requires c < 0x20
    ensures [Digit(16, c / 16), Digit(16, c % 16)] == Padded(Numeral(16, c), 2)
    ensures "00" + [Digit(16, c / 16), Digit(16, c % 16)] == Hex(c, 4)
  {
    if c < 16 {
      assert Numeral(16, c) == [Digit(16, c)];
      assert Padded([Digit(16, c)], 2) == "0" + [Digit(16, c)];
    } else {
      assert Numeral(16, c) == Numeral(16, 1) + [Digit(16, c % 16)];
    }
    PadTwice(Numeral(16, c));
  }

  lemma PadTwice(s: string)
    requires 1 <= |s| <= 2
    ensures Padded(s, 4) == "00" + Padded(s, 2)
  {
    if |s| == 1 {
      assert Padded("0" + s, 2) == "0" + s;
      assert Padded("0" + ("0" + ("0" + s)), 4) == "0" + ("0" + ("0" + s));
      assert "0" + ("0" + ("0" + s)) == "00" + ("0" + s);
    } else {
      assert Padded("0" + ("0" + s), 4) == "0" + ("0" + s);
      assert "0" + ("0" + s) == "00" + s;
    }
  }

  // Each escape reads as the character it stands for.
  lemma EscapeReadsBack(t: string, opt: ParseOptions, p: nat, buf: string, c: char)
    requires c as int < 0x80 && StartsAt(t, p, Escape(c))
    ensures StringAt(t, opt, p, buf) == Accumulate(t, opt, p + |Escape(c)|, buf + [c])
  {
    hide Accumulate, Hex4, StartsAt, Utf8;
    CharactersAt(t, p, Escape(c));
    if Escape(c)[0] == '\\' && Escape(c)[1] == 'u' {
      ControlReadsBack(t, p, c);
    }
  }

  lemma ControlReadsBack(t: string, p: nat, c: char)
    requires StartsAt(t, p, Escape(c)) && Escape(c)[0] == '\\' && |Escape(c)| > 1 && Escape(c)[1] == 'u'
    ensures p + 6 <= |t| && |Escape(c)| == 6 && Hex4(t, p + 2) == Some(c as nat) && Utf8(c as nat) == [c]
  {
    hide Hex, Hex4;
    var n := c as nat;
    ControlEscape(n);
    assert Escape(c) == "\\u" + Hex(n, 4) by {
      assert "\\u00" == "\\u" + "00";
    }
    StartsSplit(t, p, "\\u", Hex(n, 4));
    HexFour(t, p + 2, n);
  }

  lemma HexFour(t: string, p: nat, n: nat)
    requires p + 4 <= |t| && t[p..p + 4] == Hex(n, 4)
    ensures Hex4(t, p) == Some(n)
  {
    HexRoundTrip(n, 4);
  }

  lemma EscapedHead(s: string)
    requires s != ""
    ensures Escaped(s) + "\"" == Escape(s[0]) + (Escaped(s[1..]) + "\"")
    ensures |Escaped(s)| == |Escape(s[0])| + |Escaped(s[1..])|
  {
    hide Escape;
  }

  lemma {:induction false} StringReadsBack(t: string, opt: ParseOptions, p: nat, buf: string, s: string)
    requires StartsAt(t, p, Escaped(s) + "\"") && |buf| + |s| <= opt.maxStringBytes && SevenBit(s)
    ensures StringAt(t, opt, p, buf) == StringScan(true, buf + s, p + |Escaped(s)| + 1)
    decreases |s|
  {
    hide Escape, StringAt, StartsAt, Escaped;
    if s == "" {
      ClosingQuote(t, opt, p, buf);
    } else {
      var rest := s[1..];
      assert s == [s[0]] + rest;
      EscapedHead(s);
      StartsSplit(t, p, Escape(s[0]), Escaped(rest) + "\"");
      EscapeReadsBack(t, opt, p, buf, s[0]);
      StringReadsBack(t, opt, p + |Escape(s[0])|, buf + [s[0]], rest);
      assert buf + [s[0]] + rest == buf + s;
    }
  }

  lemma ClosingQuote(t: string, opt: ParseOptions, p: nat, buf: string)
    requires StartsAt(t, p, Escaped("") + "\"")
    ensures StringAt(t, opt, p, buf) == StringScan(true, buf + "", p + |Escaped("")| + 1)
  {
    StartsWith(t, p, '\"', "");
    assert buf + "" == buf;
  }

  lemma QuotedReadsBack(t: string, opt: ParseOptions, p: nat, s: string)
    requires StartsAt(t, p, Quoted(s)) && Plain(s, opt)
    ensures p < |t| && t[p] == '\"' && StringAt(t, opt, p + 1, "") == StringScan(true, s, p + |Quoted(s)|)
  {
    hide Escaped, StringAt;
    assert Quoted(s) == ['\"'] + (Escaped(s) + "\"");
    StartsWith(t, p, '\"', Escaped(s) + "\"");
    StringReadsBack(t, opt, p + 1, "", s);
    assert "" + s == s;
  }

  // ---- Shape of printed text ------------------------------------------------------------------

  // A printed value starts with a character that is neither white space nor a bracket closing
  // something else.
  lemma FirstCharacter(v: Value, mode: WriteMode, d: nat)
    ensures var s := Dump(v, mode, d); s != "" && !IsWs(s[0]) && s[0] != ']' && s[0] != '}'
  {
    match v {
      case Int(i) => SignedStarts(i);
      case Uint(u) => SignedStarts(u);
      case Double(f) => FloatStarts(f);
      case _ =>
    }
  }

  // The end of an array or object that has children.
  function Closing(mode: WriteMode, d: nat, close: char): string {
    Gap(mode, d) + [close]
  }

  // From item i to the closing bracket.
  function ItemsText(a: seq<Value>, i: nat, mode: WriteMode, d: nat): string
    requires i < |a|
    decreases |a| - i, 1
  {
    Dump(a[i], mode, d + 1) + AfterItem(a, i, mode, d)
  }

  function AfterItem(a: seq<Value>, i: nat, mode: WriteMode, d: nat): string
    requires i < |a|
    decreases |a| - i, 0
  {
    if i + 1 == |a| then Closing(mode, d, ']') else [','] + (Gap(mode, d + 1) + ItemsText(a, i + 1, mode, d))
  }

  // From field i to the closing brace.
  function FieldsText(fs: seq<Field>, i: nat, mode: WriteMode, d: nat): string
    requires i < |fs|
    decreases |fs| - i, 1
  {
    Quoted(fs[i].key) + (Colon(mode) + (Dump(fs[i].value, mode, d + 1) + AfterField(fs, i, mode, d)))
  }

  function AfterField(fs: seq<Field>, i: nat, mode: WriteMode, d: nat): string
    requires i < |fs|
    decreases |fs| - i, 0
  {
    if i + 1 == |fs| then Closing(mode, d, '}') else [','] + (Gap(mode, d + 1) + FieldsText(fs, i + 1, mode, d))
  }

  lemma {:induction false} ItemsLayout(a: seq<Value>, i: nat, mode: WriteMode, d: nat)
    requires i < |a|
    ensures DumpItems(a, i, mode, d) + Closing(mode, d, ']') ==
            (if i > 0 then "," else "") + (Gap(mode, d + 1) + ItemsText(a, i, mode, d))
    decreases |a| - i
  {
    hide Gap, Dump, Closing;
    var comma, gap, item := if i > 0 then "," else "", Gap(mode, d + 1), Dump(a[i], mode, d + 1);
    if i + 1 < |a| {
      ItemsLayout(a, i + 1, mode, d);
    } else {
      assert DumpItems(a, i + 1, mode, d) + Closing(mode, d, ']') == Closing(mode, d, ']');
    }
    assert DumpItems(a, i + 1, mode, d) + Closing(mode, d, ']') == AfterItem(a, i, mode, d);
    Regroup(comma, gap, item, DumpItems(a, i + 1, mode, d), Closing(mode, d, ']'));
  }

  lemma Regroup(a: string, b: string, c: string, d: string, e: string)
    ensures (a + (b + c + d)) + e == a + (b + (c + (d + e)))
  {
    assert b + c + d + e == b + (c + (d + e));
  }

  lemma {:induction false} FieldsLayout(fs: seq<Field>, i: nat, mode: WriteMode, d: nat)
    requires i < |fs|
    ensures DumpFields(fs, i, mode, d) + Closing(mode, d, '}') ==
            (if i > 0 then "," else "") + (Gap(mode, d + 1) + FieldsText(fs, i, mode, d))
    decreases |fs| - i
  {
    hide Gap, Dump, Closing, Quoted, Colon;
    var comma, gap, key := if i > 0 then "," else "", Gap(mode, d + 1), Quoted(fs[i].key);
    var colon, item := Colon(mode), Dump(fs[i].value, mode, d + 1);
    if i + 1 < |fs| {
      FieldsLayout(fs, i + 1, mode, d);
    } else {
      assert DumpFields(fs, i + 1, mode, d) + Closing(mode, d, '}') == Closing(mode, d, '}');
    }
    assert DumpFields(fs, i + 1, mode, d) + Closing(mode, d, '}') == AfterField(fs, i, mode, d);
    Regroup(comma, gap + key + colon, item, DumpFields(fs, i + 1, mode, d), Closing(mode, d, '}'));
    assert gap + key + colon + (item + AfterField(fs, i, mode, d)) == gap + (key + (colon + (item + AfterField(fs, i, mode, d))));
  }

  // ---- Round trip --------------------------------------------------------------------------------

  // The value fits below the given depth and behind the values counted so far.
  ghost predicate Fits(v: Value, opt: ParseOptions, n: nat, d: nat) {
    Printable(v, opt) && d <= opt.maxDepth && NestsWithin(v, opt.maxDepth - d) && n + Size(v) <= opt.maxNodes
  }

  lemma {:induction false} ValueReadsBack(t: string, opt: ParseOptions, p: nat, n: nat, d: nat, v: Value, mode: WriteMode)
    requires StartsAt(t, p, Dump(v, mode, d)) && NumberStops(t, p + |Dump(v, mode, d)|)
    requires Fits(v, opt, n, d)
    ensures ParseAt(t, opt, p, n, d) == Parsed(NoError, Norm(v), p + |Dump(v, mode, d)|, n + Size(v))
    decreases v, 1
  {
    hide ParseToken, Dump, Norm, NestsWithin;
    FirstCharacter(v, mode, d);
    CharactersAt(t, p, Dump(v, mode, d));
    SkipExactly(t, p, p);
    assert Size(v) >= 1;
    TokenReadsBack(t, opt, p, n + 1, d, v, mode);
  }

  lemma {:induction false} TokenReadsBack(t: string, opt: ParseOptions, p: nat, n: nat, d: nat, v: Value, mode: WriteMode)
    requires StartsAt(t, p, Dump(v, mode, d)) && NumberStops(t, p + |Dump(v, mode, d)|) && p < |t|
    requires n > 0 && Fits(v, opt, n - 1, d)
    ensures ParseToken(t, opt, p, n, d) == Parsed(NoError, Norm(v), p + |Dump(v, mode, d)|, n - 1 + Size(v))
    decreases v, 0
  {
    hide ParseToken, StartsAt, Dump, Norm, NestsWithin, Size;
    match v {
      case Array(a) => ArrayReadsBack(t, opt, p, n, d, a, mode);
      case Object(fs) => ObjectReadsBack(t, opt, p, n, d, fs, mode);
      case _ => ScalarReadsBack(t, opt, p, n, d, v, mode);
    }
  }

  lemma ScalarReadsBack(t: string, opt: ParseOptions, p: nat, n: nat, d: nat, v: Value, mode: WriteMode)
    requires StartsAt(t, p, Dump(v, mode, d)) && NumberStops(t, p + |Dump(v, mode, d)|) && p < |t|
    requires Printable(v, opt) && !v.Array? && !v.Object?
    ensures ParseToken(t, opt, p, n, d) == Parsed(NoError, Norm(v), p + |Dump(v, mode, d)|, n) && Size(v) == 1
  {
    hide StringAt, NumberAt, ParseItems, ParseFields, SkipWs, Quoted, Signed, Plain, NormFloat, FloatText;
    match v {
      case Null => CharactersAt(t, p, "null");
      case Bool(b) => CharactersAt(t, p, Dump(v, mode, d));
      case Int(i) => NumberReadsBack(t, opt, p, i);
      case Uint(u) =>
        assert Signed(u) == Numeral(10, u) by {
          SignedNat(u);
        }
        NumberReadsBack(t, opt, p, u);
      case Double(f) => DoubleReadsBack(t, opt, p, n, d, f);
      case String(s) => QuotedReadsBack(t, opt, p, s);
    }
  }

  lemma DoubleReadsBack(t: string, opt: ParseOptions, p: nat, n: nat, d: nat, f: Float64)
    requires StartsAt(t, p, FloatText(f)) && NumberStops(t, p + |FloatText(f)|) && p < |t|
    ensures ParseToken(t, opt, p, n, d) == Parsed(NoError, NormFloat(f), p + |FloatText(f)|, n)
  {
    hide StringAt, NumberAt, ParseItems, ParseFields, SkipWs, Shortened, SixDecimals;
    if f == NotANumber {
      NullReadsBack(t, opt, p, n, d);
    } else {
      hide StartsAt, NormFloat, FloatText;
      FloatReadsBack(t, opt, p, f);
    }
  }

  lemma NullReadsBack(t: string, opt: ParseOptions, p: nat, n: nat, d: nat)
    requires StartsAt(t, p, "null")
    ensures p < |t| && ParseToken(t, opt, p, n, d) == Parsed(NoError, Null, p + 4, n)
  {
    hide StringAt, NumberAt, ParseItems, ParseFields, SkipWs;
    CharactersAt(t, p, "null");
    assert t[p] == "null"[0];
  }

  lemma SignedNat(u: nat)
    ensures Signed(u) == Numeral(10, u)
  {
  }

  // A child followed by a comma or by the end of its parent.
  lemma {:induction false} ChildReadsBack(t: string, opt: ParseOptions, p: nat, n: nat, d: nat, v: Value, mode: WriteMode,
                                          rest: string, close: char)
    requires StartsAt(t, p, Dump(v, mode, d + 1) + rest) && Fits(v, opt, n, d + 1)
    requires close == ']' || close == '}'
    requires rest == Closing(mode, d, close) || (rest != "" && rest[0] == ',')
    ensures var q := p + |Dump(v, mode, d + 1)|;
            ChildAt(t, opt, p, n, d, close) ==
            if rest[0] == ',' then More(Norm(v), q + 1, n + Size(v)) else Last(Norm(v), q + |rest|, n + Size(v))
    decreases v, 2
  {
    hide ParseAt, Dump, Norm, Fits, Size, StartsAt, Closing, SkipWs, NumberStops, IsWs;
    var q := p + |Dump(v, mode, d + 1)|;
    StartsSplit(t, p, Dump(v, mode, d + 1), rest);
    BehindChild(t, q, mode, d, rest, close);
    ValueReadsBack(t, opt, p, n, d + 1, v, mode);
  }

  lemma BehindChild(t: string, p: nat, mode: WriteMode, d: nat, rest: string, close: char)
    requires StartsAt(t, p, rest) && (close == ']' || close == '}')
    requires rest == Closing(mode, d, close) || (rest != "" && rest[0] == ',')
    ensures rest != "" && p < |t| && NumberStops(t, p)
    ensures if rest[0] == ',' then SkipWs(t, p) == p && t[p] == ','
            else SkipWs(t, p) == p + |rest| - 1 < |t| && t[p + |rest| - 1] == close
  {
    hide StartsAt, Closing, SkipWs;
    ClosingStarts(mode, d, close);
    CharactersAt(t, p, rest);
    assert rest[0] == t[p];
    if rest[0] == ',' {
      SkipExactly(t, p, p);
    } else {
      SkipClosing(t, p, mode, d, close);
    }
  }

  lemma SkipClosing(t: string, p: nat, mode: WriteMode, d: nat, close: char)
    requires StartsAt(t, p, Closing(mode, d, close)) && !IsWs(close)
    ensures var q := p + |Closing(mode, d, close)|; 0 < q <= |t| && SkipWs(t, p) == q - 1 && t[q - 1] == close
  {
    hide Gap;
    StartsSplit(t, p, Gap(mode, d), [close]);
    StartsWith(t, p + |Gap(mode, d)|, close, "");
    SkipGap(t, p, mode, d);
  }

  // ---- Arrays ---------------------------------------------------------------------------------------

  function NormItems(a: seq<Value>): (r: seq<Value>)
    ensures Array(r) == Norm(Array(a))
  {
    seq(|a|, i requires 0 <= i < |a| => Norm(a[i]))
  }

  lemma NormItemsAt(a: seq<Value>)
    ensures |NormItems(a)| == |a|
    ensures forall j :: 0 <= j < |a| ==> NormItems(a)[j] == Norm(a[j])
  {
    hide Norm;
  }

  ghost predicate ItemsFit(a: seq<Value>, i: nat, opt: ParseOptions, n: nat, d: nat)
    requires i <= |a|
  {
    && d + 1 <= opt.maxDepth && n + ItemsSize(a, i) <= opt.maxNodes
    && forall j :: i <= j < |a| ==> Printable(a[j], opt) && NestsWithin(a[j], opt.maxDepth - (d + 1))
  }

  lemma ChildrenOfArrayFit(a: seq<Value>, opt: ParseOptions, n: nat, d: nat)
    requires a != [] && n > 0 && Fits(Array(a), opt, n - 1, d)
    ensures ItemsFit(a, 0, opt, n, d) && Size(Array(a)) == 1 + ItemsSize(a, 0)
  {
  }

  // Leading white space makes no difference to the items.
  lemma ItemsBehindGap(t: string, opt: ParseOptions, p: nat, n: nat, d: nat, read: seq<Value>)
    requires p <= |t|
    ensures ParseItems(t, opt, p, n, d, read) == ParseItems(t, opt, SkipWs(t, p), n, d, read)
  {
    hide ChildAt;
    SkipExactly(t, SkipWs(t, p), SkipWs(t, p));
  }

  lemma NoSpaceBefore(t: string, p: nat, v: Value, mode: WriteMode, d: nat, rest: string)
    requires StartsAt(t, p, Dump(v, mode, d) + rest)
    ensures SkipWs(t, p) == p < |t| && t[p] != ']' && t[p] != '}'
  {
    hide Dump, StartsAt;
    FirstCharacter(v, mode, d);
    CharactersAt(t, p, Dump(v, mode, d) + rest);
    assert t[p] == Dump(v, mode, d)[0];
    SkipExactly(t, p, p);
  }

  lemma NextItemFits(a: seq<Value>, i: nat, opt: ParseOptions, n: nat, d: nat)
    requires i < |a| && ItemsFit(a, i, opt, n, d)
    ensures Fits(a[i], opt, n, d + 1)
    ensures ItemsFit(a, i + 1, opt, n + Size(a[i]), d)
    ensures ItemsSize(a, i) == Size(a[i]) + ItemsSize(a, i + 1) && ItemsSize(a, |a|) == 0
  {
    hide NestsWithin;
  }

  // Item i is read, and behind its comma stands the next item.
  lemma {:induction false} ItemReadsBack(t: string, opt: ParseOptions, p: nat, n: nat, d: nat, a: seq<Value>, i: nat, mode: WriteMode)
    requires i < |a| && StartsAt(t, p, ItemsText(a, i, mode, d)) && ItemsFit(a, i, opt, n, d)
    ensures SkipWs(t, p) == p < |t|
    ensures var q, m := p + |Dump(a[i], mode, d + 1)|, n + Size(a[i]);
            if i + 1 == |a| then ChildAt(t, opt, p, n, d, ']') == Last(Norm(a[i]), p + |ItemsText(a, i, mode, d)|, m)
            else
              && ChildAt(t, opt, p, n, d, ']') == More(Norm(a[i]), q + 1, m)
              && q < |t| && SkipWs(t, q + 1) == q + 1 + |Gap(mode, d + 1)|
              && StartsAt(t, SkipWs(t, q + 1), ItemsText(a, i + 1, mode, d))
    decreases a, |a| - i, 0
  {
    hide ChildAt, Dump, StartsAt, Gap, Size, ItemsSize, Norm, Closing, SkipWs, Fits, ItemsFit, ParseItems;
    NextItemFits(a, i, opt, n, d);
    var item, rest := Dump(a[i], mode, d + 1), AfterItem(a, i, mode, d);
    NoSpaceBefore(t, p, a[i], mode, d + 1, rest);
    ChildReadsBack(t, opt, p, n, d, a[i], mode, rest, ']');
    if i + 1 < |a| {
      var q := p + |item| + 1;
      StartsSplit(t, p, item, rest);
      StartsWith(t, q - 1, ',', Gap(mode, d + 1) + ItemsText(a, i + 1, mode, d));
      NextItemFits(a, i + 1, opt, n + Size(a[i]), d);
      SkipToItems(t, q, a, i + 1, mode, d);
    } else {
      ClosingStarts(mode, d, ']');
    }
  }

  lemma {:induction false} ItemsReadBack(t: string, opt: ParseOptions, p: nat, n: nat, d: nat, a: seq<Value>, i: nat, mode: WriteMode)
    requires i < |a| && StartsAt(t, p, ItemsText(a, i, mode, d)) && ItemsFit(a, i, opt, n, d)
    ensures ParseItems(t, opt, p, n, d, NormItems(a)[..i]) ==
            Parsed(NoError, Array(NormItems(a)), p + |ItemsText(a, i, mode, d)|, n + ItemsSize(a, i))
    decreases a, |a| - i, 1
  {
    hide ChildAt, Dump, StartsAt, Gap, Size, ItemsSize, Norm, Closing, SkipWs, Fits, ItemsFit;
    NextItemFits(a, i, opt, n, d);
    ItemReadsBack(t, opt, p, n, d, a, i, mode);
    assert NormItems(a)[..i] + [Norm(a[i])] == NormItems(a)[..i + 1];
    if i + 1 < |a| {
      var q := p + |Dump(a[i], mode, d + 1)| + 1;
      ItemsBehindGap(t, opt, q, n + Size(a[i]), d, NormItems(a)[..i + 1]);
      ItemsReadBack(t, opt, SkipWs(t, q), n + Size(a[i]), d, a, i + 1, mode);
    }
  }

  lemma ClosingStarts(mode: WriteMode, d: nat, close: char)
    ensures Closing(mode, d, close) != "" && (Closing(mode, d, close)[0] == '\n' || Closing(mode, d, close)[0] == close)
  {
  }

  lemma SkipToItems(t: string, p: nat, a: seq<Value>, i: nat, mode: WriteMode, d: nat)
    requires i < |a| && StartsAt(t, p, Gap(mode, d + 1) + ItemsText(a, i, mode, d))
    ensures SkipWs(t, p) == p + |Gap(mode, d + 1)| < |t|
    ensures StartsAt(t, p + |Gap(mode, d + 1)|, ItemsText(a, i, mode, d))
    ensures t[SkipWs(t, p)] != ']'
  {
    hide Gap, Dump, AfterItem, StartsAt;
    var q := p + |Gap(mode, d + 1)|;
    StartsSplit(t, p, Gap(mode, d + 1), ItemsText(a, i, mode, d));
    FirstCharacter(a[i], mode, d + 1);
    CharactersAt(t, q, ItemsText(a, i, mode, d));
    assert t[q] == ItemsText(a, i, mode, d)[0];
    SkipGap(t, p, mode, d + 1);
  }

  lemma {:induction false} ArrayReadsBack(t: string, opt: ParseOptions, p: nat, n: nat, d: nat, a: seq<Value>, mode: WriteMode)
    requires StartsAt(t, p, Dump(Array(a), mode, d)) && p < |t|
    requires n > 0 && Fits(Array(a), opt, n - 1, d)
    ensures ParseToken(t, opt, p, n, d) ==
            Parsed(NoError, Norm(Array(a)), p + |Dump(Array(a), mode, d)|, n - 1 + Size(Array(a)))
    decreases a, |a| + 1, 0
  {
    hide ParseItems, ParseFields, StartsAt, Gap, Norm, DumpItems, ItemsText, Fits, ItemsFit;
    if a == [] {
      assert Dump(Array(a), mode, d) == "[]" by {
        NoMoreItems(a, mode, d);
      }
      assert "[]" == ['['] + "]" && "]" == [']'] + "";
      StartsWith(t, p, '[', "]");
      StartsWith(t, p + 1, ']', "");
      SkipExactly(t, p + 1, p + 1);
      assert NormItems(a) == [];
    } else {
      ChildrenOfArrayFit(a, opt, n, d);
      ItemsLayout(a, 0, mode, d);
      var body := Gap(mode, d + 1) + ItemsText(a, 0, mode, d);
      ArrayLayout(a, mode, d, body);
      StartsWith(t, p, '[', body);
      SkipToItems(t, p + 1, a, 0, mode, d);
      assert NormItems(a)[..0] == [];
      ItemsReadBack(t, opt, p + 1 + |Gap(mode, d + 1)|, n, d, a, 0, mode);
    }
  }

  lemma ArrayLayout(a: seq<Value>, mode: WriteMode, d: nat, body: string)
    requires a != [] && DumpItems(a, 0, mode, d) + Closing(mode, d, ']') == "" + body
    ensures Dump(Array(a), mode, d) == ['['] + body
  {
    hide Gap, DumpItems;
    var gap := Gap(mode, d);
    assert "[" + DumpItems(a, 0, mode, d) + gap + "]" == ['['] + (DumpItems(a, 0, mode, d) + (gap + [']']));
  }

  // ---- Objects --------------------------------------------------------------------------------------

  function NormFields(fs: seq<Field>): (r: seq<Field>)
    ensures Object(r) == Norm(Object(fs))
  {
    seq(|fs|, i requires 0 <= i < |fs| => Field(fs[i].key, Norm(fs[i].value)))
  }

  ghost predicate FieldsFit(fs: seq<Field>, i: nat, opt: ParseOptions, n: nat, d: nat)
    requires i <= |fs|
  {
    && d + 1 <= opt.maxDepth && n + FieldsSize(fs, i) <= opt.maxNodes && Ascending(fs)
    && forall j :: i <= j < |fs| ==>
         Plain(fs[j].key, opt) && Printable(fs[j].value, opt) && NestsWithin(fs[j].value, opt.maxDepth - (d + 1))
  }

  lemma ChildrenOfObjectFit(fs: seq<Field>, opt: ParseOptions, n: nat, d: nat)
    requires fs != [] && n > 0 && Fits(Object(fs), opt, n - 1, d)
    ensures FieldsFit(fs, 0, opt, n, d) && Size(Object(fs)) == 1 + FieldsSize(fs, 0)
  {
  }

  lemma FieldsBehindGap(t: string, opt: ParseOptions, p: nat, n: nat, d: nat, read: seq<Field>)
    requires p <= |t|
    ensures ParseFields(t, opt, p, n, d, read) == ParseFields(t, opt, SkipWs(t, p), n, d, read)
  {
    hide KeyAt, ChildAt;
    KeyBehindGap(t, opt, p);
  }

  lemma KeyBehindGap(t: string, opt: ParseOptions, p: nat)
    requires p <= |t|
    ensures KeyAt(t, opt, p) == KeyAt(t, opt, SkipWs(t, p))
  {
    hide StringAt;
    SkipExactly(t, SkipWs(t, p), SkipWs(t, p));
  }

  lemma KeyReadsBack(t: string, opt: ParseOptions, p: nat, k: string, mode: WriteMode, rest: string)
    requires StartsAt(t, p, Quoted(k) + (Colon(mode) + rest)) && Plain(k, opt) && rest != "" && !IsWs(rest[0])
    ensures KeyAt(t, opt, p) == Key(k, p + |Quoted(k)| + |Colon(mode)|)
    ensures StartsAt(t, p + |Quoted(k)| + |Colon(mode)|, rest)
  {
    hide StringAt, Quoted, StartsAt, Plain, SkipWs, Colon;
    StartsSplit(t, p, Quoted(k), Colon(mode) + rest);
    QuotedReadsBack(t, opt, p, k);
    SkipExactly(t, p, p);
    SkipColon(t, p + |Quoted(k)|, mode, rest);
  }

  lemma SkipColon(t: string, p: nat, mode: WriteMode, rest: string)
    requires StartsAt(t, p, Colon(mode) + rest) && rest != "" && !IsWs(rest[0])
    ensures p < |t| && t[p] == ':' && SkipWs(t, p) == p && SkipWs(t, p + 1) == p + |Colon(mode)|
    ensures StartsAt(t, p + |Colon(mode)|, rest)
  {
    hide StartsAt, SkipWs;
    StartsSplit(t, p, Colon(mode), rest);
    CharactersAt(t, p, Colon(mode));
    CharactersAt(t, p + |Colon(mode)|, rest);
    assert Colon(mode)[0] == t[p] && rest[0] == t[p + |Colon(mode)|];
    SkipExactly(t, p, p);
    SkipExactly(t, p + 1, p + |Colon(mode)|);
  }

  lemma SkipToFields(t: string, p: nat, fs: seq<Field>, i: nat, mode: WriteMode, d: nat)
    requires i < |fs| && StartsAt(t, p, Gap(mode, d + 1) + FieldsText(fs, i, mode, d))
    ensures SkipWs(t, p) == p + |Gap(mode, d + 1)| < |t|
    ensures StartsAt(t, p + |Gap(mode, d + 1)|, FieldsText(fs, i, mode, d))
    ensures t[SkipWs(t, p)] != '}'
  {
    hide Gap, Dump, AfterField, StartsAt;
    var q := p + |Gap(mode, d + 1)|;
    StartsSplit(t, p, Gap(mode, d + 1), FieldsText(fs, i, mode, d));
    CharactersAt(t, q, FieldsText(fs, i, mode, d));
    assert FieldsText(fs, i, mode, d)[0] == '\"';
    assert t[q] == FieldsText(fs, i, mode, d)[0];
    SkipGap(t, p, mode, d + 1);
  }

  // The next key is above all those read before it.
  lemma NextFieldGoesLast(fs: seq<Field>, i: nat)
    requires i < |fs| && Ascending(fs)
    ensures SetField(NormFields(fs)[..i], fs[i].key, Norm(fs[i].value)) == NormFields(fs)[..i + 1]
  {
    hide *;
    NormFieldsAt(fs);
    var read := NormFields(fs)[..i];
    assert forall f :: f in read ==> StringLess(f.key, fs[i].key) by {
      AscendingBefore(fs, i);
      assert forall j :: 0 <= j < i ==> read[j].key == fs[j].key;
    }
    SetFieldAtEnd(read, fs[i].key, Norm(fs[i].value));
  }

  lemma AscendingBefore(fs: seq<Field>, i: nat)
    requires Ascending(fs) && i < |fs|
    ensures forall j :: 0 <= j < i ==> StringLess(fs[j].key, fs[i].key)
  {
  }

  lemma NormFieldsAt(fs: seq<Field>)
    ensures |NormFields(fs)| == |fs|
    ensures forall j :: 0 <= j < |fs| ==> NormFields(fs)[j] == Field(fs[j].key, Norm(fs[j].value))
  {
    hide Norm;
  }

  lemma NextFieldFits(fs: seq<Field>, i: nat, opt: ParseOptions, n: nat, d: nat)
    requires i < |fs| && FieldsFit(fs, i, opt, n, d)
    ensures Ascending(fs) && Plain(fs[i].key, opt) && Fits(fs[i].value, opt, n, d + 1)
    ensures FieldsFit(fs, i + 1, opt, n + Size(fs[i].value), d)
    ensures FieldsSize(fs, i) == Size(fs[i].value) + FieldsSize(fs, i + 1) && FieldsSize(fs, |fs|) == 0
  {
    hide NestsWithin, Plain;
  }

  // Field i is read, and behind its comma stands the next field.
  lemma {:induction false} FieldReadsBack(t: string, opt: ParseOptions, p: nat, n: nat, d: nat, fs: seq<Field>, i: nat, mode: WriteMode)
    requires i < |fs| && StartsAt(t, p, FieldsText(fs, i, mode, d)) && FieldsFit(fs, i, opt, n, d)
    ensures var k := |Quoted(fs[i].key)| + |Colon(mode)|;
            var q, m := p + k + |Dump(fs[i].value, mode, d + 1)|, n + Size(fs[i].value);
            && p + k <= |t| && KeyAt(t, opt, p) == Key(fs[i].key, p + k)
            && if i + 1 == |fs|
               then ChildAt(t, opt, p + k, n, d, '}') == Last(Norm(fs[i].value), p + |FieldsText(fs, i, mode, d)|, m)
               else
                 && ChildAt(t, opt, p + k, n, d, '}') == More(Norm(fs[i].value), q + 1, m)
                 && q < |t| && SkipWs(t, q + 1) == q + 1 + |Gap(mode, d + 1)|
                 && StartsAt(t, SkipWs(t, q + 1), FieldsText(fs, i + 1, mode, d))
    decreases fs, |fs| - i, 0
  {
    hide ChildAt, KeyAt, Dump, StartsAt, Gap, Size, FieldsSize, Norm, Closing, Quoted, Colon, Plain, SkipWs, Fits;
    hide FieldsFit, Ascending;
    NextFieldFits(fs, i, opt, n, d);
    var k, v := fs[i].key, fs[i].value;
    var item, rest := Dump(v, mode, d + 1), AfterField(fs, i, mode, d);
    FirstCharacter(v, mode, d + 1);
    KeyReadsBack(t, opt, p, k, mode, item + rest);
    var q := p + |Quoted(k)| + |Colon(mode)|;
    ChildReadsBack(t, opt, q, n, d, v, mode, rest, '}');
    StartsAtMeans(t, q, item + rest);
    if i + 1 < |fs| {
      var s := q + |item| + 1;
      StartsSplit(t, q, item, rest);
      StartsWith(t, s - 1, ',', Gap(mode, d + 1) + FieldsText(fs, i + 1, mode, d));
      SkipToFields(t, s, fs, i + 1, mode, d);
    } else {
      ClosingStarts(mode, d, '}');
    }
  }

  lemma {:induction false} FieldsReadBack(t: string, opt: ParseOptions, p: nat, n: nat, d: nat, fs: seq<Field>, i: nat, mode: WriteMode)
    requires i < |fs| && StartsAt(t, p, FieldsText(fs, i, mode, d)) && FieldsFit(fs, i, opt, n, d)
    ensures ParseFields(t, opt, p, n, d, NormFields(fs)[..i]) ==
            Parsed(NoError, Object(NormFields(fs)), p + |FieldsText(fs, i, mode, d)|, n + FieldsSize(fs, i))
    decreases fs, |fs| - i, 1
  {
    hide ChildAt, KeyAt, Dump, StartsAt, Gap, Size, FieldsSize, Norm, Closing, Quoted, Colon, SetField, SkipWs;
    hide Fits, FieldsFit, Ascending;
    var v := fs[i].value;
    NextFieldFits(fs, i, opt, n, d);
    FieldReadsBack(t, opt, p, n, d, fs, i, mode);
    NextFieldGoesLast(fs, i);
    if i + 1 < |fs| {
      var s := p + |Quoted(fs[i].key)| + |Colon(mode)| + |Dump(v, mode, d + 1)| + 1;
      FieldsBehindGap(t, opt, s, n + Size(v), d, NormFields(fs)[..i + 1]);
      FieldsReadBack(t, opt, SkipWs(t, s), n + Size(v), d, fs, i + 1, mode);
    }
  }

  lemma {:induction false} ObjectReadsBack(t: string, opt: ParseOptions, p: nat, n: nat, d: nat, fs: seq<Field>, mode: WriteMode)
    requires StartsAt(t, p, Dump(Object(fs), mode, d)) && p < |t|
    requires n > 0 && Fits(Object(fs), opt, n - 1, d)
    ensures ParseToken(t, opt, p, n, d) ==
            Parsed(NoError, Norm(Object(fs)), p + |Dump(Object(fs), mode, d)|, n - 1 + Size(Object(fs)))
    decreases fs, |fs| + 1, 0
  {
    hide ParseItems, ParseFields, StartsAt, Gap, Norm, DumpFields, FieldsText, Plain, Fits, FieldsFit;
    if fs == [] {
      assert Dump(Object(fs), mode, d) == "{}" by {
        NoMoreFields(fs, mode, d);
      }
      assert "{}" == ['{'] + "}" && "}" == ['}'] + "";
      StartsWith(t, p, '{', "}");
      StartsWith(t, p + 1, '}', "");
      SkipExactly(t, p + 1, p + 1);
      assert NormFields(fs) == [];
    } else {
      ChildrenOfObjectFit(fs, opt, n, d);
      FieldsLayout(fs, 0, mode, d);
      var body := Gap(mode, d + 1) + FieldsText(fs, 0, mode, d);
      ObjectLayout(fs, mode, d, body);
      StartsWith(t, p, '{', body);
      SkipToFields(t, p + 1, fs, 0, mode, d);
      assert NormFields(fs)[..0] == [];
      FieldsReadBack(t, opt, p + 1 + |Gap(mode, d + 1)|, n, d, fs, 0, mode);
    }
  }

  lemma ObjectLayout(fs: seq<Field>, mode: WriteMode, d: nat, body: string)
    requires fs != [] && DumpFields(fs, 0, mode, d) + Closing(mode, d, '}') == "" + body
    ensures Dump(Object(fs), mode, d) == ['{'] + body
  {
    hide Gap, DumpFields;
    var gap := Gap(mode, d);
    assert "{" + DumpFields(fs, 0, mode, d) + gap + "}" == ['{'] + (DumpFields(fs, 0, mode, d) + (gap + ['}']));
  }
}
