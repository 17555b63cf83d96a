// The laws of the printer and parser together.

module JsonTheorems {
  import opened Types
  import opened Text
  import opened Doubles
  import opened JsonValues
  import opened JsonGrammar
  import opened JsonParser
  import opened JsonPrinter
  import opened JsonLimits
  import opened JsonRoundTrip
  import opened JsonNumbers

  // ---- Normal values -----------------------------------------------------------------------

  // Rounded to six decimals and no integer, or infinite.
  predicate NormalFloat(f: Float64) {
    match f
    case Finite(_, size) => Micros(size) % MILLION != 0 && size == Micros(size) as real / 1_000_000.0
    case Infinite(_) => true
    case NotANumber => false
  }

  // Numbers keep their value and their kind.
  ghost predicate IsNormal(v: Value) {
    match v
    case Int(i) => i < 0
    case Uint(u) => u <= MAX_INT64
    case Double(f) => NormalFloat(f)
    case Array(a) => forall i :: 0 <= i < |a| ==> IsNormal(a[i])
    case Object(fs) => forall i :: 0 <= i < |fs| ==> IsNormal(fs[i].value)
    case _ => true
  }

  // No negative double is rounded to zero.
  ghost predicate KeepsSigns(v: Value) {
    match v
    case Double(f) => f.Finite? && f.negative ==> Micros(f.size) > 0
    case Array(a) => forall i :: 0 <= i < |a| ==> KeepsSigns(a[i])
    case Object(fs) => forall i :: 0 <= i < |fs| ==> KeepsSigns(fs[i].value)
    case _ => true
  }

  lemma NormalFloatsAreKept(f: Float64)
    ensures NormFloat(f) == Double(f) <==> NormalFloat(f)
    ensures IsNormal(NormFloat(f)) <==> KeepsSigns(Double(f))
  {
    hide Micros;
    if f.Finite? && Micros(f.size) % MILLION != 0 {
      RoundedIsFinite(f.size);
      MicrosAreKept(Micros(f.size));
    }
  }

  // Exactly the normal values read back as they are.
  lemma {:induction false} NormalValuesAreKept(v: Value)
    ensures Norm(v) == v <==> IsNormal(v)
    decreases v
  {
    hide NormFloat, NormalFloat;
    match v {
      case Array(a) =>
        forall i | 0 <= i < |a|
          ensures Norm(a[i]) == a[i] <==> IsNormal(a[i])
        {
          NormalValuesAreKept(a[i]);
        }
        if IsNormal(v) {
          assert Norm(v).items == a;
        }
      case Object(fs) =>
        forall i | 0 <= i < |fs|
          ensures Norm(fs[i].value) == fs[i].value <==> IsNormal(fs[i].value)
        {
          NormalValuesAreKept(fs[i].value);
        }
        if IsNormal(v) {
          assert Norm(v).fields == fs;
        }
      case Double(f) => NormalFloatsAreKept(f);
      case _ =>
    }
  }

  // What was read is normal, unless a minus was printed before a zero.
  lemma {:induction false} ReadValuesAreNormal(v: Value)
    ensures IsNormal(Norm(v)) <==> KeepsSigns(v)
    decreases v
  {
    hide NormFloat, NormalFloat, Micros;
    match v {
      case Array(a) =>
        NormItemsAt(a);
        forall i | 0 <= i < |a|
          ensures IsNormal(NormItems(a)[i]) <==> KeepsSigns(a[i])
        {
          ReadValuesAreNormal(a[i]);
        }
      case Object(fs) =>
        NormFieldsAt(fs);
        forall i | 0 <= i < |fs|
          ensures IsNormal(NormFields(fs)[i].value) <==> KeepsSigns(fs[i].value)
        {
          ReadValuesAreNormal(fs[i].value);
        }
      case Double(f) => NormalFloatsAreKept(f);
      case _ =>
    }
  }

  // Normalisation changes numbers only.
  lemma {:induction false} NormKeepsShape(v: Value, levels: nat, limit: nat)
    ensures NestsWithin(Norm(v), levels) <==> NestsWithin(v, levels)
    ensures StringsFit(Norm(v), limit) <==> StringsFit(v, limit)
    ensures Size(Norm(v)) == Size(v)
    decreases v, 1
  {
    hide Norm;
    var below := if levels > 0 then levels - 1 else 0;
    match v {
      case Array(a) =>
        var z := NormItems(a);
        NormItemsAt(a);
        forall i | 0 <= i < |a|
          ensures NestsWithin(z[i], below) <==> NestsWithin(a[i], below)
          ensures StringsFit(z[i], limit) <==> StringsFit(a[i], limit)
        {
          NormKeepsShape(a[i], below, limit);
        }
        ItemsKeepSize(a, 0);
      case Object(fs) =>
        var z := NormFields(fs);
        NormFieldsAt(fs);
        forall i | 0 <= i < |fs|
          ensures NestsWithin(z[i].value, below) <==> NestsWithin(fs[i].value, below)
          ensures z[i].key == fs[i].key && (StringsFit(z[i].value, limit) <==> StringsFit(fs[i].value, limit))
        {
          NormKeepsShape(fs[i].value, below, limit);
        }
        FieldsKeepSize(fs, 0);
      case _ => ScalarKeepsShape(v, levels, limit);
    }
  }

  lemma ScalarKeepsShape(v: Value, levels: nat, limit: nat)
    requires !v.Array? && !v.Object?
    ensures NestsWithin(Norm(v), levels) && NestsWithin(v, levels)
    ensures StringsFit(Norm(v), limit) <==> StringsFit(v, limit)
    ensures Size(Norm(v)) == Size(v)
  {
  }

  lemma {:induction false} ItemsKeepSize(a: seq<Value>, i: nat)
    requires i <= |a|
    ensures ItemsSize(NormItems(a), i) == ItemsSize(a, i)
    decreases a, |a| - i
  {
    if i < |a| {
      NormKeepsShape(a[i], 0, 0);
      ItemsKeepSize(a, i + 1);
    }
  }

  lemma {:induction false} FieldsKeepSize(fs: seq<Field>, i: nat)
    requires i <= |fs|
    ensures FieldsSize(NormFields(fs), i) == FieldsSize(fs, i)
    decreases fs, |fs| - i
  {
    if i < |fs| {
      NormKeepsShape(fs[i].value, 0, 0);
      FieldsKeepSize(fs, i + 1);
    }
  }

  // ---- What can be printed and read back ------------------------------------------------------

  ghost predicate SevenBitStrings(v: Value) {
    match v
    case String(s) => SevenBit(s)
    case Array(a) => forall i :: 0 <= i < |a| ==> SevenBitStrings(a[i])
    case Object(fs) => forall i :: 0 <= i < |fs| ==> SevenBit(fs[i].key) && SevenBitStrings(fs[i].value)
    case _ => true
  }

  lemma {:induction false} PrintableMeans(v: Value, opt: ParseOptions)
    requires WellFormed(v)
    ensures Printable(v, opt) <==> SevenBitStrings(v) && StringsFit(v, opt.maxStringBytes)
  {
    match v {
      case Array(a) =>
        forall i | 0 <= i < |a|
          ensures Printable(a[i], opt) <==> SevenBitStrings(a[i]) && StringsFit(a[i], opt.maxStringBytes)
        {
          PrintableMeans(a[i], opt);
        }
      case Object(fs) =>
        forall i | 0 <= i < |fs|
          ensures Printable(fs[i].value, opt) <==> SevenBitStrings(fs[i].value) && StringsFit(fs[i].value, opt.maxStringBytes)
        {
          PrintableMeans(fs[i].value, opt);
        }
      case _ =>
    }
  }

  lemma {:induction false} EscapedShows(s: string)
    requires SevenBit(Escaped(s))
    ensures SevenBit(s)
  {
    hide Escape;
    if s != "" {
      var e, rest := Escape(s[0]), Escaped(s[1..]);
      assert forall i :: 0 <= i < |e| ==> e[i] == Escaped(s)[i];
      assert forall i :: 0 <= i < |rest| ==> rest[i] == Escaped(s)[|e| + i];
      EscapeShows(s[0]);
      EscapedShows(s[1..]);
      assert forall i :: 0 < i < |s| ==> s[i] == s[1..][i - 1];
    }
  }

  lemma EscapeShows(c: char)
    requires SevenBit(Escape(c))
    ensures c as int < 0x80
  {
    assert Escape(c)[0] == c || c as int < 0x80;
  }

  lemma PartsShow(a: string, b: string)
    requires SevenBit(a + b)
    ensures SevenBit(a) && SevenBit(b)
  {
    assert forall i :: 0 <= i < |a| ==> a[i] == (a + b)[i];
    assert forall i :: 0 <= i < |b| ==> b[i] == (a + b)[|a| + i];
  }

  lemma QuotedShows(s: string)
    requires SevenBit(Quoted(s))
    ensures SevenBit(s)
  {
    PartsShow("\"" + Escaped(s), "\"");
    PartsShow("\"", Escaped(s));
    EscapedShows(s);
  }

  // Bytes from 0x80 on show in the printed text.
  lemma {:induction false} DumpShows(v: Value, mode: WriteMode, d: nat)
    requires SevenBit(Dump(v, mode, d))
    ensures SevenBitStrings(v)
    decreases v, 0
  {
    hide SevenBit, Gap, Quoted;
    match v {
      case String(s) => QuotedShows(s);
      case Array(a) =>
        var gap := if a == [] then "" else Gap(mode, d);
        PartsShow("[" + DumpItems(a, 0, mode, d) + gap, "]");
        PartsShow("[" + DumpItems(a, 0, mode, d), gap);
        PartsShow("[", DumpItems(a, 0, mode, d));
        ItemsShow(a, 0, mode, d);
      case Object(fs) =>
        var gap := if fs == [] then "" else Gap(mode, d);
        PartsShow("{" + DumpFields(fs, 0, mode, d) + gap, "}");
        PartsShow("{" + DumpFields(fs, 0, mode, d), gap);
        PartsShow("{", DumpFields(fs, 0, mode, d));
        FieldsShow(fs, 0, mode, d);
      case _ =>
    }
  }

  lemma {:induction false} ItemsShow(a: seq<Value>, i: nat, mode: WriteMode, d: nat)
    requires i <= |a| && SevenBit(DumpItems(a, i, mode, d))
    ensures forall j :: i <= j < |a| ==> SevenBitStrings(a[j])
    decreases a, |a| - i
  {
    hide SevenBit, Gap, Dump, SevenBitStrings;
    if i < |a| {
      var gap, item, rest := Gap(mode, d + 1), Dump(a[i], mode, d + 1), DumpItems(a, i + 1, mode, d);
      PartsShow(if i > 0 then "," else "", gap + item + rest);
      PartsShow(gap + item, rest);
      PartsShow(gap, item);
      DumpShows(a[i], mode, d + 1);
      ItemsShow(a, i + 1, mode, d);
    }
  }

  lemma {:induction false} FieldsShow(fs: seq<Field>, i: nat, mode: WriteMode, d: nat)
    requires i <= |fs| && SevenBit(DumpFields(fs, i, mode, d))
    ensures forall j :: i <= j < |fs| ==> SevenBit(fs[j].key) && SevenBitStrings(fs[j].value)
    decreases fs, |fs| - i
  {
    hide SevenBit, Gap, Dump, SevenBitStrings, Quoted, Colon;
    if i < |fs| {
      var gap, key, colon := Gap(mode, d + 1), Quoted(fs[i].key), Colon(mode);
      var item, rest := Dump(fs[i].value, mode, d + 1), DumpFields(fs, i + 1, mode, d);
      PartsShow(if i > 0 then "," else "", gap + key + colon + item + rest);
      PartsShow(gap + key + colon + item, rest);
      PartsShow(gap + key + colon, item);
      PartsShow(gap + key, colon);
      PartsShow(gap, key);
      QuotedShows(fs[i].key);
      DumpShows(fs[i].value, mode, d + 1);
      FieldsShow(fs, i + 1, mode, d);
    }
  }

  // ---- The round trip ---------------------------------------------------------------------------

  // What a parser with these options can hold.
  ghost predicate InBounds(v: Value, opt: ParseOptions) {
    StringsFit(v, opt.maxStringBytes) && NestsWithin(v, opt.maxDepth) && Size(v) <= opt.maxNodes
  }

  function ReadAs(v: Value, text: string): ParseResult {
    ParseResult(Norm(v), NoError, |text|, "")
  }

  lemma PrintedReadsBack(v: Value, mode: WriteMode, opt: ParseOptions)
    requires Printable(v, opt) && InBounds(v, opt)
    ensures Parse(Dump(v, mode, 0), opt) == ReadAs(v, Dump(v, mode, 0))
  {
    hide ParseAt, Dump, Norm, Printable, NestsWithin, Size, StringsFit;
    var t := Dump(v, mode, 0);
    assert t[0..|t|] == t;
    ValueReadsBack(t, opt, 0, 0, 0, v, mode);
  }

  // A value comes back, normalised, from either mode exactly when its strings are
  // 7-bit and it is within the limits of the parser.
  lemma RoundTrip(v: Value, mode: WriteMode, opt: ParseOptions)
    requires WellFormed(v)
    ensures Parse(Dump(v, mode, 0), opt) == ReadAs(v, Dump(v, mode, 0)) <==> SevenBitStrings(v) && InBounds(v, opt)
  {
    hide Parse, Dump, Norm, Printable, NestsWithin, Size, StringsFit, SevenBitStrings, WellFormed;
    PrintableMeans(v, opt);
    var t := Dump(v, mode, 0);
    if SevenBitStrings(v) && InBounds(v, opt) {
      PrintedReadsBack(v, mode, opt);
    }
    if Parse(t, opt) == ReadAs(v, t) {
      AcceptedTextIsWithinLimits(t, opt);
      AsciiIsSevenBit(t);
      DumpShows(v, mode, 0);
      NormKeepsShape(v, opt.maxDepth, opt.maxStringBytes);
    }
  }

  lemma AsciiIsSevenBit(t: string)
    requires Ascii(t, 0, |t|)
    ensures SevenBit(t)
  {
  }

  // Numbers that print the same when they come back: none is saturated, and no minus is lost.
  predicate SteadyFloat(f: Float64) {
    match f
    case Finite(negative, size) =>
      var whole := Micros(size) / MILLION;
      Micros(size) % MILLION != 0 || if negative then 0 < whole <= MAX_INT64 + 1 else whole <= MAX_INT64
    case _ => true
  }

  ghost predicate Steady(v: Value) {
    match v
    case Uint(u) => u <= MAX_INT64
    case Double(f) => SteadyFloat(f)
    case Array(a) => forall i :: 0 <= i < |a| ==> Steady(a[i])
    case Object(fs) => forall i :: 0 <= i < |fs| ==> Steady(fs[i].value)
    case _ => true
  }

  lemma {:induction false} NumeralGrows(m: nat, n: nat)
    requires m <= n
    ensures |Numeral(10, m)| <= |Numeral(10, n)|
    decreases n
  {
    if m >= 10 {
      NumeralGrows(m / 10, n / 10);
    }
  }

  lemma NumeralsDiffer(m: nat, n: nat)
    requires m != n
    ensures Numeral(10, m) != Numeral(10, n)
  {
    NumeralRoundTrip(10, m);
    NumeralRoundTrip(10, n);
  }

  lemma WholeFloatText(negative: bool, size: Magnitude)
    requires Micros(size) % MILLION == 0
    ensures FloatText(Finite(negative, size)) == Sign(negative) + Numeral(10, Micros(size) / MILLION)
  {
    hide Numeral, Micros, Power, Places, StripZeros, Shortened, SixDecimals;
    FiniteText(negative, size);
    ShortenedValue(Micros(size));
  }

  lemma FloatSecondPrint(f: Float64, mode: WriteMode, d: nat)
    ensures |Dump(NormFloat(f), mode, d)| <= |FloatText(f)|
    ensures Dump(NormFloat(f), mode, d) == FloatText(f) <==> SteadyFloat(f)
  {
    hide Numeral, Micros, Shortened, SixDecimals, Tail;
    if f.Finite? {
      var n := Micros(f.size);
      if n % MILLION != 0 {
        RoundedIsFinite(f.size);
        MicrosAreKept(n);
        FiniteText(f.negative, f.size);
        FiniteText(f.negative, n as real / 1_000_000.0);
      } else {
        WholeFloatText(f.negative, f.size);
        WholeSecondPrint(f.negative, n / MILLION, mode, d);
      }
    }
  }

  lemma WholeSecondPrint(negative: bool, k: nat, mode: WriteMode, d: nat)
    ensures var text := Sign(negative) + Numeral(10, k);
            && |Dump(WholeNumber(negative, k), mode, d)| <= |text|
            && (Dump(WholeNumber(negative, k), mode, d) == text <==> if negative then 0 < k <= MAX_INT64 + 1 else k <= MAX_INT64)
  {
    hide Numeral;
    var top := if negative then MAX_INT64 + 1 else MAX_INT64;
    if k > top {
      NumeralGrows(top, k);
      NumeralsDiffer(top, k);
      assert negative ==> ("-" + Numeral(10, top))[1..] == Numeral(10, top) && ("-" + Numeral(10, k))[1..] == Numeral(10, k);
    } else {
      NumeralIsDigits(k);
    }
  }

  // Printing the value that came back gives no longer text, and the same text exactly when
  // no number was saturated and no minus was lost.
  lemma {:induction false} SecondPrint(v: Value, mode: WriteMode, d: nat)
    ensures |Dump(Norm(v), mode, d)| <= |Dump(v, mode, d)|
    ensures Dump(Norm(v), mode, d) == Dump(v, mode, d) <==> Steady(v)
    decreases v, 1
  {
    hide Gap, Numeral, FloatText, NormFloat, SteadyFloat, DumpItems, DumpFields;
    match v {
      case Double(f) => FloatSecondPrint(f, mode, d);
      case Uint(u) =>
        if u > MAX_INT64 {
          NumeralGrows(MAX_INT64, u);
          NumeralsDiffer(MAX_INT64, u);
        }
      case Array(a) => SecondPrintOfArray(a, mode, d);
      case Object(fs) => SecondPrintOfObject(fs, mode, d);
      case _ =>
    }
  }

  lemma {:induction false} SecondPrintOfArray(a: seq<Value>, mode: WriteMode, d: nat)
    ensures |Dump(Array(NormItems(a)), mode, d)| <= |Dump(Array(a), mode, d)|
    ensures Dump(Array(NormItems(a)), mode, d) == Dump(Array(a), mode, d) <==> Steady(Array(a))
    decreases Array(a), 0
  {
    hide Gap, DumpItems, Norm;
    SecondPrintOfItems(a, 0, mode, d);
    NormItemsAt(a);
    var gap := if a == [] then "" else Gap(mode, d);
    SameInFrame("[", DumpItems(NormItems(a), 0, mode, d), DumpItems(a, 0, mode, d), gap + "]");
    FrameLayout("[", DumpItems(NormItems(a), 0, mode, d), gap, "]");
    FrameLayout("[", DumpItems(a, 0, mode, d), gap, "]");
  }

  lemma {:induction false} SecondPrintOfObject(fs: seq<Field>, mode: WriteMode, d: nat)
    ensures |Dump(Object(NormFields(fs)), mode, d)| <= |Dump(Object(fs), mode, d)|
    ensures Dump(Object(NormFields(fs)), mode, d) == Dump(Object(fs), mode, d) <==> Steady(Object(fs))
    decreases Object(fs), 0
  {
    hide Gap, DumpFields, Norm;
    SecondPrintOfFields(fs, 0, mode, d);
    NormFieldsAt(fs);
    var gap := if fs == [] then "" else Gap(mode, d);
    SameInFrame("{", DumpFields(NormFields(fs), 0, mode, d), DumpFields(fs, 0, mode, d), gap + "}");
    FrameLayout("{", DumpFields(NormFields(fs), 0, mode, d), gap, "}");
    FrameLayout("{", DumpFields(fs, 0, mode, d), gap, "}");
  }

  lemma FrameLayout(a: string, b: string, c: string, d: string)
    ensures a + b + c + d == a + b + (c + d)
  {
  }

  lemma SameInFrame(open: string, a: string, b: string, close: string)
    ensures open + a + close == open + b + close <==> a == b
  {
    if open + a + close == open + b + close {
      assert |a| == |b|;
      assert a == (open + a + close)[|open|..|open| + |a|];
      assert b == (open + b + close)[|open|..|open| + |b|];
    }
  }

  // Texts no longer than their counterparts can only join to the same text if each is the same.
  lemma SameParts(front: string, a: string, b: string, c: string, d: string)
    requires |a| <= |b| && |c| <= |d|
    ensures front + a + c == front + b + d <==> a == b && c == d
  {
    if front + a + c == front + b + d {
      assert |a| == |b| && |c| == |d|;
      assert a == (front + a + c)[|front|..|front| + |a|];
      assert b == (front + b + d)[|front|..|front| + |b|];
      assert c == (front + a + c)[|front| + |a|..];
      assert d == (front + b + d)[|front| + |b|..];
    }
  }

  lemma Flattened(a: string, b: string, c: string, d: string)
    ensures a + (b + c + d) == a + b + c + d
  {
  }

  lemma {:induction false} SecondPrintOfItems(a: seq<Value>, i: nat, mode: WriteMode, d: nat)
    requires i <= |a|
    ensures |DumpItems(NormItems(a), i, mode, d)| <= |DumpItems(a, i, mode, d)|
    ensures DumpItems(NormItems(a), i, mode, d) == DumpItems(a, i, mode, d) <==> forall j :: i <= j < |a| ==> Steady(a[j])
    decreases a, |a| - i
  {
    hide Gap, Dump, Steady, Norm;
    if i < |a| {
      var comma, gap := if i > 0 then "," else "", Gap(mode, d + 1);
      var item, rest := Dump(a[i], mode, d + 1), DumpItems(a, i + 1, mode, d);
      var item2, rest2 := Dump(Norm(a[i]), mode, d + 1), DumpItems(NormItems(a), i + 1, mode, d);
      SecondPrint(a[i], mode, d + 1);
      SecondPrintOfItems(a, i + 1, mode, d);
      SameParts(comma + gap, item2, item, rest2, rest);
      Flattened(comma, gap, item, rest);
      Flattened(comma, gap, item2, rest2);
    }
  }

  lemma {:induction false} SecondPrintOfFields(fs: seq<Field>, i: nat, mode: WriteMode, d: nat)
    requires i <= |fs|
    ensures |DumpFields(NormFields(fs), i, mode, d)| <= |DumpFields(fs, i, mode, d)|
    ensures DumpFields(NormFields(fs), i, mode, d) == DumpFields(fs, i, mode, d) <==>
            forall j :: i <= j < |fs| ==> Steady(fs[j].value)
    decreases fs, |fs| - i
  {
    hide Gap, Dump, Steady, Norm, Quoted, Colon;
    if i < |fs| {
      var comma, key := if i > 0 then "," else "", Gap(mode, d + 1) + Quoted(fs[i].key) + Colon(mode);
      var item, rest := Dump(fs[i].value, mode, d + 1), DumpFields(fs, i + 1, mode, d);
      var item2, rest2 := Dump(Norm(fs[i].value), mode, d + 1), DumpFields(NormFields(fs), i + 1, mode, d);
      SecondPrint(fs[i].value, mode, d + 1);
      SecondPrintOfFields(fs, i + 1, mode, d);
      SameParts(comma + key, item2, item, rest2, rest);
      Flattened(comma, key, item, rest);
      Flattened(comma, key, item2, rest2);
    }
  }

  // The printer and the parser themselves: print, read back, and print again.
  method PrintParsePrint(v: Value, mode: WriteMode, opt: ParseOptions) returns (text: string, r: ParseResult, again: string)
    requires WellFormed(v)
    ensures r == ReadAs(v, text) <==> SevenBitStrings(v) && InBounds(v, opt)
    ensures r == ReadAs(v, text) ==> (r.value == v <==> IsNormal(v)) && (again == text <==> Steady(v))
  {
    hide Parse, Dump, Norm, SevenBitStrings, WellFormed, InBounds, IsNormal, Steady;
    text := DumpText(v, mode);
    var parser := new Parser(text, opt);
    r := parser.ParseText();
    RoundTrip(v, mode, opt);
    again := DumpText(r.value, mode);
    NormalValuesAreKept(v);
    SecondPrint(v, mode, 0);
  }

  // ---- Bad strings ---------------------------------------------------------------------------------

  // A text that is one string literal is never rejected for being malformed: it is rejected
  // exactly when something other than white space is left where the scan stopped, and a scan
  // that failed at the end of the text reads as null.
  lemma StringTextVerdict(t: string, opt: ParseOptions)
    requires opt.maxNodes > 0 && var q := SkipWs(t, 0); q < |t| && t[q] == '\"'
    ensures var scan := StringAt(t, opt, SkipWs(t, 0) + 1, "");
            && (Parse(t, opt).Ok() <==> SkipWs(t, scan.pos) == |t|)
            && (Parse(t, opt).Ok() ==> Parse(t, opt).value == if scan.ok then String(scan.s) else Null)
  {
    hide StringAt, SkipWs, ParseToken;
    StringToken(t, opt, SkipWs(t, 0));
  }

  lemma StringToken(t: string, opt: ParseOptions, q: nat)
    requires q < |t| && t[q] == '\"'
    ensures var scan := StringAt(t, opt, q + 1, "");
            ParseToken(t, opt, q, 1, 0) == Parsed(NoError, if scan.ok then String(scan.s) else Null, scan.pos, 1)
  {
    hide StringAt, SkipWs, ParseItems, ParseFields, NumberAt;
  }

  lemma {:induction false} RunsToTheEnd(t: string, opt: ParseOptions, p: nat, buf: string)
    requires p <= |t| && |buf| + (|t| - p) <= opt.maxStringBytes
    requires forall i :: p <= i < |t| ==> t[i] != '\"' && t[i] != '\\' && t[i] as int < 0x80
    ensures StringAt(t, opt, p, buf) == StringScan(false, "", |t|)
    decreases |t| - p
  {
    if p < |t| {
      RunsToTheEnd(t, opt, p + 1, buf + [t[p]]);
    }
  }

  // So every unterminated plain string is accepted, as null.
  lemma UnterminatedStringReadsAsNull(s: string, opt: ParseOptions)
    requires opt.maxNodes > 0 && |s| <= opt.maxStringBytes
    requires forall i :: 0 <= i < |s| ==> s[i] != '\"' && s[i] != '\\' && s[i] as int < 0x80
    ensures Parse("\"" + s, opt) == ParseResult(Null, NoError, 1 + |s|, "")
  {
    hide StringAt, SkipWs, ParseToken;
    var t := "\"" + s;
    assert forall i :: 1 <= i < |t| ==> t[i] == s[i - 1];
    SkipExactly(t, 0, 0);
    StringToken(t, opt, 0);
    RunsToTheEnd(t, opt, 1, "");
    SkipExactly(t, |t|, |t|);
  }
}
