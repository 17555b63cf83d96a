// JSON texts as they are read.

module JsonSyntax {
  import opened Types
  import opened Text
  import opened Doubles
  import opened JsonValues
  import opened JsonGrammar
  import opened JsonNumbers
  import opened JsonLiterals
  import opened JsonStrict

  // ---- Strings ------------------------------------------------------------------------------

  // A character as it is, a short escape, or four hexadecimal digits.
  datatype Piece = Raw(c: char) | Short(e: char) | Code(digits: string)

  const SHORT_ESCAPES: map<char, char> :=
    map['\"' := '\"', '\\' := '\\', '/' := '/', 'b' := BACKSPACE, 'f' := FORM_FEED, 'n' := '\n', 'r' := '\r', 't' := '\t']

  predicate ValidPiece(x: Piece) {
    match x
    case Raw(c) => c != '\"' && c != '\\' && c as int < 0x80
    case Short(e) => e in SHORT_ESCAPES
    case Code(ds) => |ds| == 4 && IsNumeral(16, ds)
  }

  function PieceText(x: Piece): string {
    match x
    case Raw(c) => [c]
    case Short(e) => ['\\', e]
    case Code(ds) => ['\\', 'u'] + ds
  }

  lemma FourDigits(ds: string)
    requires |ds| == 4 && IsNumeral(16, ds)
    ensures ValueOf(16, ds) < 0x1_0000
  {
    ValueBound(16, ds);
    assert Power(16, 4) == 0x1_0000;
  }

  function PieceMeaning(x: Piece): string
    requires ValidPiece(x)
  {
    match x
    case Raw(c) => [c]
    case Short(e) => [SHORT_ESCAPES[e]]
    case Code(ds) =>
      FourDigits(ds);
      Utf8(ValueOf(16, ds))
  }

  // The code point that the bytes stand for, in the shortest form only.
  function Utf8Decoded(s: string): Option<nat> {
    if |s| == 1 && s[0] as nat < 0x80 then Some(s[0] as nat)
    else if |s| == 2 && 0xc2 <= s[0] as nat < 0xe0 && Continues(s[1]) then Some((s[0] as nat - 0xc0) * 0x40 + (s[1] as nat - 0x80))
    else if |s| == 3 && 0xe0 <= s[0] as nat < 0xf0 && Continues(s[1]) && Continues(s[2]) then
      var cp := ((s[0] as nat - 0xe0) * 0x40 + (s[1] as nat - 0x80)) * 0x40 + (s[2] as nat - 0x80);
      if cp >= 0x800 then Some(cp) else None
    else None
  }

  predicate Continues(c: char) {
    0x80 <= c as nat < 0xc0
  }

  // A code escape gives the bytes of its code point.
  lemma CodeBytes(cp: nat)
    requires cp < 0x1_0000
    ensures Utf8Decoded(Utf8(cp)) == Some(cp)
  {
  }

  function PiecesText(xs: seq<Piece>): string {
    if xs == [] then "" else PieceText(xs[0]) + PiecesText(xs[1..])
  }

  predicate ValidPieces(xs: seq<Piece>) {
    forall i :: 0 <= i < |xs| ==> ValidPiece(xs[i])
  }

  function PiecesMeaning(xs: seq<Piece>): string
    requires ValidPieces(xs)
  {
    if xs == [] then "" else PieceMeaning(xs[0]) + PiecesMeaning(xs[1..])
  }

  lemma PieceReads(t: string, opt: ParseOptions, p: nat, buf: string, x: Piece)
    requires ValidPiece(x) && StartsAt(t, p, PieceText(x))
    ensures p + |PieceText(x)| <= |t|
    ensures StringAt(t, opt, p, buf) == Accumulate(t, opt, p + |PieceText(x)|, buf + PieceMeaning(x))
  {
    hide Accumulate, StartsAt, Utf8, IsNumeral, ValueOf;
    CharactersAt(t, p, PieceText(x));
    match x {
      case Raw(_) => assert t[p] == PieceText(x)[0];
      case Short(_) => assert t[p] == PieceText(x)[0] && t[p + 1] == PieceText(x)[1];
      case Code(ds) =>
        assert t[p] == PieceText(x)[0] && t[p + 1] == PieceText(x)[1];
        StartsSplit(t, p, ['\\', 'u'], ds);
        StartsAtMeans(t, p + 2, ds);
    }
  }

  lemma {:induction false} PiecesRead(t: string, opt: ParseOptions, p: nat, buf: string, xs: seq<Piece>)
    requires ValidPieces(xs) && StartsAt(t, p, PiecesText(xs) + "\"") && |buf| + |PiecesMeaning(xs)| <= opt.maxStringBytes
    ensures p < |t| && StringAt(t, opt, p, buf) == StringScan(true, buf + PiecesMeaning(xs), p + |PiecesText(xs)| + 1)
    decreases |xs|
  {
    hide StringAt, StartsAt, PieceText, PieceMeaning, ValidPiece;
    if xs == [] {
      PiecesEnd(t, opt, p, buf);
    } else {
      var x, rest := xs[0], xs[1..];
      assert PiecesText(xs) + "\"" == PieceText(x) + (PiecesText(rest) + "\"");
      StartsSplit(t, p, PieceText(x), PiecesText(rest) + "\"");
      PieceReads(t, opt, p, buf, x);
      assert |buf + PieceMeaning(x)| <= opt.maxStringBytes;
      PiecesRead(t, opt, p + |PieceText(x)|, buf + PieceMeaning(x), rest);
      assert buf + PieceMeaning(x) + PiecesMeaning(rest) == buf + PiecesMeaning(xs);
    }
  }

  lemma PiecesEnd(t: string, opt: ParseOptions, p: nat, buf: string)
    requires StartsAt(t, p, "" + "\"")
    ensures p < |t| && StringAt(t, opt, p, buf) == StringScan(true, buf + "", p + 1)
  {
    assert "" + "\"" == ['\"'] + "";
    StartsWith(t, p, '\"', "");
    assert buf + "" == buf;
  }

  function StringText(xs: seq<Piece>): string {
    ['\"'] + (PiecesText(xs) + "\"")
  }

  lemma StringTextReads(t: string, opt: ParseOptions, p: nat, xs: seq<Piece>)
    requires ValidPieces(xs) && StartsAt(t, p, StringText(xs)) && |PiecesMeaning(xs)| <= opt.maxStringBytes
    ensures p + |StringText(xs)| <= |t| && t[p] == '\"'
    ensures StringAt(t, opt, p + 1, "") == StringScan(true, PiecesMeaning(xs), p + |StringText(xs)|)
  {
    hide StringAt, StartsAt, PiecesText;
    FirstAt(t, p, StringText(xs));
    StartsWith(t, p, '\"', PiecesText(xs) + "\"");
    PiecesRead(t, opt, p + 1, "", xs);
    assert "" + PiecesMeaning(xs) == PiecesMeaning(xs);
  }

  // ---- Values -------------------------------------------------------------------------------

  datatype Syntax =
    | NullWord | TrueWord | FalseWord | NaNWord | InfWord
    | NumberWord(number: Numeric)
    | StringWord(pieces: seq<Piece>)
    | ArrayOf(space: string, items: seq<Item>)
    | ObjectOf(space: string, members: seq<Member>)

  // A value between white space.
  datatype Item = Item(before: string, value: Syntax, after: string)

  // A key and a value, with white space around each and around the colon.
  datatype Member = Member(before: string, key: seq<Piece>, behindKey: string, behindColon: string, value: Syntax, after: string)

  function TextOf(s: Syntax): string
    decreases s, 0
  {
    match s
    case NullWord => "null"
    case TrueWord => "true"
    case FalseWord => "false"
    case NaNWord => "NaN"
    case InfWord => "Inf"
    case NumberWord(n) => NumericText(n)
    case StringWord(xs) => StringText(xs)
    case ArrayOf(space, items) => ['['] + if items == [] then space + "]" else ItemsText(items, 0)
    case ObjectOf(space, members) => ['{'] + if members == [] then space + "}" else MembersText(members, 0)
  }

  function ItemsText(items: seq<Item>, i: nat): string
    requires i < |items|
    decreases items, |items| - i
  {
    var x := items[i];
    x.before + (TextOf(x.value) + (x.after + if i + 1 == |items| then [']'] + "" else [','] + ItemsText(items, i + 1)))
  }

  function MembersText(members: seq<Member>, i: nat): string
    requires i < |members|
    decreases members, |members| - i
  {
    var x := members[i];
    x.before + (StringText(x.key) + (x.behindKey + ([':'] + (x.behindColon + (TextOf(x.value) +
    (x.after + if i + 1 == |members| then ['}'] + "" else [','] + MembersText(members, i + 1)))))))
  }

  predicate Space(s: string) {
    forall i :: 0 <= i < |s| ==> s[i] == ' ' || s[i] == '\t' || s[i] == '\n' || s[i] == '\r'
  }

  // Well formed, with a digit or a minus sign in front of each number, strings within the bound,
  // and the two words for what is no number only where they are allowed.
  predicate Legal(s: Syntax, opt: ParseOptions) {
    match s
    case NaNWord | InfWord => opt.allowNanInf
    case NumberWord(n) => ValidNumeric(n) && (n.negative || n.whole != "")
    case StringWord(xs) => LegalString(xs, opt)
    case ArrayOf(space, items) => Space(space) && forall i :: 0 <= i < |items| ==> LegalItem(items[i], opt)
    case ObjectOf(space, members) => Space(space) && forall i :: 0 <= i < |members| ==> LegalMember(members[i], opt)
    case _ => true
  }

  predicate LegalString(xs: seq<Piece>, opt: ParseOptions) {
    ValidPieces(xs) && |PiecesMeaning(xs)| <= opt.maxStringBytes
  }

  predicate LegalItem(x: Item, opt: ParseOptions) {
    Space(x.before) && Space(x.after) && Legal(x.value, opt)
  }

  predicate LegalMember(x: Member, opt: ParseOptions) {
    Space(x.before) && LegalString(x.key, opt) && Space(x.behindKey) && Space(x.behindColon) && Space(x.after) && Legal(x.value, opt)
  }

  predicate Nested(s: Syntax, levels: nat) {
    match s
    case ArrayOf(_, items) => items == [] || (levels > 0 && forall i :: 0 <= i < |items| ==> Nested(items[i].value, levels - 1))
    case ObjectOf(_, members) => members == [] || (levels > 0 && forall i :: 0 <= i < |members| ==> Nested(members[i].value, levels - 1))
    case _ => true
  }

  function Count(s: Syntax): nat
    decreases s, 0
  {
    match s
    case ArrayOf(_, items) => 1 + CountItems(items, 0)
    case ObjectOf(_, members) => 1 + CountMembers(members, 0)
    case _ => 1
  }

  function CountItems(items: seq<Item>, i: nat): nat
    requires i <= |items|
    decreases items, |items| - i
  {
    if i == |items| then 0 else Count(items[i].value) + CountItems(items, i + 1)
  }

  function CountMembers(members: seq<Member>, i: nat): nat
    requires i <= |members|
    decreases members, |members| - i
  {
    if i == |members| then 0 else Count(members[i].value) + CountMembers(members, i + 1)
  }

  // An object has the last value of each key.
  function Meaning(s: Syntax, opt: ParseOptions): Value
    requires Legal(s, opt)
    decreases s, 0
  {
    match s
    case NullWord => Null
    case TrueWord => Bool(true)
    case FalseWord => Bool(false)
    case NaNWord => Double(NotANumber)
    case InfWord => Double(Infinite(false))
    case NumberWord(n) => NumericValue(n)
    case StringWord(xs) => String(PiecesMeaning(xs))
    case ArrayOf(_, items) => Array(FirstItems(items, |items|, opt))
    case ObjectOf(_, members) => Object(FirstMembers(members, |members|, opt))
  }

  function FirstItems(items: seq<Item>, n: nat, opt: ParseOptions): seq<Value>
    requires n <= |items| && forall i :: 0 <= i < |items| ==> LegalItem(items[i], opt)
    decreases items, n
  {
    if n == 0 then [] else FirstItems(items, n - 1, opt) + [Meaning(items[n - 1].value, opt)]
  }

  function FirstMembers(members: seq<Member>, n: nat, opt: ParseOptions): seq<Field>
    requires n <= |members| && forall i :: 0 <= i < |members| ==> LegalMember(members[i], opt)
    decreases members, n
  {
    if n == 0 then []
    else SetField(FirstMembers(members, n - 1, opt), PiecesMeaning(members[n - 1].key), Meaning(members[n - 1].value, opt))
  }

  // ---- Reading ----------------------------------------------------------------------------------

  // The value fits below the given depth and behind the values counted so far.
  predicate Fits(s: Syntax, opt: ParseOptions, n: nat, d: nat) {
    Legal(s, opt) && d <= opt.maxDepth && Nested(s, opt.maxDepth - d) && n + Count(s) <= opt.maxNodes
  }

  lemma SpaceAt(t: string, p: nat, space: string, rest: string)
    requires StartsAt(t, p, space + rest) && Space(space) && rest != "" && !IsWs(rest[0])
    ensures p + |space| < |t| && SkipWs(t, p) == p + |space| && StartsAt(t, p + |space|, rest) && t[p + |space|] == rest[0]
  {
    hide StartsAt, SkipWs;
    StartsSplit(t, p, space, rest);
    CharactersAt(t, p, space);
    FirstAt(t, p + |space|, rest);
    SkipExactly(t, p, p + |space|);
  }

  lemma SpaceIsPassed(t: string, p: nat, space: string)
    requires StartsAt(t, p, space) && Space(space) && (p + |space| < |t| ==> !IsWs(t[p + |space|]))
    ensures p + |space| <= |t| && SkipWs(t, p) == p + |space|
  {
    hide StartsAt, SkipWs;
    CharactersAt(t, p, space);
    SkipExactly(t, p, p + |space|);
  }

  lemma NumericStarts(n: Numeric)
    requires ValidNumeric(n) && (n.negative || n.whole != "")
    ensures NumericText(n) != "" && (NumericText(n)[0] == '-' || IsDigit(NumericText(n)[0]))
  {
  }

  lemma TextStarts(s: Syntax, opt: ParseOptions)
    requires Legal(s, opt)
    ensures TextOf(s) != "" && !IsWs(TextOf(s)[0]) && TextOf(s)[0] != ']' && TextOf(s)[0] != '}'
  {
    if s.NumberWord? {
      hide NumericText;
      NumericStarts(s.number);
    }
  }

  lemma SpaceStops(t: string, p: nat, after: string, c: char, rest: string)
    requires StartsAt(t, p, after + ([c] + rest)) && Space(after) && c in {',', ']', '}'}
    ensures NumberStops(t, p)
  {
    FirstAt(t, p, after + ([c] + rest));
  }

  lemma {:induction false} ValueReads(t: string, opt: ParseOptions, p: nat, n: nat, d: nat, s: Syntax)
    requires StartsAt(t, p, TextOf(s)) && NumberStops(t, p + |TextOf(s)|) && Fits(s, opt, n, d)
    ensures p < |t| && StrictAt(t, opt, p, n, d) == Parsed(NoError, Meaning(s, opt), p + |TextOf(s)|, n + Count(s))
    decreases s, 1
  {
    hide StrictToken, StartsAt, TextOf, Meaning, Nested, NumberStops, Legal;
    TextStarts(s, opt);
    FirstAt(t, p, TextOf(s));
    SkipExactly(t, p, p);
    CountIsPositive(s);
    TokenReads(t, opt, p, n + 1, d, s);
  }

  lemma CountIsPositive(s: Syntax)
    ensures Count(s) > 0
  {
  }

  lemma {:induction false} TokenReads(t: string, opt: ParseOptions, p: nat, n: nat, d: nat, s: Syntax)
    requires StartsAt(t, p, TextOf(s)) && NumberStops(t, p + |TextOf(s)|) && p < |t| && n > 0 && Fits(s, opt, n - 1, d)
    ensures StrictToken(t, opt, p, n, d) == Parsed(NoError, Meaning(s, opt), p + |TextOf(s)|, n - 1 + Count(s))
    decreases s, 0
  {
    hide StrictToken, StartsAt, Meaning, Nested, NumberStops, TextOf, Count;
    match s {
      case ArrayOf(space, items) => ArrayReads(t, opt, p, n, d, space, items);
      case ObjectOf(space, members) => ObjectReads(t, opt, p, n, d, space, members);
      case _ => WordReads(t, opt, p, n, d, s);
    }
  }

  lemma WordReads(t: string, opt: ParseOptions, p: nat, n: nat, d: nat, s: Syntax)
    requires StartsAt(t, p, TextOf(s)) && NumberStops(t, p + |TextOf(s)|) && p < |t|
    requires Legal(s, opt) && !s.ArrayOf? && !s.ObjectOf?
    ensures StrictToken(t, opt, p, n, d) == Parsed(NoError, Meaning(s, opt), p + |TextOf(s)|, n) && Count(s) == 1
  {
    hide StringAt, NumberAt, ParseItems, ParseFields, StrictItems, StrictFields, SkipWs, NumericText, StringText, NumericValue, PiecesMeaning;
    FirstAt(t, p, TextOf(s));
    match s {
      case NumberWord(x) =>
        NumericStarts(x);
        NumericReads(t, opt, p, x);
      case StringWord(xs) => StringTextReads(t, opt, p, xs);
      case NullWord => CharactersAt(t, p, "null");
      case TrueWord => CharactersAt(t, p, "true");
      case FalseWord => CharactersAt(t, p, "false");
      case NaNWord | InfWord => SpecialReads(t, opt, p, s);
    }
  }

  lemma FirstLetters(t: string, p: nat)
    requires p < |t|
    ensures StartsAt(t, p, "NaN") ==> t[p] == 'N'
    ensures StartsAt(t, p, "nan") ==> t[p] == 'n'
    ensures StartsAt(t, p, "Inf") ==> t[p] == 'I'
    ensures StartsAt(t, p, "inf") ==> t[p] == 'i'
  {
    hide StartsAt;
    if StartsAt(t, p, "NaN") {
      FirstAt(t, p, "NaN");
    }
    if StartsAt(t, p, "nan") {
      FirstAt(t, p, "nan");
    }
    if StartsAt(t, p, "Inf") {
      FirstAt(t, p, "Inf");
    }
    if StartsAt(t, p, "inf") {
      FirstAt(t, p, "inf");
    }
  }

  lemma SpecialReads(t: string, opt: ParseOptions, p: nat, s: Syntax)
    requires StartsAt(t, p, TextOf(s)) && (s == NaNWord || s == InfWord) && Legal(s, opt) && p < |t|
    ensures NumberAt(t, opt, p) == NumberScan(NoError, Meaning(s, opt), p + 3) && (t[p] == 'N' || t[p] == 'I')
  {
    hide StartsAt;
    FirstLetters(t, p);
  }

  // A value, white space, and the comma or closing character behind it.
  lemma {:induction false} ChildReads(t: string, opt: ParseOptions, p: nat, n: nat, d: nat, s: Syntax, after: string, c: char, rest: string,
                                      close: char)
    requires StartsAt(t, p, TextOf(s) + (after + ([c] + rest))) && Space(after) && (c == ',' || c == close)
    requires close in {']', '}'} && Fits(s, opt, n, d + 1)
    ensures var q := p + |TextOf(s)| + |after|;
            && q < |t| && StartsAt(t, q + 1, rest) && SkipWs(t, p) == p
            && StrictChild(t, opt, p, n, d, close) ==
               if c == ',' then More(Meaning(s, opt), q + 1, n + Count(s)) else Last(Meaning(s, opt), q + 1, n + Count(s))
    decreases s, 2
  {
    hide StrictAt, TextOf, Meaning, Fits, Count, StartsAt, SkipWs, NumberStops, IsWs, Space;
    var e := p + |TextOf(s)|;
    StartsSplit(t, p, TextOf(s), after + ([c] + rest));
    SpaceStops(t, e, after, c, rest);
    ValueReads(t, opt, p, n, d + 1, s);
    NoSpace(c);
    SpaceAt(t, e, after, [c] + rest);
    StartsWith(t, e + |after|, c, rest);
    StartsNow(t, p, s, opt, n, d);
  }

  lemma NoSpace(c: char)
    ensures c in {',', ']', '}', ':', '\"'} ==> !IsWs(c)
  {
  }

  lemma StartsNow(t: string, p: nat, s: Syntax, opt: ParseOptions, n: nat, d: nat)
    requires StartsAt(t, p, TextOf(s)) && Fits(s, opt, n, d + 1)
    ensures p <= |t| && SkipWs(t, p) == p
  {
    hide TextOf, StartsAt, SkipWs;
    TextStarts(s, opt);
    FirstAt(t, p, TextOf(s));
    SkipExactly(t, p, p);
  }

  // ---- Arrays -----------------------------------------------------------------------------------

  ghost predicate ItemsFit(items: seq<Item>, i: nat, opt: ParseOptions, n: nat, d: nat)
    requires i <= |items|
  {
    && d + 1 <= opt.maxDepth && n + CountItems(items, i) <= opt.maxNodes
    && (forall j :: 0 <= j < |items| ==> LegalItem(items[j], opt) && Nested(items[j].value, opt.maxDepth - (d + 1)))
  }

  lemma NextItemFits(items: seq<Item>, i: nat, opt: ParseOptions, n: nat, d: nat)
    requires i < |items| && ItemsFit(items, i, opt, n, d)
    ensures LegalItem(items[i], opt) && Fits(items[i].value, opt, n, d + 1) && ItemsFit(items, i + 1, opt, n + Count(items[i].value), d)
    ensures CountItems(items, i) == Count(items[i].value) + CountItems(items, i + 1) && CountItems(items, |items|) == 0
    ensures forall j :: 0 <= j < |items| ==> LegalItem(items[j], opt)
  {
    hide Nested;
  }

  lemma ItemLayout(items: seq<Item>, i: nat, opt: ParseOptions)
    requires i < |items| && LegalItem(items[i], opt)
    ensures var x := items[i];
            var last := i + 1 == |items|;
            var item := TextOf(x.value) + (x.after + ([if last then ']' else ','] + if last then "" else ItemsText(items, i + 1)));
            ItemsText(items, i) == x.before + item && item != "" && !IsWs(item[0]) && item[0] != ']'
  {
    hide TextOf;
    TextStarts(items[i].value, opt);
  }

  lemma {:induction false} ItemsRead(t: string, opt: ParseOptions, p: nat, n: nat, d: nat, items: seq<Item>, i: nat)
    requires i < |items| && StartsAt(t, p, ItemsText(items, i)) && ItemsFit(items, i, opt, n, d)
    ensures StrictItems(t, opt, p, n, d, FirstItems(items, i, opt)) ==
            Parsed(NoError, Array(FirstItems(items, |items|, opt)), p + |ItemsText(items, i)|, n + CountItems(items, i))
    ensures SkipWs(t, p) < |t| && t[SkipWs(t, p)] != ']'
    decreases items, |items| - i
  {
    hide StrictChild, StartsAt, TextOf, Count, CountItems, Meaning, SkipWs, Fits, ItemsFit, Space, Legal, ItemsText, IsWs;
    NextItemFits(items, i, opt, n, d);
    ItemLayout(items, i, opt);
    var x := items[i];
    var last := i + 1 == |items|;
    var c, rest := if last then ']' else ',', if last then "" else ItemsText(items, i + 1);
    var item := TextOf(x.value) + (x.after + ([c] + rest));
    SpaceAt(t, p, x.before, item);
    var q := p + |x.before|;
    ChildReads(t, opt, q, n, d, x.value, x.after, c, rest, ']');
    var e := q + |TextOf(x.value)| + |x.after| + 1;
    assert FirstItems(items, i + 1, opt) == FirstItems(items, i, opt) + [Meaning(x.value, opt)];
    if !last {
      ItemsRead(t, opt, e, n + Count(x.value), d, items, i + 1);
    }
  }

  lemma NoItems(items: seq<Item>, opt: ParseOptions)
    requires forall i :: 0 <= i < |items| ==> LegalItem(items[i], opt)
    ensures FirstItems(items, 0, opt) == []
  {
  }

  lemma NoMembers(members: seq<Member>, opt: ParseOptions)
    requires forall i :: 0 <= i < |members| ==> LegalMember(members[i], opt)
    ensures FirstMembers(members, 0, opt) == []
  {
  }

  lemma {:induction false} ArrayReads(t: string, opt: ParseOptions, p: nat, n: nat, d: nat, space: string, items: seq<Item>)
    requires StartsAt(t, p, TextOf(ArrayOf(space, items))) && p < |t| && n > 0 && Fits(ArrayOf(space, items), opt, n - 1, d)
    ensures StrictToken(t, opt, p, n, d) ==
            Parsed(NoError, Meaning(ArrayOf(space, items), opt), p + |TextOf(ArrayOf(space, items))|, n - 1 + Count(ArrayOf(space, items)))
    decreases items, |items| + 1
  {
    hide StrictItems, StrictFields, StartsAt, ItemsText, SkipWs, FirstItems, LegalItem, Space;
    if items == [] {
      StartsWith(t, p, '[', space + "]");
      SpaceAt(t, p + 1, space, "]");
      NoItems(items, opt);
    } else {
      StartsWith(t, p, '[', ItemsText(items, 0));
      NoItems(items, opt);
      ItemsRead(t, opt, p + 1, n, d, items, 0);
      ItemsBehindSpace(t, opt, p + 1, n, d, FirstItems(items, 0, opt));
    }
  }

  lemma ItemsBehindSpace(t: string, opt: ParseOptions, p: nat, n: nat, d: nat, read: seq<Value>)
    requires p <= |t|
    ensures StrictItems(t, opt, SkipWs(t, p), n, d, read) == StrictItems(t, opt, p, n, d, read)
  {
    hide StrictChild;
    SkipExactly(t, SkipWs(t, p), SkipWs(t, p));
  }

  // ---- Objects ----------------------------------------------------------------------------------

  ghost predicate MembersFit(members: seq<Member>, i: nat, opt: ParseOptions, n: nat, d: nat)
    requires i <= |members|
  {
    && d + 1 <= opt.maxDepth && n + CountMembers(members, i) <= opt.maxNodes
    && (forall j :: 0 <= j < |members| ==> LegalMember(members[j], opt) && Nested(members[j].value, opt.maxDepth - (d + 1)))
  }

  lemma NextMemberFits(members: seq<Member>, i: nat, opt: ParseOptions, n: nat, d: nat)
    requires i < |members| && MembersFit(members, i, opt, n, d)
    ensures LegalMember(members[i], opt) && Fits(members[i].value, opt, n, d + 1)
    ensures MembersFit(members, i + 1, opt, n + Count(members[i].value), d)
    ensures CountMembers(members, i) == Count(members[i].value) + CountMembers(members, i + 1) && CountMembers(members, |members|) == 0
  {
    hide Nested, LegalString;
  }

  // A key, the colon and the white space around it.
  lemma KeyReads(t: string, opt: ParseOptions, p: nat, x: Member, rest: string)
    requires LegalMember(x, opt) && rest != "" && !IsWs(rest[0])
    requires StartsAt(t, p, x.before + (StringText(x.key) + (x.behindKey + ([':'] + (x.behindColon + rest)))))
    ensures var q := p + |x.before| + |StringText(x.key)| + |x.behindKey| + 1 + |x.behindColon|;
            && q < |t| && KeyAt(t, opt, p) == Key(PiecesMeaning(x.key), q) && StartsAt(t, q, rest)
            && SkipWs(t, p) < |t| && t[SkipWs(t, p)] == '\"'
  {
    hide StartsAt, SkipWs, StringAt, StringText, PiecesMeaning, ValidPieces, Legal, Space;
    var tail := x.behindKey + ([':'] + (x.behindColon + rest));
    NoSpace('\"');
    NoSpace(':');
    StringTextStarts(x.key);
    assert (StringText(x.key) + tail)[0] == '\"';
    SpaceAt(t, p, x.before, StringText(x.key) + tail);
    var q := p + |x.before|;
    StartsSplit(t, q, StringText(x.key), tail);
    StringTextReads(t, opt, q, x.key);
    var k := q + |StringText(x.key)|;
    SpaceAt(t, k, x.behindKey, [':'] + (x.behindColon + rest));
    var colon := k + |x.behindKey|;
    StartsWith(t, colon, ':', x.behindColon + rest);
    SpaceAt(t, colon + 1, x.behindColon, rest);
  }

  lemma StringTextStarts(xs: seq<Piece>)
    ensures StringText(xs) != "" && StringText(xs)[0] == '\"'
  {
  }

  lemma MemberLayout(members: seq<Member>, i: nat, opt: ParseOptions)
    requires i < |members| && LegalMember(members[i], opt)
    ensures var x := members[i];
            var last := i + 1 == |members|;
            var item := TextOf(x.value) + (x.after + ([if last then '}' else ','] + if last then "" else MembersText(members, i + 1)));
            && item != "" && !IsWs(item[0])
            && MembersText(members, i) == x.before + (StringText(x.key) + (x.behindKey + ([':'] + (x.behindColon + item))))
  {
    hide TextOf, StringText;
    TextStarts(members[i].value, opt);
  }

  lemma {:induction false} MembersRead(t: string, opt: ParseOptions, p: nat, n: nat, d: nat, members: seq<Member>, i: nat)
    requires i < |members| && StartsAt(t, p, MembersText(members, i)) && MembersFit(members, i, opt, n, d)
    ensures StrictFields(t, opt, p, n, d, FirstMembers(members, i, opt)) ==
            Parsed(NoError, Object(FirstMembers(members, |members|, opt)), p + |MembersText(members, i)|, n + CountMembers(members, i))
    ensures SkipWs(t, p) < |t| && t[SkipWs(t, p)] != '}'
    decreases members, |members| - i
  {
    hide StrictChild, KeyAt, StartsAt, TextOf, Count, CountMembers, Meaning, SkipWs, Fits, MembersFit, Space, Legal, StringText, SetField;
    hide PiecesMeaning, ValidPieces, MembersText, IsWs;
    NextMemberFits(members, i, opt, n, d);
    MemberLayout(members, i, opt);
    var x := members[i];
    var last := i + 1 == |members|;
    var c, rest := if last then '}' else ',', if last then "" else MembersText(members, i + 1);
    var item := TextOf(x.value) + (x.after + ([c] + rest));
    KeyReads(t, opt, p, x, item);
    var q := p + |x.before| + |StringText(x.key)| + |x.behindKey| + 1 + |x.behindColon|;
    ChildReads(t, opt, q, n, d, x.value, x.after, c, rest, '}');
    var e := q + |TextOf(x.value)| + |x.after| + 1;
    if !last {
      MembersRead(t, opt, e, n + Count(x.value), d, members, i + 1);
    }
  }

  lemma {:induction false} ObjectReads(t: string, opt: ParseOptions, p: nat, n: nat, d: nat, space: string, members: seq<Member>)
    requires StartsAt(t, p, TextOf(ObjectOf(space, members))) && p < |t| && n > 0 && Fits(ObjectOf(space, members), opt, n - 1, d)
    ensures StrictToken(t, opt, p, n, d) ==
            Parsed(NoError, Meaning(ObjectOf(space, members), opt), p + |TextOf(ObjectOf(space, members))|,
                   n - 1 + Count(ObjectOf(space, members)))
    decreases members, |members| + 1
  {
    hide StrictItems, StrictFields, StartsAt, MembersText, SkipWs, FirstMembers, LegalMember, Space;
    if members == [] {
      StartsWith(t, p, '{', space + "}");
      SpaceAt(t, p + 1, space, "}");
      NoMembers(members, opt);
    } else {
      StartsWith(t, p, '{', MembersText(members, 0));
      NoMembers(members, opt);
      MembersRead(t, opt, p + 1, n, d, members, 0);
      MembersBehindSpace(t, opt, p + 1, n, d, FirstMembers(members, 0, opt));
    }
  }

  lemma MembersBehindSpace(t: string, opt: ParseOptions, p: nat, n: nat, d: nat, read: seq<Field>)
    requires p <= |t|
    ensures StrictFields(t, opt, SkipWs(t, p), n, d, read) == StrictFields(t, opt, p, n, d, read)
  {
    hide StrictChild, StringAt, SkipWs;
    SkipExactly(t, SkipWs(t, p), SkipWs(t, p));
    assert KeyAt(t, opt, SkipWs(t, p)) == KeyAt(t, opt, p);
  }

  // ---- Documents ----------------------------------------------------------------------------------

  // Every text in the syntax, with its 7-bit strings, nesting and number of values
  // within the limits, is read as what it means, whatever white space, escapes and number forms it uses.
  lemma SyntaxIsRead(s: Syntax, opt: ParseOptions, lead: string, trail: string)
    requires Fits(s, opt, 0, 0) && Space(lead) && Space(trail)
    ensures var t := lead + (TextOf(s) + trail);
            StrictParse(t, opt) == Parse(t, opt) == ParseResult(Meaning(s, opt), NoError, |t|, "")
  {
    hide StrictAt, StrictToken, TextOf, Fits, SkipWs, Meaning, Count, Space, NumberStops, StartsAt;
    var rest := TextOf(s) + trail;
    var t := lead + rest;
    WholeText(t);
    FitsIsLegal(s, opt);
    TextStarts(s, opt);
    assert rest[0] == TextOf(s)[0];
    SpaceAt(t, 0, lead, rest);
    var p := |lead|;
    StartsSplit(t, p, TextOf(s), trail);
    var e := p + |TextOf(s)|;
    assert e + |trail| == |t|;
    SpaceIsPassed(t, e, trail);
    TrailStops(t, e, trail);
    ValueReads(t, opt, p, 0, 0, s);
    ValueBehindSpace(t, opt, 0, 0, 0);
    assert StrictParse(t, opt) == ParseResult(Meaning(s, opt), NoError, |t|, "");
    hide Parse, StrictParse;
    StrictVerdict(t, opt);
  }

  lemma FitsIsLegal(s: Syntax, opt: ParseOptions)
    requires Fits(s, opt, 0, 0)
    ensures Legal(s, opt)
  {
  }

  lemma TrailStops(t: string, p: nat, trail: string)
    requires StartsAt(t, p, trail) && Space(trail) && p + |trail| == |t|
    ensures NumberStops(t, p)
  {
    FirstAt(t, p, trail);
  }

  lemma ValueBehindSpace(t: string, opt: ParseOptions, p: nat, n: nat, d: nat)
    requires p <= |t|
    ensures SkipWs(t, p) <= |t| && StrictAt(t, opt, p, n, d).error == StrictAt(t, opt, SkipWs(t, p), n, d).error
    ensures StrictAt(t, opt, p, n, d).error == NoError ==> StrictAt(t, opt, p, n, d) == StrictAt(t, opt, SkipWs(t, p), n, d)
  {
    hide StrictToken;
    SkipExactly(t, SkipWs(t, p), SkipWs(t, p));
  }

  // In particular a text that is a number with a point or an exponent is the double that its
  // digits denote, infinite from the overflow bound on.
  lemma NumberTextIsRead(n: Numeric, opt: ParseOptions)
    requires ValidNumeric(n) && !IsWhole(n) && (n.negative || n.whole != "") && opt.maxNodes > 0
    ensures exists size: real :: 0.0 <= size && Denotes(n, size) &&
              Parse(NumericText(n), opt) ==
              ParseResult(Double(if size < OVERFLOW then Finite(n.negative, size) else Infinite(n.negative)), NoError, |NumericText(n)|, "")
  {
    hide Parse, NumericText, Denotes;
    var s := NumberWord(n);
    SyntaxIsRead(s, opt, "", "");
    assert "" + (NumericText(n) + "") == NumericText(n);
    NumericMeaning(n);
  }

  // Exponents count: this text is a quarter.
  lemma ExponentExample(opt: ParseOptions)
    requires opt.maxNodes > 0
    ensures Parse("2.5e-1", opt) == ParseResult(Double(Finite(false, 0.25)), NoError, 6, "")
  {
    hide Parse;
    var n := Numeric(false, "2", true, "5", Power10('e', "-", "1"));
    NumberTextIsRead(n, opt);
    assert NumericText(n) == "2.5e-1" by {
      assert ['e'] + ("-" + "1") == "e-1" && ['.'] + "5" == ".5";
      assert ".5" + "e-1" == ".5e-1" && "2" + ".5e-1" == "2.5e-1";
    }
    var size: real :| Denotes(n, size) &&
      Parse("2.5e-1", opt) == ParseResult(Double(if size < OVERFLOW then Finite(false, size) else Infinite(false)), NoError, 6, "");
    assert "2" + "5" == "25" && "25"[..1] == "2" && "2"[..0] == "" && "1"[..0] == "";
    assert size == 0.25;
  }

  // Words that are no numbers are read only where the options allow them, and a plus sign starts
  // no number.
  lemma SpecialWords(opt: ParseOptions)
    requires opt.maxNodes > 0
    ensures Parse("NaN", opt) == if opt.allowNanInf then ParseResult(Double(NotANumber), NoError, 3, "") else ParseResult(Null, InvalidNumber, 3, "")
    ensures Parse("Inf", opt) == if opt.allowNanInf then ParseResult(Double(Infinite(false)), NoError, 3, "") else ParseResult(Null, InvalidNumber, 3, "")
    ensures Parse("+1", opt) == ParseResult(Null, InvalidNumber, 0, "")
  {
    SpecialWord("NaN", opt);
    SpecialWord("Inf", opt);
    SpecialWord("+1", opt);
    assert "Inf"[0] != 'N' && "NaN"[0] == 'N' && "+1"[0] == '+';
  }

  lemma SpecialWord(t: string, opt: ParseOptions)
    requires opt.maxNodes > 0 && t != "" && t[0] in {'N', 'I', '+'}
    ensures var r := SpecialNumber(t, opt, 0);
            && r.pos <= |t| && (r.error == NoError && r.pos == |t| ==> Parse(t, opt) == ParseResult(r.value, NoError, |t|, ""))
            && (r.error != NoError ==> Parse(t, opt) == ParseResult(Null, r.error, r.pos, ""))
  {
    hide SpecialNumber, SkipWs, ParseItems, ParseFields, StringAt;
    SkipExactly(t, 0, 0);
    SkipExactly(t, |t|, |t|);
    var r := NumberAt(t, opt, 0);
    assert r == SpecialNumber(t, opt, 0);
    assert ParseToken(t, opt, 0, 1, 0) == Parsed(r.error, r.value, r.pos, 1);
    assert ParseAt(t, opt, 0, 0, 0) == Parsed(r.error, r.value, r.pos, 1);
  }
}
