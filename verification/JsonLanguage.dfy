// What a parser without silent failures accepts is written in the syntax.

module JsonLanguage {
  import opened Types
  import opened Text
  import opened Doubles
  import opened JsonValues
  import opened JsonGrammar
  import opened JsonNumbers
  import opened JsonLiterals
  import opened JsonSyntax
  import opened JsonStrict

  // ---- Strings ------------------------------------------------------------------------------

  lemma NextPiece(x: Piece, xs: seq<Piece>)
    requires ValidPiece(x) && ValidPieces(xs)
    ensures ValidPieces([x] + xs) && PiecesText([x] + xs) == PieceText(x) + PiecesText(xs)
    ensures PiecesMeaning([x] + xs) == PieceMeaning(x) + PiecesMeaning(xs)
  {
    hide PieceText, PieceMeaning, ValidPiece;
    assert ([x] + xs)[1..] == xs;
  }

  // The piece that a scan takes at p, unless it ends or fails there.
  lemma PieceSource(t: string, opt: ParseOptions, p: nat, buf: string) returns (x: Piece)
    requires p <= |t| && StringAt(t, opt, p, buf).ok && (p < |t| ==> t[p] != '\"')
    ensures ValidPiece(x) && p + |PieceText(x)| <= |t| && t[p..p + |PieceText(x)|] == PieceText(x) && PieceText(x) != ""
    ensures StringAt(t, opt, p, buf) == Accumulate(t, opt, p + |PieceText(x)|, buf + PieceMeaning(x))
  {
    hide Accumulate, Utf8, IsNumeral, ValueOf;
    if t[p] != '\\' {
      x := Raw(t[p]);
    } else if t[p + 1] != 'u' {
      x := Short(t[p + 1]);
    } else {
      x := Code(t[p + 2..p + 6]);
      assert t[p..p + 6] == ['\\', 'u'] + t[p + 2..p + 6];
    }
  }

  lemma NoPieces(t: string, opt: ParseOptions, p: nat, buf: string)
    requires p < |t| && t[p] == '\"'
    ensures ValidPieces([]) && StringAt(t, opt, p, buf) == StringScan(true, buf, p + 1)
    ensures t[p..p + 1] == PiecesText([]) + "\"" && buf == buf + PiecesMeaning([])
  {
    assert t[p..p + 1] == [t[p]] == "\"";
  }

  lemma {:induction false} PiecesSource(t: string, opt: ParseOptions, p: nat, buf: string) returns (xs: seq<Piece>)
    requires p <= |t| && StringAt(t, opt, p, buf).ok && |buf| <= opt.maxStringBytes
    ensures ValidPieces(xs)
    ensures var r := StringAt(t, opt, p, buf);
            t[p..r.pos] == PiecesText(xs) + "\"" && r.s == buf + PiecesMeaning(xs) && |r.s| <= opt.maxStringBytes
    decreases |t| - p
  {
    hide StringAt, PieceText, PieceMeaning, ValidPiece, ValidPieces, PiecesText, PiecesMeaning;
    if p < |t| && t[p] == '\"' {
      xs := [];
      NoPieces(t, opt, p, buf);
    } else {
      var x := PieceSource(t, opt, p, buf);
      var q := p + |PieceText(x)|;
      var rest := PiecesSource(t, opt, q, buf + PieceMeaning(x));
      xs := [x] + rest;
      NextPiece(x, rest);
      Glue(t, p, q, StringAt(t, opt, p, buf).pos, PieceText(x), PiecesText(rest), "\"");
      Reassociate(buf, PieceMeaning(x), PiecesMeaning(rest));
    }
  }

  lemma Glue(t: string, p: nat, q: nat, e: nat, a: string, b: string, c: string)
    requires p <= q <= e <= |t| && t[p..q] == a && t[q..e] == b + c
    ensures t[p..e] == a + b + c
  {
    assert t[p..e] == t[p..q] + t[q..e];
    assert a + (b + c) == a + b + c;
  }

  lemma Reassociate(a: string, b: string, c: string)
    ensures a + b + c == a + (b + c)
  {
  }

  lemma StringSource(t: string, opt: ParseOptions, p: nat) returns (xs: seq<Piece>)
    requires p < |t| && t[p] == '\"' && StringAt(t, opt, p + 1, "").ok
    ensures LegalString(xs, opt)
    ensures var r := StringAt(t, opt, p + 1, ""); t[p..r.pos] == StringText(xs) && r.s == PiecesMeaning(xs)
  {
    hide StringAt;
    xs := PiecesSource(t, opt, p + 1, "");
    var e := StringAt(t, opt, p + 1, "").pos;
    assert t[p..e] == [t[p]] + t[p + 1..e];
    assert "" + PiecesMeaning(xs) == PiecesMeaning(xs);
  }

  // ---- Numbers ------------------------------------------------------------------------------

  lemma DigitsOfText(t: string, p: nat)
    requires p <= |t|
    ensures AllDigits(t[p..DigitsEnd(t, p)])
  {
    var q := DigitsEnd(t, p);
    assert forall i :: 0 <= i < q - p ==> t[p..q][i] == t[p + i];
  }

  lemma ExponentSource(t: string, p: nat) returns (x: Exponent)
    requires p <= |t| && (ExponentEnd(t, p) == p || IsDigit(t[ExponentEnd(t, p) - 1]))
    ensures ValidExponent(x) && t[p..ExponentEnd(t, p)] == ExponentText(x) && (x.NoExponent? <==> ExponentEnd(t, p) == p)
  {
    var e := ExponentEnd(t, p);
    if e == p {
      x := NoExponent;
    } else {
      var q := if p + 1 < |t| && (t[p + 1] == '+' || t[p + 1] == '-') then p + 2 else p + 1;
      x := Power10(t[p], t[p + 1..q], t[q..e]);
      DigitsOfText(t, q);
      SignText(t, p, q);
      assert t[p..e] == [t[p]] + (t[p + 1..q] + t[q..e]);
    }
  }

  lemma SignText(t: string, p: nat, q: nat)
    requires p < |t| && (q == p + 1 || (q == p + 2 && p + 1 < |t| && (t[p + 1] == '+' || t[p + 1] == '-')))
    ensures t[p + 1..q] in {"", "+", "-"}
  {
    if q == p + 2 {
      assert t[p + 1..q] == [t[p + 1]] && ['+'] == "+" && ['-'] == "-";
    } else {
      assert t[p + 1..q] == "";
    }
  }

  lemma TailSource(t: string, whole: nat) returns (point: bool, fraction: string)
    requires whole <= |t|
    ensures AllDigits(fraction) && (!point ==> fraction == "") && (point <==> FractionEnd(t, whole) > whole)
    ensures whole + 1 < FractionEnd(t, whole) ==> fraction != ""
    ensures t[whole..FractionEnd(t, whole)] == if point then ['.'] + fraction else ""
  {
    var mantissa := FractionEnd(t, whole);
    point := mantissa > whole;
    fraction := "";
    if point {
      fraction := t[whole + 1..mantissa];
      DigitsOfText(t, whole + 1);
      assert t[whole..mantissa] == ['.'] + fraction;
    }
  }

  // The parts of the longest number at p.
  lemma PartsSource(t: string, p: nat) returns (n: Numeric)
    requires p < |t|
    requires var whole := DigitsEnd(t, BehindSign(t, p));
             var mantissa := FractionEnd(t, whole);
             var end := ExponentEnd(t, mantissa);
             && (end == mantissa || IsDigit(t[end - 1])) && (BehindSign(t, p) < whole || whole + 1 < mantissa)
    ensures ValidNumeric(n)
    ensures var whole := DigitsEnd(t, BehindSign(t, p));
            var mantissa := FractionEnd(t, whole);
            var end := ExponentEnd(t, mantissa);
            && t[p..end] == NumericText(n) && (IsWhole(n) <==> end == whole) && (n.negative <==> t[p] == '-')
            && (t[p] != '-' && IsDigit(t[p]) ==> n.whole != "")
  {
    hide DigitsEnd, FractionEnd, ExponentEnd, AllDigits, BehindSign, IsDigit, ValidExponent, ExponentText, NumericText, ValidNumeric, Sign;
    var start := BehindSign(t, p);
    HeadSource(t, p);
    var whole := DigitsEnd(t, start);
    var mantissa := FractionEnd(t, whole);
    var end := ExponentEnd(t, mantissa);
    var point, fraction := TailSource(t, whole);
    var x := ExponentSource(t, mantissa);
    n := Joined(t, p, start, whole, mantissa, end, point, fraction, x);
  }

  lemma Joined(t: string, p: nat, start: nat, whole: nat, mantissa: nat, end: nat, point: bool, fraction: string, x: Exponent) returns (n: Numeric)
    requires p <= start <= whole <= mantissa <= end <= |t| && p < |t| && t[p..start] == Sign(t[p] == '-') && AllDigits(t[start..whole])
    requires AllDigits(fraction) && (!point ==> fraction == "") && t[whole..mantissa] == (if point then ['.'] + fraction else "")
    requires ValidExponent(x) && t[mantissa..end] == ExponentText(x) && (start < whole || fraction != "")
    ensures n == Numeric(t[p] == '-', t[start..whole], point, fraction, x) && ValidNumeric(n) && t[p..end] == NumericText(n)
    ensures n.whole == "" <==> start == whole
  {
    hide AllDigits, ValidExponent, ExponentText, Sign;
    FourParts(t, p, start, whole, mantissa, end);
    n := Numeric(t[p] == '-', t[start..whole], point, fraction, x);
  }

  lemma HeadSource(t: string, p: nat)
    requires p < |t|
    ensures var start := BehindSign(t, p);
            && p <= start <= |t| && t[p..start] == Sign(t[p] == '-')
            && AllDigits(t[start..DigitsEnd(t, start)]) && (t[p] != '-' && IsDigit(t[p]) ==> start < DigitsEnd(t, start))
  {
    hide DigitsEnd;
    DigitsOfText(t, BehindSign(t, p));
  }

  lemma FourParts(t: string, a: nat, b: nat, c: nat, d: nat, e: nat)
    requires a <= b <= c <= d <= e <= |t|
    ensures t[a..e] == t[a..b] + (t[b..c] + (t[c..d] + t[d..e]))
  {
  }

  // Scanning the token alone stops where scanning the text did.
  lemma TokenScan(t: string, p: nat, start: nat, whole: nat, mantissa: nat, end: nat, tok: string)
    requires p < |t| && (t[p] == '-' || IsDigit(t[p])) && start == BehindSign(t, p) && whole == DigitsEnd(t, start)
    requires mantissa == FractionEnd(t, whole) && end == ExponentEnd(t, mantissa) && tok == t[p..end]
    ensures p < end && |tok| == end - p && BehindSign(tok, 0) == start - p && DigitsEnd(tok, start - p) == whole - p
    ensures FractionEnd(tok, whole - p) == mantissa - p && ExponentEnd(tok, mantissa - p) == end - p
  {
    SomethingScanned(t, p);
    CutSign(t, p, end);
    hide DigitsEnd, FractionEnd, ExponentEnd, BehindSign, IsDigit;
    CutDigits(t, p, end, start);
    CutFraction(t, p, end, whole);
    CutExponent(t, p, end, mantissa);
  }

  lemma CutSign(t: string, p: nat, end: nat)
    requires p < end <= |t|
    ensures p <= BehindSign(t, p) && BehindSign(t[p..end], 0) == BehindSign(t, p) - p
  {
    assert t[p..end][0] == t[p];
  }

  lemma SomethingScanned(t: string, p: nat)
    requires p < |t| && (t[p] == '-' || IsDigit(t[p]))
    ensures p < ExponentEnd(t, FractionEnd(t, DigitsEnd(t, BehindSign(t, p))))
  {
  }

  lemma CutDigits(t: string, p: nat, end: nat, q: nat)
    requires p <= q <= |t| && q <= DigitsEnd(t, q) <= end <= |t|
    ensures DigitsEnd(t[p..end], q - p) == DigitsEnd(t, q) - p
  {
    var tok, e := t[p..end], DigitsEnd(t, q);
    assert forall k :: q - p <= k < e - p ==> tok[k] == t[p + k];
    DigitsExactly(tok, q - p, e - p);
  }

  lemma CutFraction(t: string, p: nat, end: nat, q: nat)
    requires p <= q <= |t| && q <= end && FractionEnd(t, q) <= end <= |t|
    ensures FractionEnd(t[p..end], q - p) == FractionEnd(t, q) - p
  {
    hide DigitsEnd;
    if q < |t| && t[q] == '.' {
      CutDigits(t, p, end, q + 1);
    }
  }

  lemma CutExponent(t: string, p: nat, end: nat, q: nat)
    requires p <= q <= |t| && ExponentEnd(t, q) == end
    ensures ExponentEnd(t[p..end], q - p) == end - p
  {
    hide DigitsEnd;
    if q < |t| && (t[q] == 'e' || t[q] == 'E') {
      var signed := q + 1 < |t| && (t[q + 1] == '+' || t[q + 1] == '-');
      CutDigits(t, p, end, if signed then q + 2 else q + 1);
    }
  }

  lemma NumericSource(t: string, opt: ParseOptions, p: nat) returns (n: Numeric)
    requires p < |t| && (t[p] == '-' || IsDigit(t[p])) && NumberAt(t, opt, p).error == NoError
    ensures ValidNumeric(n) && (n.negative || n.whole != "")
    ensures var r := NumberAt(t, opt, p); t[p..r.pos] == NumericText(n) && r.value == NumericValue(n)
  {
    hide DigitsEnd, FractionEnd, ExponentEnd, BehindSign, NumericText, DecimalOf, IntegerOf, ReadsAsDecimal, ReadsAsInteger;
    NumberShape(t, opt, p);
    n := PartsSource(t, p);
    NumericValueIs(n);
    if IsWhole(n) {
      WholeMeans(n);
    }
  }

  // A number that reads has a digit, and one behind its exponent mark.
  lemma NumberShape(t: string, opt: ParseOptions, p: nat)
    requires p < |t| && (t[p] == '-' || IsDigit(t[p])) && NumberAt(t, opt, p).error == NoError
    ensures var whole := DigitsEnd(t, BehindSign(t, p));
            var mantissa := FractionEnd(t, whole);
            var end := ExponentEnd(t, mantissa);
            && (end == mantissa || IsDigit(t[end - 1])) && (BehindSign(t, p) < whole || whole + 1 < mantissa)
  {
    hide DigitsEnd, FractionEnd, ExponentEnd, IsDigit, NumberAt, ReadsAsDecimal;
    var start := BehindSign(t, p);
    var whole := DigitsEnd(t, start);
    var mantissa := FractionEnd(t, whole);
    var end := ExponentEnd(t, mantissa);
    var tok := t[p..end];
    TokenScan(t, p, start, whole, mantissa, end, tok);
    if end > whole {
      ReadDecimalShape(t, opt, p, whole, end, tok);
      DecimalShape(tok, start - p, whole - p, mantissa - p);
      LastOfToken(t, p, end, tok);
    } else {
      ReadIntegerShape(t, opt, p, whole, end, tok);
    }
  }

  lemma LastOfToken(t: string, p: nat, end: nat, tok: string)
    requires p < end <= |t| && tok == t[p..end]
    ensures tok[|tok| - 1] == t[end - 1]
  {
  }

  lemma DecimalShape(tok: string, start: nat, whole: nat, mantissa: nat)
    requires ReadsAsDecimal(tok) && start == BehindSign(tok, 0) <= |tok| && whole == DigitsEnd(tok, start) && mantissa == FractionEnd(tok, whole)
    requires tok != ""
    ensures (start < whole || whole + 1 < mantissa) && (mantissa == |tok| || IsDigit(tok[|tok| - 1]))
  {
    hide DigitsEnd, FractionEnd, ExponentEnd, BehindSign, IsDigit;
  }

  lemma ReadDecimalShape(t: string, opt: ParseOptions, p: nat, whole: nat, end: nat, tok: string)
    requires p < |t| && (t[p] == '-' || IsDigit(t[p])) && NumberAt(t, opt, p).error == NoError
    requires whole == DigitsEnd(t, BehindSign(t, p)) && end == ExponentEnd(t, FractionEnd(t, whole)) && whole < end && tok == t[p..end]
    ensures ReadsAsDecimal(tok)
  {
    hide DigitsEnd, FractionEnd, ExponentEnd, BehindSign, IntegerOf, DecimalOf, ReadsAsDecimal;
  }

  lemma ReadIntegerShape(t: string, opt: ParseOptions, p: nat, whole: nat, end: nat, tok: string)
    requires p < |t| && (t[p] == '-' || IsDigit(t[p])) && NumberAt(t, opt, p).error == NoError
    requires whole == DigitsEnd(t, BehindSign(t, p)) && end == ExponentEnd(t, FractionEnd(t, whole)) && whole == end && tok == t[p..end]
    ensures BehindSign(tok, 0) < |tok|
  {
    hide DigitsEnd, FractionEnd, ExponentEnd, IntegerOf, DecimalOf;
  }

  // ---- White space --------------------------------------------------------------------------

  lemma SpaceSource(t: string, p: nat)
    requires p <= |t|
    ensures Space(t[p..SkipWs(t, p)])
  {
    var q := SkipWs(t, p);
    assert forall i :: 0 <= i < q - p ==> t[p..q][i] == t[p + i];
  }

  lemma GlueTwo(t: string, p: nat, q: nat, e: nat, a: string, b: string)
    requires p <= q <= e <= |t| && t[p..q] == a && t[q..e] == b
    ensures t[p..e] == a + b
  {
    assert t[p..e] == t[p..q] + t[q..e];
  }

  // ---- Longer lists ---------------------------------------------------------------------------

  lemma {:induction false} ItemsShift(x: Item, rest: seq<Item>, i: nat)
    requires i < |rest|
    ensures ItemsText([x] + rest, i + 1) == ItemsText(rest, i)
    decreases |rest| - i
  {
    hide TextOf;
    assert ([x] + rest)[i + 1] == rest[i];
    if i + 1 < |rest| {
      ItemsShift(x, rest, i + 1);
    }
  }

  lemma {:induction false} CountShift(x: Item, rest: seq<Item>, i: nat)
    requires i <= |rest|
    ensures CountItems([x] + rest, i + 1) == CountItems(rest, i)
    decreases |rest| - i
  {
    if i < |rest| {
      CountShift(x, rest, i + 1);
    }
  }

  lemma {:induction false} FirstShift(x: Item, rest: seq<Item>, n: nat, opt: ParseOptions)
    requires n <= |rest| && LegalItem(x, opt) && forall i :: 0 <= i < |rest| ==> LegalItem(rest[i], opt)
    ensures (forall i :: 0 <= i < |[x] + rest| ==> LegalItem(([x] + rest)[i], opt))
    ensures FirstItems([x] + rest, n + 1, opt) == [Meaning(x.value, opt)] + FirstItems(rest, n, opt)
    decreases n
  {
    hide Meaning, LegalItem;
    if n > 0 {
      FirstShift(x, rest, n - 1, opt);
      assert ([x] + rest)[n] == rest[n - 1];
    } else {
      assert FirstItems([x] + rest, 0, opt) == [];
    }
  }

  lemma {:induction false} MembersShift(x: Member, rest: seq<Member>, i: nat)
    requires i < |rest|
    ensures MembersText([x] + rest, i + 1) == MembersText(rest, i)
    decreases |rest| - i
  {
    hide TextOf, StringText;
    assert ([x] + rest)[i + 1] == rest[i];
    if i + 1 < |rest| {
      MembersShift(x, rest, i + 1);
    }
  }

  lemma {:induction false} CountMembersShift(x: Member, rest: seq<Member>, i: nat)
    requires i <= |rest|
    ensures CountMembers([x] + rest, i + 1) == CountMembers(rest, i)
    decreases |rest| - i
  {
    if i < |rest| {
      CountMembersShift(x, rest, i + 1);
    }
  }

  // The members set one after the other, behind what was read before.
  ghost function SetAll(read: seq<Field>, members: seq<Member>, opt: ParseOptions): seq<Field>
    requires forall i :: 0 <= i < |members| ==> LegalMember(members[i], opt)
    decreases |members|
  {
    if members == [] then read
    else
      assert LegalMember(members[0], opt);
      SetAll(SetField(read, PiecesMeaning(members[0].key), Meaning(members[0].value, opt)), members[1..], opt)
  }

  lemma {:induction false} SetAllSplits(read: seq<Field>, members: seq<Member>, n: nat, opt: ParseOptions)
    requires n <= |members| && forall i :: 0 <= i < |members| ==> LegalMember(members[i], opt)
    requires read == FirstMembers(members, n, opt)
    ensures SetAll(read, members[n..], opt) == FirstMembers(members, |members|, opt)
    decreases |members| - n
  {
    hide Meaning, LegalMember, SetField, PiecesMeaning, ValidPieces;
    if n < |members| {
      assert members[n..][0] == members[n] && members[n..][1..] == members[n + 1..];
      SetAllSplits(FirstMembers(members, n + 1, opt), members, n + 1, opt);
    }
  }

  lemma SetAllIsFirst(members: seq<Member>, opt: ParseOptions)
    requires forall i :: 0 <= i < |members| ==> LegalMember(members[i], opt)
    ensures SetAll([], members, opt) == FirstMembers(members, |members|, opt)
  {
    hide LegalMember, Meaning;
    NoMembers(members, opt);
    SetAllSplits([], members, 0, opt);
    assert members[0..] == members;
  }

  // ---- Values ---------------------------------------------------------------------------------

  // The syntax s stands at p up to e, within the limits, and means the value.
  ghost predicate IsSource(t: string, opt: ParseOptions, p: nat, e: nat, n: nat, m: nat, d: nat, s: Syntax, v: Value) {
    && p <= e <= |t| && t[p..e] == TextOf(s) && Fits(s, opt, n, d) && m == n + Count(s) && v == Meaning(s, opt)
  }

  lemma {:induction false} ValueSource(t: string, opt: ParseOptions, p: nat, n: nat, d: nat) returns (s: Syntax)
    requires p <= |t| && StrictAt(t, opt, p, n, d).error == NoError
    ensures var r := StrictAt(t, opt, p, n, d); IsSource(t, opt, SkipWs(t, p), r.pos, n, r.nodes, d, s, r.value)
    decreases |t| - p, 0
  {
    hide StrictToken, SkipWs, IsSource;
    s := TokenSource(t, opt, SkipWs(t, p), n + 1, d);
  }

  lemma {:induction false} TokenSource(t: string, opt: ParseOptions, q: nat, n: nat, d: nat) returns (s: Syntax)
    requires q < |t| && n > 0 && n <= opt.maxNodes && d <= opt.maxDepth && StrictToken(t, opt, q, n, d).error == NoError
    ensures var r := StrictToken(t, opt, q, n, d); IsSource(t, opt, q, r.pos, n - 1, r.nodes, d, s, r.value)
    decreases |t| - q - 1, 4
  {
    hide StrictToken, IsSource;
    if t[q] == '{' {
      s := ObjectSource(t, opt, q, n, d);
    } else if t[q] == '[' {
      s := ArraySource(t, opt, q, n, d);
    } else {
      s := WordSource(t, opt, q, n, d);
    }
  }

  lemma WordSource(t: string, opt: ParseOptions, q: nat, n: nat, d: nat) returns (s: Syntax)
    requires q < |t| && n > 0 && n <= opt.maxNodes && d <= opt.maxDepth && StrictToken(t, opt, q, n, d).error == NoError
    requires t[q] != '{' && t[q] != '['
    ensures var r := StrictToken(t, opt, q, n, d); IsSource(t, opt, q, r.pos, n - 1, r.nodes, d, s, r.value)
  {
    hide StringAt, NumberAt, ParseItems, ParseFields, StrictItems, StrictFields, SkipWs, NumericText, StringText, NumericValue, PiecesMeaning;
    var c := t[q];
    if c == '\"' {
      var xs := StringSource(t, opt, q);
      s := StringWord(xs);
    } else if c == 't' {
      s := TrueWord;
    } else if c == 'f' {
      s := FalseWord;
    } else if c == 'n' {
      s := NullWord;
    } else if c == 'N' || c == 'I' || c == '+' {
      s := SpecialSource(t, opt, q);
    } else {
      var x := NumericSource(t, opt, q);
      s := NumberWord(x);
    }
  }

  lemma SpecialSource(t: string, opt: ParseOptions, q: nat) returns (s: Syntax)
    requires q < |t| && (t[q] == 'N' || t[q] == 'I' || t[q] == '+') && NumberAt(t, opt, q).error == NoError
    ensures (s == NaNWord || s == InfWord) && Legal(s, opt)
    ensures var r := NumberAt(t, opt, q); t[q..r.pos] == TextOf(s) && r.value == Meaning(s, opt)
  {
    hide StartsAt;
    FirstLetters(t, q);
    if StartsAt(t, q, "NaN") {
      s := NaNWord;
      StartsAtMeans(t, q, "NaN");
    } else {
      s := InfWord;
      StartsAtMeans(t, q, "Inf");
    }
  }

  // A child, the white space behind it and the character that ends it.
  lemma {:induction false} ChildSource(t: string, opt: ParseOptions, q: nat, n: nat, d: nat, close: char) returns (s: Syntax, after: string, e: nat)
    requires q <= |t| && !StrictChild(t, opt, q, n, d, close).NoChild?
    ensures var c := StrictChild(t, opt, q, n, d, close);
            && SkipWs(t, q) <= e && e + |after| < |t| && c.pos == e + |after| + 1 && t[e..e + |after|] == after && Space(after)
            && t[e + |after|] == (if c.More? then ',' else close)
            && IsSource(t, opt, SkipWs(t, q), e, n, c.nodes, d + 1, s, c.value)
    decreases |t| - q, 1
  {
    hide StrictAt, SkipWs, IsSource;
    var r := StrictAt(t, opt, q, n, d + 1);
    s := ValueSource(t, opt, q, n, d + 1);
    e := r.pos;
    after := t[e..SkipWs(t, e)];
    SpaceSource(t, e);
    SourceOrder(t, opt, SkipWs(t, q), e, n, r.nodes, d + 1, s, r.value);
  }

  lemma SourceOrder(t: string, opt: ParseOptions, p: nat, e: nat, n: nat, m: nat, d: nat, s: Syntax, v: Value)
    requires IsSource(t, opt, p, e, n, m, d, s, v)
    ensures p <= e <= |t| && n <= m <= opt.maxNodes && d <= opt.maxDepth
  {
  }

  // ---- Arrays ---------------------------------------------------------------------------------

  ghost predicate AreItems(t: string, opt: ParseOptions, p: nat, e: nat, n: nat, m: nat, d: nat, items: seq<Item>, values: seq<Value>) {
    && p <= e <= |t| && items != [] && t[p..e] == ItemsText(items, 0) && d + 1 <= opt.maxDepth
    && (forall i :: 0 <= i < |items| ==> LegalItem(items[i], opt) && Nested(items[i].value, opt.maxDepth - (d + 1)))
    && m == n + CountItems(items, 0) <= opt.maxNodes && values == FirstItems(items, |items|, opt)
  }

  // A piece of text, white space, a separator and what follows.
  lemma Separated(t: string, q: nat, e: nat, f: nat, end: nat, text: string, after: string, c: char, tail: string)
    requires q <= e <= f < end <= |t| && t[q..e] == text && t[e..f] == after && t[f] == c && t[f + 1..end] == tail
    ensures t[q..end] == text + (after + ([c] + tail))
  {
    assert t[f..f + 1] == [c];
    GlueTwo(t, f, f + 1, end, [c], tail);
    GlueTwo(t, e, f, end, after, [c] + tail);
    GlueTwo(t, q, e, end, text, after + ([c] + tail));
  }

  lemma SourceFits(t: string, opt: ParseOptions, p: nat, e: nat, n: nat, m: nat, d: nat, s: Syntax, v: Value)
    requires IsSource(t, opt, p, e, n, m, d, s, v)
    ensures p <= e <= |t| && t[p..e] == TextOf(s) && Legal(s, opt) && d <= opt.maxDepth && Nested(s, opt.maxDepth - d)
    ensures m == n + Count(s) <= opt.maxNodes && v == Meaning(s, opt)
  {
    hide TextOf, Legal, Nested, Count, Meaning;
  }

  lemma SingleItem(x: Item, opt: ParseOptions)
    requires LegalItem(x, opt)
    ensures ItemsText([x], 0) == x.before + (TextOf(x.value) + (x.after + ([']'] + "")))
    ensures CountItems([x], 0) == Count(x.value)
    ensures (forall i :: 0 <= i < |[x]| ==> LegalItem([x][i], opt)) && FirstItems([x], 1, opt) == [Meaning(x.value, opt)]
  {
    hide TextOf, Meaning, Legal, LegalItem, Count;
    assert CountItems([x], 1) == 0;
    NoItems([x], opt);
  }

  lemma OneItem(t: string, opt: ParseOptions, p: nat, q: nat, e: nat, n: nat, m: nat, d: nat, x: Item, v: Value)
    requires IsSource(t, opt, q, e, n, m, d + 1, x.value, v) && Space(x.before) && Space(x.after)
    requires p <= q && t[p..q] == x.before && e + |x.after| < |t| && t[e..e + |x.after|] == x.after && t[e + |x.after|] == ']'
    ensures AreItems(t, opt, p, e + |x.after| + 1, n, m, d, [x], [v])
  {
    hide TextOf, Meaning, Nested, Legal, IsSource, Count, ItemsText, CountItems, FirstItems;
    SourceFits(t, opt, q, e, n, m, d + 1, x.value, v);
    SingleItem(x, opt);
    var f := e + |x.after|;
    Separated(t, q, e, f, f + 1, TextOf(x.value), x.after, ']', "");
    GlueTwo(t, p, q, f + 1, x.before, TextOf(x.value) + (x.after + ([']'] + "")));
  }

  lemma FirstOfItems(x: Item, rest: seq<Item>, opt: ParseOptions)
    requires rest != [] && LegalItem(x, opt) && forall i :: 0 <= i < |rest| ==> LegalItem(rest[i], opt)
    ensures var items := [x] + rest;
            && ItemsText(items, 0) == x.before + (TextOf(x.value) + (x.after + ([','] + ItemsText(rest, 0))))
            && CountItems(items, 0) == Count(x.value) + CountItems(rest, 0)
            && (forall i :: 0 <= i < |items| ==> LegalItem(items[i], opt))
            && FirstItems(items, |items|, opt) == [Meaning(x.value, opt)] + FirstItems(rest, |rest|, opt)
  {
    hide TextOf, Meaning, Legal, LegalItem, Count, FirstItems;
    ItemsShift(x, rest, 0);
    CountShift(x, rest, 0);
    FirstShift(x, rest, |rest|, opt);
  }

  lemma MoreItems(t: string, opt: ParseOptions, p: nat, q: nat, e: nat, n: nat, m: nat, d: nat, x: Item, v: Value,
                  rest: seq<Item>, end: nat, k: nat, values: seq<Value>)
    requires IsSource(t, opt, q, e, n, m, d + 1, x.value, v) && Space(x.before) && Space(x.after)
    requires p <= q && t[p..q] == x.before && e + |x.after| < |t| && t[e..e + |x.after|] == x.after && t[e + |x.after|] == ','
    requires AreItems(t, opt, e + |x.after| + 1, end, m, k, d, rest, values)
    ensures AreItems(t, opt, p, end, n, k, d, [x] + rest, [v] + values)
  {
    hide TextOf, Meaning, Nested, Legal, IsSource, Count, ItemsText, CountItems, FirstItems;
    SourceFits(t, opt, q, e, n, m, d + 1, x.value, v);
    FirstOfItems(x, rest, opt);
    Separated(t, q, e, e + |x.after|, end, TextOf(x.value), x.after, ',', ItemsText(rest, 0));
    GlueTwo(t, p, q, end, x.before, TextOf(x.value) + (x.after + ([','] + ItemsText(rest, 0))));
  }

  lemma {:induction false} ItemsSource(t: string, opt: ParseOptions, p: nat, n: nat, d: nat, read: seq<Value>)
    returns (items: seq<Item>, values: seq<Value>)
    requires p <= |t| && StrictItems(t, opt, p, n, d, read).error == NoError
    ensures var r := StrictItems(t, opt, p, n, d, read);
            r.value == Array(read + values) && AreItems(t, opt, p, r.pos, n, r.nodes, d, items, values)
    decreases |t| - p, 2
  {
    hide StrictChild, SkipWs, IsSource, AreItems;
    var q := SkipWs(t, p);
    SpaceSource(t, p);
    AlreadySkipped(t, p);
    var s, after, e := ChildSource(t, opt, q, n, d, ']');
    var x := Item(t[p..q], s, after);
    var c := StrictChild(t, opt, q, n, d, ']');
    if c.More? {
      var rest, more := ItemsSource(t, opt, c.pos, c.nodes, d, read + [c.value]);
      var r := StrictItems(t, opt, c.pos, c.nodes, d, read + [c.value]);
      MoreItems(t, opt, p, q, e, n, c.nodes, d, x, c.value, rest, r.pos, r.nodes, more);
      items, values := [x] + rest, [c.value] + more;
      assert read + [c.value] + more == read + ([c.value] + more);
    } else {
      OneItem(t, opt, p, q, e, n, c.nodes, d, x, c.value);
      items, values := [x], [c.value];
    }
  }

  lemma AlreadySkipped(t: string, p: nat)
    requires p <= |t|
    ensures SkipWs(t, SkipWs(t, p)) == SkipWs(t, p)
  {
    SkipExactly(t, SkipWs(t, p), SkipWs(t, p));
  }

  lemma {:induction false} ArraySource(t: string, opt: ParseOptions, q: nat, n: nat, d: nat) returns (s: Syntax)
    requires q < |t| && t[q] == '[' && n > 0 && n <= opt.maxNodes && d <= opt.maxDepth
    requires StrictToken(t, opt, q, n, d).error == NoError
    ensures var r := StrictToken(t, opt, q, n, d); IsSource(t, opt, q, r.pos, n - 1, r.nodes, d, s, r.value)
    decreases |t| - q - 1, 3
  {
    hide StrictItems, StrictFields, StringAt, SkipWs, ParseToken;
    var b := SkipWs(t, q + 1);
    SpaceSource(t, q + 1);
    if b < |t| && t[b] == ']' {
      s := ArrayOf(t[q + 1..b], []);
      EmptyArraySource(t, opt, q, b, n, d);
    } else {
      ItemsBehindSpace(t, opt, q + 1, n, d, []);
      var items, values := ItemsSource(t, opt, q + 1, n, d, []);
      var r := StrictItems(t, opt, q + 1, n, d, []);
      s := ArrayOf("", items);
      assert [] + values == values;
      FullArraySource(t, opt, q, r.pos, n, r.nodes, d, items, values);
    }
  }

  lemma EmptyArray(space: string, opt: ParseOptions, levels: nat)
    requires Space(space)
    ensures var s := ArrayOf(space, []);
            && TextOf(s) == ['['] + (space + "]") && Legal(s, opt) && Nested(s, levels) && Count(s) == 1 && Meaning(s, opt) == Array([])
  {
    var none: seq<Item> := [];
    assert CountItems(none, 0) == 0 && FirstItems(none, 0, opt) == [];
  }

  lemma EmptyArraySource(t: string, opt: ParseOptions, q: nat, b: nat, n: nat, d: nat)
    requires q < b < |t| && t[q] == '[' && t[b] == ']' && Space(t[q + 1..b]) && 0 < n <= opt.maxNodes && d <= opt.maxDepth
    ensures IsSource(t, opt, q, b + 1, n - 1, n, d, ArrayOf(t[q + 1..b], []), Array([]))
  {
    assert t[b..b + 1] == "]" && t[q..q + 1] == ['['];
    GlueTwo(t, q + 1, b, b + 1, t[q + 1..b], "]");
    GlueTwo(t, q, q + 1, b + 1, ['['], t[q + 1..b] + "]");
    EmptyArray(t[q + 1..b], opt, opt.maxDepth - d);
  }

  lemma FullArraySource(t: string, opt: ParseOptions, q: nat, e: nat, n: nat, m: nat, d: nat, items: seq<Item>, values: seq<Value>)
    requires q < |t| && t[q] == '[' && n > 0 && AreItems(t, opt, q + 1, e, n, m, d, items, values)
    ensures IsSource(t, opt, q, e, n - 1, m, d, ArrayOf("", items), Array(values))
  {
    hide ItemsText, CountItems, FirstItems, LegalItem;
    assert t[q..q + 1] == ['['];
    GlueTwo(t, q, q + 1, e, ['['], ItemsText(items, 0));
  }

  // ---- Objects --------------------------------------------------------------------------------

  ghost predicate AreMembers(t: string, opt: ParseOptions, p: nat, e: nat, n: nat, m: nat, d: nat, members: seq<Member>,
                             read: seq<Field>, fields: seq<Field>) {
    && p <= e <= |t| && members != [] && t[p..e] == MembersText(members, 0) && d + 1 <= opt.maxDepth
    && (forall i :: 0 <= i < |members| ==> LegalMember(members[i], opt) && Nested(members[i].value, opt.maxDepth - (d + 1)))
    && m == n + CountMembers(members, 0) <= opt.maxNodes && fields == SetAll(read, members, opt)
  }

  // A key and what stands around it up to the value.
  ghost predicate IsKey(t: string, opt: ParseOptions, p: nat, v: nat, x: Member) {
    && p <= v <= |t| && Space(x.before) && LegalString(x.key, opt) && Space(x.behindKey) && Space(x.behindColon)
    && t[p..v] == x.before + (StringText(x.key) + (x.behindKey + ([':'] + x.behindColon)))
  }

  lemma KeySource(t: string, opt: ParseOptions, p: nat, value: Syntax, after: string) returns (x: Member)
    requires p <= |t| && KeyAt(t, opt, p).Key?
    ensures x.value == value && x.after == after
    ensures var k := KeyAt(t, opt, p); IsKey(t, opt, p, k.pos, x) && k.key == PiecesMeaning(x.key) && SkipWs(t, k.pos) == k.pos
  {
    hide SkipWs, StringAt, StringText, PiecesMeaning, ValidPieces;
    var q := SkipWs(t, p);
    var xs := StringSource(t, opt, q);
    var k := StringAt(t, opt, q + 1, "").pos;
    var colon := SkipWs(t, k);
    var v := SkipWs(t, colon + 1);
    SpaceSource(t, p);
    SpaceSource(t, k);
    SpaceSource(t, colon + 1);
    AlreadySkipped(t, colon + 1);
    x := Member(t[p..q], xs, t[k..colon], t[colon + 1..v], value, after);
    assert t[colon..colon + 1] == [':'];
    GlueTwo(t, colon, colon + 1, v, [':'], x.behindColon);
    GlueTwo(t, k, colon, v, x.behindKey, [':'] + x.behindColon);
    GlueTwo(t, q, k, v, StringText(xs), x.behindKey + ([':'] + x.behindColon));
    GlueTwo(t, p, q, v, x.before, StringText(xs) + (x.behindKey + ([':'] + x.behindColon)));
  }

  lemma KeyThenValue(x: Member, item: string)
    ensures x.before + (StringText(x.key) + (x.behindKey + ([':'] + x.behindColon))) + item ==
            x.before + (StringText(x.key) + (x.behindKey + ([':'] + (x.behindColon + item))))
  {
    hide StringText;
    var a, b, c, d := x.before, StringText(x.key), x.behindKey, x.behindColon;
    assert a + (b + (c + ([':'] + d))) + item == a + (b + (c + ([':'] + d)) + item);
    assert b + (c + ([':'] + d)) + item == b + (c + ([':'] + d) + item);
    assert c + ([':'] + d) + item == c + ([':'] + d + item);
    assert [':'] + d + item == [':'] + (d + item);
  }

  lemma SingleMember(x: Member, read: seq<Field>, opt: ParseOptions)
    requires LegalMember(x, opt)
    ensures MembersText([x], 0) ==
            x.before + (StringText(x.key) + (x.behindKey + ([':'] + (x.behindColon + (TextOf(x.value) + (x.after + (['}'] + "")))))))
    ensures CountMembers([x], 0) == Count(x.value) && forall i :: 0 <= i < |[x]| ==> LegalMember([x][i], opt)
    ensures SetAll(read, [x], opt) == SetField(read, PiecesMeaning(x.key), Meaning(x.value, opt))
  {
    hide TextOf, Meaning, Legal, Count, StringText, SetField, PiecesMeaning, ValidPieces, Space;
    assert CountMembers([x], 1) == 0;
    assert [x][1..] == [];
    assert LegalMember([x][0], opt);
  }

  lemma OneMember(t: string, opt: ParseOptions, p: nat, v: nat, e: nat, n: nat, m: nat, d: nat, x: Member, value: Value, read: seq<Field>)
    requires IsKey(t, opt, p, v, x) && IsSource(t, opt, v, e, n, m, d + 1, x.value, value) && Space(x.after)
    requires e + |x.after| < |t| && t[e..e + |x.after|] == x.after && t[e + |x.after|] == '}'
    ensures AreMembers(t, opt, p, e + |x.after| + 1, n, m, d, [x], read, SetField(read, PiecesMeaning(x.key), value))
  {
    hide TextOf, Meaning, Nested, Legal, StringText, SetField, PiecesMeaning, ValidPieces, IsSource, Count, MembersText, CountMembers, SetAll, Space;
    SourceFits(t, opt, v, e, n, m, d + 1, x.value, value);
    SingleMember(x, read, opt);
    var f := e + |x.after|;
    var item := TextOf(x.value) + (x.after + (['}'] + ""));
    Separated(t, v, e, f, f + 1, TextOf(x.value), x.after, '}', "");
    GlueTwo(t, p, v, f + 1, t[p..v], item);
    KeyThenValue(x, item);
  }

  lemma FirstOfMembers(x: Member, rest: seq<Member>, read: seq<Field>, opt: ParseOptions)
    requires rest != [] && LegalMember(x, opt) && forall i :: 0 <= i < |rest| ==> LegalMember(rest[i], opt)
    ensures var members := [x] + rest;
            && MembersText(members, 0) == x.before + (StringText(x.key) + (x.behindKey + ([':'] + (x.behindColon + (TextOf(x.value) +
                                          (x.after + ([','] + MembersText(rest, 0))))))))
            && CountMembers(members, 0) == Count(x.value) + CountMembers(rest, 0)
            && (forall i :: 0 <= i < |members| ==> LegalMember(members[i], opt))
            && SetAll(read, members, opt) == SetAll(SetField(read, PiecesMeaning(x.key), Meaning(x.value, opt)), rest, opt)
  {
    hide TextOf, Meaning, Legal, Count, StringText, SetField, PiecesMeaning, ValidPieces, Space;
    MembersShift(x, rest, 0);
    CountMembersShift(x, rest, 0);
    assert ([x] + rest)[1..] == rest;
  }

  lemma MoreMembers(t: string, opt: ParseOptions, p: nat, v: nat, e: nat, n: nat, m: nat, d: nat, x: Member, value: Value, read: seq<Field>,
                    rest: seq<Member>, end: nat, k: nat, fields: seq<Field>)
    requires IsKey(t, opt, p, v, x) && IsSource(t, opt, v, e, n, m, d + 1, x.value, value) && Space(x.after)
    requires e + |x.after| < |t| && t[e..e + |x.after|] == x.after && t[e + |x.after|] == ','
    requires AreMembers(t, opt, e + |x.after| + 1, end, m, k, d, rest, SetField(read, PiecesMeaning(x.key), value), fields)
    ensures AreMembers(t, opt, p, end, n, k, d, [x] + rest, read, fields)
  {
    hide TextOf, Meaning, Nested, Legal, StringText, SetField, PiecesMeaning, ValidPieces, IsSource, Count, MembersText, CountMembers, SetAll, Space;
    SourceFits(t, opt, v, e, n, m, d + 1, x.value, value);
    FirstOfMembers(x, rest, read, opt);
    var item := TextOf(x.value) + (x.after + ([','] + MembersText(rest, 0)));
    Separated(t, v, e, e + |x.after|, end, TextOf(x.value), x.after, ',', MembersText(rest, 0));
    GlueTwo(t, p, v, end, t[p..v], item);
    KeyThenValue(x, item);
  }

  lemma {:induction false} MembersSource(t: string, opt: ParseOptions, p: nat, n: nat, d: nat, read: seq<Field>)
    returns (members: seq<Member>, fields: seq<Field>)
    requires p <= |t| && StrictFields(t, opt, p, n, d, read).error == NoError
    ensures var r := StrictFields(t, opt, p, n, d, read);
            r.value == Object(fields) && AreMembers(t, opt, p, r.pos, n, r.nodes, d, members, read, fields)
    decreases |t| - p, 2
  {
    hide StrictChild, KeyAt, SkipWs, IsSource, IsKey, AreMembers, SetField, PiecesMeaning;
    var k := KeyAt(t, opt, p);
    var s, after, e := ChildSource(t, opt, k.pos, n, d, '}');
    var x := KeySource(t, opt, p, s, after);
    var c := StrictChild(t, opt, k.pos, n, d, '}');
    var next := SetField(read, k.key, c.value);
    if c.More? {
      var rest;
      rest, fields := MembersSource(t, opt, c.pos, c.nodes, d, next);
      var r := StrictFields(t, opt, c.pos, c.nodes, d, next);
      MoreMembers(t, opt, p, k.pos, e, n, c.nodes, d, x, c.value, read, rest, r.pos, r.nodes, fields);
      members := [x] + rest;
    } else {
      OneMember(t, opt, p, k.pos, e, n, c.nodes, d, x, c.value, read);
      members, fields := [x], next;
    }
  }

  lemma {:induction false} ObjectSource(t: string, opt: ParseOptions, q: nat, n: nat, d: nat) returns (s: Syntax)
    requires q < |t| && t[q] == '{' && n > 0 && n <= opt.maxNodes && d <= opt.maxDepth
    requires StrictToken(t, opt, q, n, d).error == NoError
    ensures var r := StrictToken(t, opt, q, n, d); IsSource(t, opt, q, r.pos, n - 1, r.nodes, d, s, r.value)
    decreases |t| - q - 1, 3
  {
    hide StrictItems, StrictFields, StringAt, SkipWs, ParseToken;
    var b := SkipWs(t, q + 1);
    SpaceSource(t, q + 1);
    if b < |t| && t[b] == '}' {
      s := ObjectOf(t[q + 1..b], []);
      EmptyObjectSource(t, opt, q, b, n, d);
    } else {
      MembersBehindSpace(t, opt, q + 1, n, d, []);
      var members, fields := MembersSource(t, opt, q + 1, n, d, []);
      var r := StrictFields(t, opt, q + 1, n, d, []);
      s := ObjectOf("", members);
      FullObjectSource(t, opt, q, r.pos, n, r.nodes, d, members, fields);
    }
  }

  lemma EmptyObject(space: string, opt: ParseOptions, levels: nat)
    requires Space(space)
    ensures var s := ObjectOf(space, []);
            && TextOf(s) == ['{'] + (space + "}") && Legal(s, opt) && Nested(s, levels) && Count(s) == 1 && Meaning(s, opt) == Object([])
  {
    var none: seq<Member> := [];
    assert CountMembers(none, 0) == 0 && FirstMembers(none, 0, opt) == [];
  }

  lemma EmptyObjectSource(t: string, opt: ParseOptions, q: nat, b: nat, n: nat, d: nat)
    requires q < b < |t| && t[q] == '{' && t[b] == '}' && Space(t[q + 1..b]) && 0 < n <= opt.maxNodes && d <= opt.maxDepth
    ensures IsSource(t, opt, q, b + 1, n - 1, n, d, ObjectOf(t[q + 1..b], []), Object([]))
  {
    assert t[b..b + 1] == "}" && t[q..q + 1] == ['{'];
    GlueTwo(t, q + 1, b, b + 1, t[q + 1..b], "}");
    GlueTwo(t, q, q + 1, b + 1, ['{'], t[q + 1..b] + "}");
    EmptyObject(t[q + 1..b], opt, opt.maxDepth - d);
  }

  lemma FullObjectSource(t: string, opt: ParseOptions, q: nat, e: nat, n: nat, m: nat, d: nat, members: seq<Member>, fields: seq<Field>)
    requires q < |t| && t[q] == '{' && n > 0 && AreMembers(t, opt, q + 1, e, n, m, d, members, [], fields)
    ensures IsSource(t, opt, q, e, n - 1, m, d, ObjectOf("", members), Object(fields))
  {
    hide MembersText, CountMembers, FirstMembers, LegalMember, SetAll;
    assert t[q..q + 1] == ['{'];
    GlueTwo(t, q, q + 1, e, ['{'], MembersText(members, 0));
    SetAllIsFirst(members, opt);
  }

  // ---- Documents --------------------------------------------------------------------------------

  // Whatever the strict parser accepts is a text in the syntax, and its value is
  // what that text means.
  lemma AcceptedIsSyntax(t: string, opt: ParseOptions) returns (s: Syntax, lead: string, trail: string)
    requires StrictParse(t, opt).Ok()
    ensures t == lead + (TextOf(s) + trail) && Space(lead) && Space(trail) && Fits(s, opt, 0, 0)
    ensures StrictParse(t, opt).value == Meaning(s, opt)
  {
    hide StrictAt, TextOf, Fits, Meaning, Count, SkipWs;
    var r := StrictAt(t, opt, 0, 0, 0);
    s := ValueSource(t, opt, 0, 0, 0);
    var p := SkipWs(t, 0);
    lead, trail := t[0..p], t[r.pos..];
    SpaceSource(t, 0);
    SpaceSource(t, r.pos);
    assert t[r.pos..|t|] == trail;
    GlueTwo(t, p, r.pos, |t|, TextOf(s), trail);
    GlueTwo(t, 0, p, |t|, lead, TextOf(s) + trail);
    assert t[0..|t|] == t;
  }

  // So the texts that are accepted without passing over a string are exactly those in the syntax,
  // within the limits, and each has one meaning however it is taken apart.
  lemma LanguageOfTheParser(t: string, opt: ParseOptions)
    ensures StrictParse(t, opt).Ok() <==>
              exists s, lead, trail :: t == lead + (TextOf(s) + trail) && Space(lead) && Space(trail) && Fits(s, opt, 0, 0)
    ensures forall s, lead, trail :: t == lead + (TextOf(s) + trail) && Space(lead) && Space(trail) && Fits(s, opt, 0, 0) ==>
              StrictParse(t, opt) == Parse(t, opt) == ParseResult(Meaning(s, opt), NoError, |t|, "")
  {
    hide StrictAt, Parse, TextOf, Nested, Count, Legal, Meaning, Space;
    if StrictParse(t, opt).Ok() {
      var s, lead, trail := AcceptedIsSyntax(t, opt);
    }
    forall s, lead, trail | t == lead + (TextOf(s) + trail) && Space(lead) && Space(trail) && Fits(s, opt, 0, 0)
      ensures StrictParse(t, opt) == Parse(t, opt) == ParseResult(Meaning(s, opt), NoError, |t|, "")
    {
      SyntaxIsRead(s, opt, lead, trail);
    }
  }

  lemma ZeroOne(n: Numeric)
    requires n == Numeric(false, "01", false, "", NoExponent)
    ensures ValidNumeric(n) && IsWhole(n) && NumericText(n) == "01"
    ensures IsNumeral(10, "01") && ValueOf(10, "01") == 1
  {
    assert "01"[..1] == "0" && "0"[..0] == "";
  }

  lemma LeadingZero(opt: ParseOptions)
    requires opt.maxNodes > 0
    ensures Parse("01", opt) == ParseResult(Uint(1), NoError, 2, "")
  {
    hide Parse, StrictParse, NumericText, ValidNumeric, ValueOf, IsNumeral, NumericValue;
    var n := Numeric(false, "01", false, "", NoExponent);
    ZeroOne(n);
    NumericValueIs(n);
    SyntaxIsRead(NumberWord(n), opt, "", "");
    assert "" + ("01" + "") == "01";
  }

  lemma NothingBehindThePoint(opt: ParseOptions)
    requires opt.maxNodes > 0
    ensures Parse("1.", opt) == ParseResult(Double(Finite(false, 1.0)), NoError, 2, "")
  {
    hide Parse;
    var n := Numeric(false, "1", true, "", NoExponent);
    NumberTextIsRead(n, opt);
    assert NumericText(n) == "1." && "1" + "" == "1" && "1"[..0] == "";
    var size: real :| Denotes(n, size) &&
      Parse("1.", opt) == ParseResult(Double(if size < OVERFLOW then Finite(false, size) else Infinite(false)), NoError, 2, "");
    assert size == 1.0;
  }

  lemma NothingBeforeThePoint(opt: ParseOptions)
    requires opt.maxNodes > 0
    ensures Parse("-.5", opt) == ParseResult(Double(Finite(true, 0.5)), NoError, 3, "")
  {
    hide Parse;
    var n := Numeric(true, "", true, "5", NoExponent);
    NumberTextIsRead(n, opt);
    assert NumericText(n) == "-.5" && "" + "5" == "5" && "5"[..0] == "";
    var size: real :| Denotes(n, size) &&
      Parse("-.5", opt) == ParseResult(Double(if size < OVERFLOW then Finite(true, size) else Infinite(true)), NoError, 3, "");
    assert size == 0.5;
  }

  lemma BareNewline(opt: ParseOptions)
    requires opt.maxNodes > 0 && opt.maxStringBytes > 0
    ensures Parse("\"\n\"", opt) == ParseResult(String("\n"), NoError, 3, "")
  {
    hide Parse;
    var xs := [Raw('\n')];
    assert xs[1..] == [] && PiecesText(xs) == "\n" && PiecesMeaning(xs) == "\n" && StringText(xs) == "\"\n\"";
    SyntaxIsRead(StringWord(xs), opt, "", "");
    assert "" + ("\"\n\"" + "") == "\"\n\"";
  }

  // The syntax is wider than sections 6 and 7 of RFC 8259 in three points: leading zeros, a point
  // without digits on one side, and control characters as they are.
  lemma WiderThanTheStandard(opt: ParseOptions)
    requires opt.maxNodes > 0 && opt.maxStringBytes > 0
    ensures Parse("01", opt) == ParseResult(Uint(1), NoError, 2, "")
    ensures Parse("1.", opt) == ParseResult(Double(Finite(false, 1.0)), NoError, 2, "")
    ensures Parse("-.5", opt) == ParseResult(Double(Finite(true, 0.5)), NoError, 3, "")
    ensures Parse("\"\n\"", opt) == ParseResult(String("\n"), NoError, 3, "")
  {
    hide Parse;
    LeadingZero(opt);
    NothingBehindThePoint(opt);
    NothingBeforeThePoint(opt);
    BareNewline(opt);
  }
}
