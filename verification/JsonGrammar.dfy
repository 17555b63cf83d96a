// What the bounded JSON parser reads at a position of a text: strings, numbers, values and
// whole documents, with the errors and where they are found.

module JsonGrammar {
  import opened Types
  import opened Text
  import opened Doubles
  import opened JsonValues

  datatype ParseError =
    | NoError | UnexpectedChar | UnexpectedEnd | TrailGarbage | DepthExceeded | SizeExceeded
    | InvalidNumber | InvalidEscape | InvalidUtf8

  datatype ParseOptions = ParseOptions(maxDepth: nat, maxNodes: nat, maxStringBytes: nat, allowNanInf: bool)

  const DEFAULT_OPTIONS := ParseOptions(128, 0x40_0000, 0x100_0000, false)

  // ---- Characters -------------------------------------------------------------------

  predicate IsWs(c: char) {
    c == ' ' || c == '\t' || c == '\n' || c == '\r'
  }

  predicate IsDigit(c: char) {
    '0' <= c <= '9'
  }

  function SkipWs(t: string, p: nat): (q: nat)
    requires p <= |t|
    ensures p <= q <= |t|
    ensures forall i :: p <= i < q ==> IsWs(t[i])
    ensures q < |t| ==> !IsWs(t[q])
    decreases |t| - p
  {
    if p < |t| && IsWs(t[p]) then SkipWs(t, p + 1) else p
  }

  function DigitsEnd(t: string, p: nat): (q: nat)
    requires p <= |t|
    ensures p <= q <= |t|
    ensures forall i :: p <= i < q ==> IsDigit(t[i])
    ensures q < |t| ==> !IsDigit(t[q])
    decreases |t| - p
  {
    if p < |t| && IsDigit(t[p]) then DigitsEnd(t, p + 1) else p
  }

  predicate StartsAt(t: string, p: nat, word: string) {
    p + |word| <= |t| && t[p..p + |word|] == word
  }

  // ---- Strings ------------------------------------------------------------------------

  const BACKSPACE: char := '\U{8}'
  const FORM_FEED: char := '\U{C}'

  function Unescape(e: char): Option<char> {
    if e == '\"' || e == '\\' || e == '/' then Some(e)
    else if e == 'b' then Some(BACKSPACE)
    else if e == 'f' then Some(FORM_FEED)
    else if e == 'n' then Some('\n')
    else if e == 'r' then Some('\r')
    else if e == 't' then Some('\t')
    else None
  }

  // The value of four hexadecimal digits.
  function Hex4(t: string, p: nat): (r: Option<nat>)
    requires p + 4 <= |t|
    ensures r.Some? ==> r.value < 0x1_0000
  {
    if IsNumeral(16, t[p..p + 4]) then
      assert ValueOf(16, t[p..p + 4]) < 0x1_0000 by {
        ValueBound(16, t[p..p + 4]);
        assert Power(16, 4) == 0x1_0000;
      }
      Some(ValueOf(16, t[p..p + 4]))
    else None
  }

  // The bytes of a code point.
  function Utf8(cp: nat): string
    requires cp < 0x1_0000
  {
    if cp <= 0x7f then [cp as char]
    else if cp <= 0x7ff then [(0xc0 + cp / 0x40) as char, (0x80 + cp % 0x40) as char]
    else [(0xe0 + cp / 0x1000) as char, (0x80 + cp / 0x40 % 0x40) as char, (0x80 + cp % 0x40) as char]
  }

  datatype StringScan = StringScan(ok: bool, s: string, pos: nat)

  // Reads a string literal from behind its opening quote. A failed scan stays where it failed.
  function StringAt(t: string, opt: ParseOptions, p: nat, buf: string): (r: StringScan)
    requires p <= |t|
    ensures p <= r.pos <= |t|
    ensures r.ok ==> p < r.pos && (|buf| <= opt.maxStringBytes ==> |r.s| <= opt.maxStringBytes)
    decreases |t| - p, 0
  {
    if p == |t| then StringScan(false, "", p)
    else if t[p] == '\"' then StringScan(true, buf, p + 1)
    else if t[p] == '\\' then
      if p + 1 == |t| then StringScan(false, "", p + 1)
      else if t[p + 1] == 'u' then
        if p + 6 > |t| || Hex4(t, p + 2).None? then StringScan(false, "", p + 1)
        else Accumulate(t, opt, p + 6, buf + Utf8(Hex4(t, p + 2).value))
      else
        match Unescape(t[p + 1])
        case None => StringScan(false, "", p + 1)
        case Some(c) => Accumulate(t, opt, p + 2, buf + [c])
    else if t[p] as int >= 0x80 then StringScan(false, "", p)
    else Accumulate(t, opt, p + 1, buf + [t[p]])
  }

  function Accumulate(t: string, opt: ParseOptions, p: nat, buf: string): (r: StringScan)
    requires p <= |t|
    ensures p <= r.pos <= |t|
    ensures r.ok ==> p < r.pos && |r.s| <= opt.maxStringBytes
    decreases |t| - p, 1
  {
    if |buf| > opt.maxStringBytes then StringScan(false, "", p) else StringAt(t, opt, p, buf)
  }

  // ---- Numbers ------------------------------------------------------------------------

  const MAX_INT64: nat := 0x7fff_ffff_ffff_ffff

  function BehindSign(t: string, p: nat): nat {
    if p < |t| && t[p] == '-' then p + 1 else p
  }

  function FractionEnd(t: string, p: nat): (q: nat)
    requires p <= |t|
    ensures p <= q <= |t|
  {
    if p < |t| && t[p] == '.' then DigitsEnd(t, p + 1) else p
  }

  function ExponentEnd(t: string, p: nat): (q: nat)
    requires p <= |t|
    ensures p <= q <= |t|
  {
    if p < |t| && (t[p] == 'e' || t[p] == 'E')
    then DigitsEnd(t, if p + 1 < |t| && (t[p + 1] == '+' || t[p + 1] == '-') then p + 2 else p + 1)
    else p
  }

  // The whole token reads as a decimal: its mantissa has a digit, and so has its exponent if any.
  predicate ReadsAsDecimal(tok: string) {
    var start := BehindSign(tok, 0);
    var whole := DigitsEnd(tok, start);
    var mantissa := FractionEnd(tok, whole);
    && (start < whole || whole + 1 < mantissa)
    && (mantissa == |tok| || (ExponentEnd(tok, mantissa) == |tok| && IsDigit(tok[|tok| - 1])))
  }

  predicate ReadsAsInteger(tok: string) {
    BehindSign(tok, 0) < |tok| && IsNumeral(10, tok[BehindSign(tok, 0)..])
  }

  function IntegerOf(tok: string): Value
    requires ReadsAsInteger(tok)
  {
    WholeNumber(tok[0] == '-', ValueOf(10, tok[BehindSign(tok, 0)..]))
  }

  // Saturated to 64 bits; without a sign it is unsigned.
  function WholeNumber(negative: bool, n: nat): Value {
    var i: int := n;
    if negative then Int(if i > MAX_INT64 + 1 then -(MAX_INT64 + 1) else -i)
    else Uint(if n > MAX_INT64 then MAX_INT64 else n)
  }

  // n times ten to the e.
  function Scaled(n: nat, e: int): (r: real)
    ensures r >= 0.0
  {
    PowerIsPositive(if e < 0 then -e else e);
    if e >= 0 then n as real * Power(10, e) as real else n as real / Power(10, -e) as real
  }

  // The exponent that starts at p and takes up the rest of the token, if there is any.
  function ExponentAt(tok: string, p: nat): int
    requires p <= |tok| && ExponentEnd(tok, p) == |tok|
  {
    if p == |tok| then 0
    else
      var q := if p + 1 < |tok| && (tok[p + 1] == '+' || tok[p + 1] == '-') then p + 2 else p + 1;
      DigitsAreNumeral(tok[q..]);
      var e: int := ValueOf(10, tok[q..]);
      if p + 1 < |tok| && tok[p + 1] == '-' then -e else e
  }

  // The number a decimal token denotes, without its sign.
  function DecimalSize(tok: string): (r: real)
    requires ReadsAsDecimal(tok)
    ensures r >= 0.0
  {
    var start := BehindSign(tok, 0);
    var whole := DigitsEnd(tok, start);
    var mantissa := FractionEnd(tok, whole);
    var fraction := if mantissa == whole then "" else tok[whole + 1..mantissa];
    assert AllDigits(tok[start..whole]) && AllDigits(fraction);
    DigitsAreNumeral(tok[start..whole] + fraction);
    Scaled(ValueOf(10, tok[start..whole] + fraction), ExponentAt(tok, mantissa) - |fraction|)
  }

  function DecimalOf(tok: string): Float64
    requires ReadsAsDecimal(tok)
  {
    if DecimalSize(tok) < OVERFLOW then Finite(tok[0] == '-', DecimalSize(tok)) else Infinite(tok[0] == '-')
  }

  datatype NumberScan = NumberScan(error: ParseError, value: Value, pos: nat)

  function SpecialNumber(t: string, opt: ParseOptions, p: nat): NumberScan {
    if StartsAt(t, p, "NaN") || StartsAt(t, p, "nan") then
      if opt.allowNanInf then NumberScan(NoError, Double(NotANumber), p + 3) else NumberScan(InvalidNumber, Null, p + 3)
    else if StartsAt(t, p, "Inf") || StartsAt(t, p, "inf") then
      if opt.allowNanInf then NumberScan(NoError, Double(Infinite(false)), p + 3) else NumberScan(InvalidNumber, Null, p + 3)
    else NumberScan(InvalidNumber, Null, p)
  }

  function NumberAt(t: string, opt: ParseOptions, p: nat): (r: NumberScan)
    requires p < |t|
    ensures p <= r.pos <= |t|
    ensures r.error == NoError ==> p < r.pos
  {
    if t[p] == '+' || t[p] == 'I' || t[p] == 'N' then SpecialNumber(t, opt, p)
    else
      var whole := DigitsEnd(t, BehindSign(t, p));
      var mantissa := FractionEnd(t, whole);
      var end := ExponentEnd(t, mantissa);
      var tok := t[p..end];
      if end == p then NumberScan(InvalidNumber, Null, end)
      else if end > whole then
        if ReadsAsDecimal(tok) then NumberScan(NoError, Double(DecimalOf(tok)), end) else NumberScan(InvalidNumber, Null, end)
      else if ReadsAsInteger(tok) then NumberScan(NoError, IntegerOf(tok), end)
      else NumberScan(InvalidNumber, Null, end)
  }

  // ---- Values -------------------------------------------------------------------------

  // The outcome of reading one value: the error or the value, the position reached and the
  // number of values begun so far.
  datatype Parsed = Parsed(error: ParseError, value: Value, pos: nat, nodes: nat)

  predicate StartsNumber(c: char) {
    c == '-' || IsDigit(c) || c == '+' || c == 'I' || c == 'N'
  }

  function WordAt(t: string, p: nat, word: string, v: Value, n: nat): Parsed {
    if StartsAt(t, p, word) then Parsed(NoError, v, p + |word|, n) else Parsed(UnexpectedChar, Null, p, n)
  }

  function ParseAt(t: string, opt: ParseOptions, p: nat, n: nat, depth: nat): (r: Parsed)
    requires p <= |t|
    ensures p <= r.pos <= |t|
    ensures r.error == NoError ==> p < r.pos
    decreases |t| - p, 0
  {
    if depth > opt.maxDepth then Parsed(DepthExceeded, Null, p, n)
    else if n + 1 > opt.maxNodes then Parsed(SizeExceeded, Null, p, n + 1)
    else
      var q := SkipWs(t, p);
      if q == |t| then Parsed(UnexpectedEnd, Null, q, n + 1) else ParseToken(t, opt, q, n + 1, depth)
  }

  // A string that does not scan leaves the value null without an error.
  function ParseToken(t: string, opt: ParseOptions, q: nat, n: nat, depth: nat): (r: Parsed)
    requires q < |t|
    ensures q <= r.pos <= |t|
    ensures r.error == NoError ==> q < r.pos
    decreases |t| - q - 1, 3
  {
    var c := t[q];
    if c == '{' then
      var s := SkipWs(t, q + 1);
      if s < |t| && t[s] == '}' then Parsed(NoError, Object([]), s + 1, n) else ParseFields(t, opt, s, n, depth, [])
    else if c == '[' then
      var s := SkipWs(t, q + 1);
      if s < |t| && t[s] == ']' then Parsed(NoError, Array([]), s + 1, n) else ParseItems(t, opt, s, n, depth, [])
    else if c == '\"' then
      var r := StringAt(t, opt, q + 1, "");
      Parsed(NoError, if r.ok then String(r.s) else Null, r.pos, n)
    else if c == 't' then WordAt(t, q, "true", Bool(true), n)
    else if c == 'f' then WordAt(t, q, "false", Bool(false), n)
    else if c == 'n' then WordAt(t, q, "null", Null, n)
    else if StartsNumber(c) then
      var r := NumberAt(t, opt, q);
      Parsed(r.error, r.value, r.pos, n)
    else Parsed(UnexpectedChar, Null, q, n)
  }

  // One child of an array or object: another follows, it was the last, or it was no child.
  datatype ChildScan =
    | More(value: Value, pos: nat, nodes: nat)
    | Last(value: Value, pos: nat, nodes: nat)
    | NoChild(error: ParseError, pos: nat, nodes: nat)

  // A value and the comma or closing character behind it.
  function ChildAt(t: string, opt: ParseOptions, p: nat, n: nat, depth: nat, close: char): (c: ChildScan)
    requires p <= |t|
    ensures p <= c.pos <= |t|
    ensures !c.NoChild? ==> p < c.pos
    ensures c.NoChild? ==> c.error != NoError
    decreases |t| - p, 1
  {
    var r := ParseAt(t, opt, p, n, depth + 1);
    if r.error != NoError then NoChild(r.error, r.pos, r.nodes)
    else
      var s := SkipWs(t, r.pos);
      if s == |t| then NoChild(UnexpectedEnd, s, r.nodes)
      else if t[s] == ',' then More(r.value, s + 1, r.nodes)
      else if t[s] == close then Last(r.value, s + 1, r.nodes)
      else NoChild(UnexpectedChar, s, r.nodes)
  }

  // Items up to the closing bracket, behind those already read.
  function ParseItems(t: string, opt: ParseOptions, p: nat, n: nat, depth: nat, read: seq<Value>): (r: Parsed)
    requires p <= |t|
    ensures p <= r.pos <= |t|
    ensures r.error == NoError ==> p < r.pos
    decreases |t| - p, 2
  {
    var q := SkipWs(t, p);
    if q == |t| then Parsed(UnexpectedEnd, Null, q, n)
    else
      match ChildAt(t, opt, q, n, depth, ']')
      case More(v, s, m) => ParseItems(t, opt, s, m, depth, read + [v])
      case Last(v, s, m) => Parsed(NoError, Array(read + [v]), s, m)
      case NoChild(e, s, m) => Parsed(e, Null, s, m)
  }

  datatype KeyScan = Key(key: string, pos: nat) | BadKey(pos: nat) | NotAKey(pos: nat)

  // A key and the colon behind it.
  function KeyAt(t: string, opt: ParseOptions, p: nat): (k: KeyScan)
    requires p <= |t|
    ensures p <= k.pos <= |t|
    ensures !k.NotAKey? ==> p < k.pos
  {
    var q := SkipWs(t, p);
    if q == |t| || t[q] != '\"' then NotAKey(q)
    else
      var k := StringAt(t, opt, q + 1, "");
      if !k.ok then BadKey(k.pos)
      else
        var colon := SkipWs(t, k.pos);
        if colon == |t| || t[colon] != ':' then NotAKey(colon) else Key(k.s, SkipWs(t, colon + 1))
  }

  // Fields up to the closing brace. A key that does not scan ends the object as null, again
  // without an error.
  function ParseFields(t: string, opt: ParseOptions, p: nat, n: nat, depth: nat, read: seq<Field>): (r: Parsed)
    requires p <= |t|
    ensures p <= r.pos <= |t|
    ensures r.error == NoError ==> p < r.pos
    decreases |t| - p, 2
  {
    match KeyAt(t, opt, p)
    case NotAKey(q) => Parsed(UnexpectedChar, Null, q, n)
    case BadKey(q) => Parsed(NoError, Null, q, n)
    case Key(k, q) =>
      match ChildAt(t, opt, q, n, depth, '}')
      case More(v, s, m) => ParseFields(t, opt, s, m, depth, SetField(read, k, v))
      case Last(v, s, m) => Parsed(NoError, Object(SetField(read, k, v)), s, m)
      case NoChild(e, s, m) => Parsed(e, Null, s, m)
  }

  datatype ParseResult = ParseResult(value: Value, error: ParseError, consumed: nat, message: string) {
    predicate Ok() { error == NoError }
  }

  // A text holds one value and nothing behind it but white space.
  function Parse(t: string, opt: ParseOptions): ParseResult {
    var r := ParseAt(t, opt, 0, 0, 0);
    if r.error != NoError then ParseResult(Null, r.error, r.pos, "")
    else
      var end := SkipWs(t, r.pos);
      if end != |t| then ParseResult(Null, TrailGarbage, end, "trailing garbage after JSON value")
      else ParseResult(r.value, NoError, end, "")
  }
}
