// The parser beside a strict one.

module JsonStrict {
  import opened Types
  import opened JsonValues
  import opened JsonGrammar

  // ---- A parser that reports them ---------------------------------------------------------

  function StrictAt(t: string, opt: ParseOptions, p: nat, n: nat, depth: nat): (r: Parsed)
    requires p <= |t|
    ensures p <= r.pos <= |t|
    ensures r.error == NoError ==> p < r.pos
    decreases |t| - p, 0
  {
    if depth > opt.maxDepth then Parsed(DepthExceeded, Null, p, n)
    else if n + 1 > opt.maxNodes then Parsed(SizeExceeded, Null, p, n + 1)
    else
      var q := SkipWs(t, p);
      if q == |t| then Parsed(UnexpectedEnd, Null, q, n + 1) else StrictToken(t, opt, q, n + 1, depth)
  }

  // A string that does not scan is an error where the scan stopped.
  function StrictToken(t: string, opt: ParseOptions, q: nat, n: nat, depth: nat): (r: Parsed)
    requires q < |t|
    ensures q <= r.pos <= |t|
    ensures r.error == NoError ==> q < r.pos
    decreases |t| - q - 1, 3
  {
    var c := t[q];
    if c == '{' then
      var s := SkipWs(t, q + 1);
      if s < |t| && t[s] == '}' then Parsed(NoError, Object([]), s + 1, n) else StrictFields(t, opt, s, n, depth, [])
    else if c == '[' then
      var s := SkipWs(t, q + 1);
      if s < |t| && t[s] == ']' then Parsed(NoError, Array([]), s + 1, n) else StrictItems(t, opt, s, n, depth, [])
    else if c == '\"' && !StringAt(t, opt, q + 1, "").ok then
      Parsed(InvalidEscape, Null, StringAt(t, opt, q + 1, "").pos, n)
    else ParseToken(t, opt, q, n, depth)
  }

  function StrictChild(t: string, opt: ParseOptions, p: nat, n: nat, depth: nat, close: char): (c: ChildScan)
    requires p <= |t|
    ensures p <= c.pos <= |t|
    ensures !c.NoChild? ==> p < c.pos
    ensures c.NoChild? ==> c.error != NoError
    decreases |t| - p, 1
  {
    var r := StrictAt(t, opt, p, n, depth + 1);
    if r.error != NoError then NoChild(r.error, r.pos, r.nodes)
    else
      var s := SkipWs(t, r.pos);
      if s == |t| then NoChild(UnexpectedEnd, s, r.nodes)
      else if t[s] == ',' then More(r.value, s + 1, r.nodes)
      else if t[s] == close then Last(r.value, s + 1, r.nodes)
      else NoChild(UnexpectedChar, s, r.nodes)
  }

  function StrictItems(t: string, opt: ParseOptions, p: nat, n: nat, depth: nat, read: seq<Value>): (r: Parsed)
    requires p <= |t|
    ensures p <= r.pos <= |t|
    ensures r.error == NoError ==> p < r.pos
    decreases |t| - p, 2
  {
    var q := SkipWs(t, p);
    if q == |t| then Parsed(UnexpectedEnd, Null, q, n)
    else
      match StrictChild(t, opt, q, n, depth, ']')
      case More(v, s, m) => StrictItems(t, opt, s, m, depth, read + [v])
      case Last(v, s, m) => Parsed(NoError, Array(read + [v]), s, m)
      case NoChild(e, s, m) => Parsed(e, Null, s, m)
  }

  function StrictFields(t: string, opt: ParseOptions, p: nat, n: nat, depth: nat, read: seq<Field>): (r: Parsed)
    requires p <= |t|
    ensures p <= r.pos <= |t|
    ensures r.error == NoError ==> p < r.pos
    decreases |t| - p, 2
  {
    match KeyAt(t, opt, p)
    case NotAKey(q) => Parsed(UnexpectedChar, Null, q, n)
    case BadKey(q) => Parsed(InvalidEscape, Null, q, n)
    case Key(k, q) =>
      match StrictChild(t, opt, q, n, depth, '}')
      case More(v, s, m) => StrictFields(t, opt, s, m, depth, SetField(read, k, v))
      case Last(v, s, m) => Parsed(NoError, Object(SetField(read, k, v)), s, m)
      case NoChild(e, s, m) => Parsed(e, Null, s, m)
  }

  function StrictParse(t: string, opt: ParseOptions): ParseResult {
    var r := StrictAt(t, opt, 0, 0, 0);
    if r.error != NoError then ParseResult(Null, r.error, r.pos, "")
    else
      var end := SkipWs(t, r.pos);
      if end != |t| then ParseResult(Null, TrailGarbage, end, "trailing garbage after JSON value")
      else ParseResult(r.value, NoError, end, "")
  }

  // ---- Comparison ----------------------------------------------------------------------------

  // The parser does the same unless a string failed; if that string ran to the end of the text,
  // it fails too or ends there with null.
  predicate Follows(t: string, s: Parsed, r: Parsed) {
    && (s.error != InvalidEscape ==> r == s)
    && (s.error == InvalidEscape && s.pos == |t| ==> r.error != NoError || (r.value == Null && r.pos == |t|))
  }

  predicate ChildFollows(t: string, s: ChildScan, r: ChildScan) {
    && (s.NoChild? && s.error == InvalidEscape ==> s.pos == |t| ==> r.NoChild?)
    && (!(s.NoChild? && s.error == InvalidEscape) ==> r == s)
  }

  lemma {:induction false} ValueFollows(t: string, opt: ParseOptions, p: nat, n: nat, depth: nat)
    requires p <= |t|
    ensures Follows(t, StrictAt(t, opt, p, n, depth), ParseAt(t, opt, p, n, depth))
    decreases |t| - p, 0
  {
    hide StrictToken, ParseToken;
    var q := SkipWs(t, p);
    if q < |t| {
      TokenFollows(t, opt, q, n + 1, depth);
    }
  }

  lemma {:induction false} TokenFollows(t: string, opt: ParseOptions, q: nat, n: nat, depth: nat)
    requires q < |t|
    ensures Follows(t, StrictToken(t, opt, q, n, depth), ParseToken(t, opt, q, n, depth))
    decreases |t| - q - 1, 3
  {
    hide StrictFields, ParseFields, StrictItems, ParseItems, StringAt, NumberAt, SkipWs;
    if t[q] == '{' {
      FieldsFollow(t, opt, SkipWs(t, q + 1), n, depth, []);
    } else if t[q] == '[' {
      ItemsFollow(t, opt, SkipWs(t, q + 1), n, depth, []);
    }
  }

  lemma {:induction false} ChildrenFollow(t: string, opt: ParseOptions, p: nat, n: nat, depth: nat, close: char)
    requires p <= |t|
    ensures ChildFollows(t, StrictChild(t, opt, p, n, depth, close), ChildAt(t, opt, p, n, depth, close))
    decreases |t| - p, 1
  {
    hide StrictAt, ParseAt;
    ValueFollows(t, opt, p, n, depth + 1);
  }

  lemma {:induction false} ItemsFollow(t: string, opt: ParseOptions, p: nat, n: nat, depth: nat, read: seq<Value>)
    requires p <= |t|
    ensures Follows(t, StrictItems(t, opt, p, n, depth, read), ParseItems(t, opt, p, n, depth, read))
    decreases |t| - p, 2
  {
    hide StrictChild, ChildAt, SkipWs;
    var q := SkipWs(t, p);
    if q < |t| {
      ChildrenFollow(t, opt, q, n, depth, ']');
      match StrictChild(t, opt, q, n, depth, ']') {
        case More(v, s, m) => ItemsFollow(t, opt, s, m, depth, read + [v]);
        case _ =>
      }
    }
  }

  lemma {:induction false} FieldsFollow(t: string, opt: ParseOptions, p: nat, n: nat, depth: nat, read: seq<Field>)
    requires p <= |t|
    ensures Follows(t, StrictFields(t, opt, p, n, depth, read), ParseFields(t, opt, p, n, depth, read))
    decreases |t| - p, 2
  {
    hide StrictChild, ChildAt, KeyAt, SetField;
    match KeyAt(t, opt, p) {
      case Key(k, q) =>
        ChildrenFollow(t, opt, q, n, depth, '}');
        match StrictChild(t, opt, q, n, depth, '}') {
          case More(v, s, m) => FieldsFollow(t, opt, s, m, depth, SetField(read, k, v));
          case _ =>
        }
      case _ =>
    }
  }

  // For every text: the parser agrees with the strict one unless that one stops at a failed
  // string, and if the string ran to the end of the text, nothing but null is accepted.
  lemma StrictVerdict(t: string, opt: ParseOptions)
    ensures var s, r := StrictParse(t, opt), Parse(t, opt);
            && (s.error != InvalidEscape ==> r == s)
            && (s.error == InvalidEscape && s.consumed == |t| ==> r.Ok() ==> r.value == Null && r.consumed == |t|)
  {
    hide StrictAt, ParseAt;
    ValueFollows(t, opt, 0, 0, 0);
    assert SkipWs(t, |t|) == |t|;
  }

  const BAD_ESCAPE: string := "[\"\\,1]"

  // The child with the bad escape ends before the comma.
  lemma BadChild(opt: ParseOptions)
    requires opt.maxDepth > 0 && opt.maxNodes > 1
    ensures SkipWs(BAD_ESCAPE, 1) == 1 && ChildAt(BAD_ESCAPE, opt, 1, 1, 0, ']') == More(Null, 4, 2)
    ensures StrictAt(BAD_ESCAPE, opt, 1, 1, 1).error == InvalidEscape
  {
    var t := BAD_ESCAPE;
    assert StringAt(t, opt, 2, "") == StringScan(false, "", 3);
    hide StringAt, NumberAt, ParseItems, ParseFields, StrictItems, StrictFields;
    assert ParseAt(t, opt, 1, 1, 1) == Parsed(NoError, Null, 3, 2);
  }

  lemma OneAt(opt: ParseOptions)
    ensures NumberAt(BAD_ESCAPE, opt, 4) == NumberScan(NoError, Uint(1), 5)
  {
    assert BAD_ESCAPE[4..5] == "1" && "1"[0..] == "1" && "1"[..0] == "";
  }

  lemma LastChild(opt: ParseOptions)
    requires opt.maxDepth > 0 && opt.maxNodes > 2
    ensures SkipWs(BAD_ESCAPE, 4) == 4 && ChildAt(BAD_ESCAPE, opt, 4, 2, 0, ']') == Last(Uint(1), 6, 3)
  {
    hide StringAt, NumberAt, ParseItems, ParseFields;
    OneAt(opt);
    assert ParseAt(BAD_ESCAPE, opt, 4, 2, 1) == Parsed(NoError, Uint(1), 5, 3);
  }

  // A string that fails before the end can be passed over: a bad escape reads as null, and its
  // second character goes on as the comma of the array.
  lemma BadEscapeIsPassedOver(opt: ParseOptions)
    requires opt.maxDepth > 0 && opt.maxNodes > 2
    ensures StrictParse(BAD_ESCAPE, opt).error == InvalidEscape
    ensures Parse(BAD_ESCAPE, opt) == ParseResult(Array([Null, Uint(1)]), NoError, |BAD_ESCAPE|, "")
  {
    var t := BAD_ESCAPE;
    BadChild(opt);
    LastChild(opt);
    hide ChildAt, StrictAt, StringAt, NumberAt;
    assert [] + [Null] == [Null] && [Null] + [Uint(1)] == [Null, Uint(1)];
    assert ParseItems(t, opt, 4, 2, 0, [Null]) == Parsed(NoError, Array([Null, Uint(1)]), 6, 3);
    assert ParseItems(t, opt, 1, 1, 0, []) == Parsed(NoError, Array([Null, Uint(1)]), 6, 3);
    StrictFails(opt);
  }

  lemma StrictFails(opt: ParseOptions)
    requires opt.maxDepth > 0 && opt.maxNodes > 2
    ensures StrictAt(BAD_ESCAPE, opt, 0, 0, 0).error == InvalidEscape
  {
    hide StringAt, ParseToken;
    BadChild(opt);
    assert StrictChild(BAD_ESCAPE, opt, 1, 1, 0, ']').NoChild?;
  }
}
