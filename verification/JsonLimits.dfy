// What every accepted text is guaranteed to be.

module JsonLimits {
  import opened Types
  import opened JsonValues
  import opened JsonGrammar

  // Strings and keys are within the string bound.
  ghost predicate StringsFit(v: Value, limit: nat) {
    match v
    case String(s) => |s| <= limit
    case Array(a) => forall i :: 0 <= i < |a| ==> StringsFit(a[i], limit)
    case Object(fs) => forall i :: 0 <= i < |fs| ==> |fs[i].key| <= limit && StringsFit(fs[i].value, limit)
    case _ => true
  }

  // No byte from 0x80 on.
  ghost predicate Ascii(t: string, p: nat, q: nat)
    requires q <= |t|
  {
    forall i :: p <= i < q ==> t[i] as int < 0x80
  }

  // A value that may stand at the given depth.
  ghost predicate Within(v: Value, opt: ParseOptions, depth: nat) {
    depth <= opt.maxDepth && NestsWithin(v, opt.maxDepth - depth) && WellFormed(v) && StringsFit(v, opt.maxStringBytes)
  }

  lemma {:induction false} ItemsSizeAppend(a: seq<Value>, v: Value, i: nat)
    requires i <= |a|
    ensures ItemsSize(a + [v], i) == ItemsSize(a, i) + Size(v)
    decreases |a| - i
  {
    if i < |a| {
      ItemsSizeAppend(a, v, i + 1);
    } else {
      assert ItemsSize(a + [v], i + 1) == 0;
    }
  }

  lemma {:induction false} FieldsSizeTail(fs: seq<Field>, f: Field, i: nat)
    requires i <= |fs|
    ensures FieldsSize([f] + fs, i + 1) == FieldsSize(fs, i)
    decreases |fs| - i
  {
    if i < |fs| {
      assert ([f] + fs)[i + 1] == fs[i];
      FieldsSizeTail(fs, f, i + 1);
    }
  }

  lemma FieldsSizeCons(fs: seq<Field>, f: Field)
    ensures FieldsSize([f] + fs, 0) == Size(f.value) + FieldsSize(fs, 0)
  {
    FieldsSizeTail(fs, f, 0);
  }

  // Overwriting forgets the old value, so sizes can only shrink below the sum.
  lemma {:induction false} SetFieldSize(fs: seq<Field>, k: string, v: Value)
    ensures FieldsSize(SetField(fs, k, v), 0) <= FieldsSize(fs, 0) + Size(v)
  {
    hide FieldsSize;
    if fs == [] {
      FieldsSizeCons([], Field(k, v));
      assert [Field(k, v)] + [] == [Field(k, v)];
    } else {
      assert [fs[0]] + fs[1..] == fs;
      FieldsSizeCons(fs[1..], fs[0]);
      FieldsSizeCons(fs[1..], Field(k, v));
      FieldsSizeCons(fs, Field(k, v));
      FieldsSizeCons(SetField(fs[1..], k, v), fs[0]);
      SetFieldSize(fs[1..], k, v);
    }
  }

  // ---- Reading stays within the limits -----------------------------------------------------

  lemma {:induction false} ParseAtWithin(t: string, opt: ParseOptions, p: nat, n: nat, depth: nat)
    requires p <= |t|
    ensures var r := ParseAt(t, opt, p, n, depth);
            && r.error !in {InvalidEscape, InvalidUtf8, TrailGarbage} && n <= r.nodes
            && (r.error == NoError ==> Ascii(t, p, r.pos) && Within(r.value, opt, depth) && r.nodes <= opt.maxNodes && n + Size(r.value) <= r.nodes)
    decreases |t| - p, 0
  {
    hide Within, Size, ParseToken;
    if depth <= opt.maxDepth && n + 1 <= opt.maxNodes {
      var q := SkipWs(t, p);
      if q < |t| {
        ParseTokenWithin(t, opt, q, n + 1, depth);
      }
    }
  }

  lemma {:induction false} ParseTokenWithin(t: string, opt: ParseOptions, q: nat, n: nat, depth: nat)
    requires q < |t| && depth <= opt.maxDepth && n <= opt.maxNodes
    ensures var r := ParseToken(t, opt, q, n, depth);
            && r.error !in {InvalidEscape, InvalidUtf8, TrailGarbage} && n <= r.nodes
            && (r.error == NoError ==> Ascii(t, q, r.pos) && Within(r.value, opt, depth) && r.nodes <= opt.maxNodes && n + Size(r.value) <= r.nodes + 1)
    decreases |t| - q - 1, 3
  {
    hide ParseItems, ParseFields, SkipWs, NumberAt, StringAt;
    var c := t[q];
    if c == '{' {
      var s := SkipWs(t, q + 1);
      if !(s < |t| && t[s] == '}') {
        ParseFieldsWithin(t, opt, s, n, depth, []);
      }
    } else if c == '[' {
      var s := SkipWs(t, q + 1);
      if !(s < |t| && t[s] == ']') {
        ParseItemsWithin(t, opt, s, n, depth, []);
      }
    } else {
      ScalarWithin(t, opt, q, n, depth);
    }
  }

  lemma ScalarWithin(t: string, opt: ParseOptions, q: nat, n: nat, depth: nat)
    requires q < |t| && depth <= opt.maxDepth && n <= opt.maxNodes && t[q] != '{' && t[q] != '['
    ensures var r := ParseToken(t, opt, q, n, depth);
            && r.error !in {InvalidEscape, InvalidUtf8, TrailGarbage} && r.nodes == n
            && (r.error == NoError ==> Ascii(t, q, r.pos) && Within(r.value, opt, depth) && Size(r.value) == 1)
  {
    hide ParseItems, ParseFields, SkipWs, NumberAt, StringAt;
    NumberIsScalar(t, opt, q);
    StringIsAscii(t, opt, q + 1, "");
    forall word | word in {"true", "false", "null"} && StartsAt(t, q, word)
      ensures Ascii(t, q, q + |word|)
    {
      WordIsAscii(t, q, word);
    }
  }

  // Even a string that does not scan stops before the first byte from 0x80 on.
  lemma {:induction false} StringIsAscii(t: string, opt: ParseOptions, p: nat, buf: string)
    requires p <= |t|
    ensures Ascii(t, p, StringAt(t, opt, p, buf).pos)
    decreases |t| - p
  {
    hide Utf8;
    if p < |t| && t[p] != '\"' {
      if t[p] == '\\' {
        if p + 1 < |t| {
          if t[p + 1] == 'u' {
            if p + 6 <= |t| && Hex4(t, p + 2).Some? {
              HexIsAscii(t, p + 2);
              StringIsAscii(t, opt, p + 6, buf + Utf8(Hex4(t, p + 2).value));
            }
          } else if Unescape(t[p + 1]).Some? {
            StringIsAscii(t, opt, p + 2, buf + [Unescape(t[p + 1]).value]);
          }
        }
      } else if t[p] as int < 0x80 {
        StringIsAscii(t, opt, p + 1, buf + [t[p]]);
      }
    }
  }

  lemma HexIsAscii(t: string, p: nat)
    requires p + 4 <= |t| && Hex4(t, p).Some?
    ensures Ascii(t, p, p + 4)
  {
    var h := t[p..p + 4];
    assert forall i :: p <= i < p + 4 ==> t[i] == h[i - p] && t[i] in h;
  }

  lemma WordIsAscii(t: string, p: nat, word: string)
    requires StartsAt(t, p, word) && forall c :: c in word ==> c as int < 0x80
    ensures Ascii(t, p, p + |word|)
  {
    assert forall i :: p <= i < p + |word| ==> t[i] == t[p..p + |word|][i - p] && t[i] in word;
  }

  lemma KeyIsAscii(t: string, opt: ParseOptions, p: nat)
    requires p <= |t|
    ensures !KeyAt(t, opt, p).NotAKey? ==> Ascii(t, p, KeyAt(t, opt, p).pos)
  {
    hide StringAt;
    var q := SkipWs(t, p);
    if q < |t| {
      StringIsAscii(t, opt, q + 1, "");
    }
  }

  lemma NumberIsScalar(t: string, opt: ParseOptions, p: nat)
    requires p < |t|
    ensures var r := NumberAt(t, opt, p);
            && (r.error == NoError || r.error == InvalidNumber) && (r.error == NoError ==> Ascii(t, p, r.pos))
            && (r.value.Null? || r.value.Int? || r.value.Uint? || r.value.Double?)
  {
    hide DigitsEnd, FractionEnd, ExponentEnd, ReadsAsDecimal, ReadsAsInteger;
    if t[p] == '+' || t[p] == 'I' || t[p] == 'N' {
      forall word | word in {"NaN", "nan", "Inf", "inf"} && StartsAt(t, p, word)
        ensures Ascii(t, p, p + 3)
      {
        WordIsAscii(t, p, word);
      }
    } else {
      var whole := DigitsEnd(t, BehindSign(t, p));
      DigitsAreAscii(t, BehindSign(t, p));
      TailsAreAscii(t, whole);
      TailsAreAscii(t, FractionEnd(t, whole));
    }
  }

  lemma DigitsAreAscii(t: string, p: nat)
    requires p <= |t|
    ensures Ascii(t, p, DigitsEnd(t, p))
  {
    forall i | p <= i < DigitsEnd(t, p)
      ensures t[i] as int < 0x80
    {
      assert IsDigit(t[i]);
    }
  }

  lemma TailsAreAscii(t: string, p: nat)
    requires p <= |t|
    ensures Ascii(t, p, FractionEnd(t, p)) && Ascii(t, p, ExponentEnd(t, p))
  {
    if p < |t| && t[p] == '.' {
      DigitsAreAscii(t, p + 1);
      Prepend(t, p, DigitsEnd(t, p + 1));
    } else if p < |t| && (t[p] == 'e' || t[p] == 'E') {
      if p + 1 < |t| && (t[p + 1] == '+' || t[p + 1] == '-') {
        DigitsAreAscii(t, p + 2);
        Prepend(t, p + 1, DigitsEnd(t, p + 2));
      } else {
        DigitsAreAscii(t, p + 1);
      }
      Prepend(t, p, ExponentEnd(t, p));
    }
  }

  lemma Prepend(t: string, p: nat, q: nat)
    requires p < q <= |t| && t[p] as int < 0x80 && Ascii(t, p + 1, q)
    ensures Ascii(t, p, q)
  {
    forall i | p <= i < q
      ensures t[i] as int < 0x80
    {
      assert i == p || p + 1 <= i;
    }
  }

  lemma {:induction false} ChildWithin(t: string, opt: ParseOptions, p: nat, n: nat, depth: nat, close: char)
    requires p <= |t| && (close == ']' || close == '}')
    ensures var c := ChildAt(t, opt, p, n, depth, close);
            && (c.NoChild? ==> c.error !in {InvalidEscape, InvalidUtf8, TrailGarbage}) && n <= c.nodes
            && (!c.NoChild? ==> Ascii(t, p, c.pos) && Within(c.value, opt, depth + 1) && c.nodes <= opt.maxNodes && n + Size(c.value) <= c.nodes)
    decreases |t| - p, 1
  {
    hide ParseAt, Within, Size, SkipWs;
    ParseAtWithin(t, opt, p, n, depth + 1);
    SpaceIsAscii(t, ParseAt(t, opt, p, n, depth + 1).pos);
  }

  lemma SpaceIsAscii(t: string, p: nat)
    requires p <= |t|
    ensures Ascii(t, p, SkipWs(t, p))
  {
    forall i | p <= i < SkipWs(t, p)
      ensures t[i] as int < 0x80
    {
      assert IsWs(t[i]);
    }
  }

  lemma {:induction false} ParseItemsWithin(t: string, opt: ParseOptions, p: nat, n: nat, depth: nat, read: seq<Value>)
    requires p <= |t| && depth <= opt.maxDepth && n <= opt.maxNodes
    requires forall i :: 0 <= i < |read| ==> Within(read[i], opt, depth + 1)
    ensures var r := ParseItems(t, opt, p, n, depth, read);
            && r.error !in {InvalidEscape, InvalidUtf8, TrailGarbage} && n <= r.nodes
            && (r.error == NoError ==> Ascii(t, p, r.pos) && Within(r.value, opt, depth) && r.nodes <= opt.maxNodes &&
                                       n + Size(r.value) <= r.nodes + 1 + ItemsSize(read, 0))
    decreases |t| - p, 2
  {
    hide ChildAt, SkipWs, NestsWithin, WellFormed, StringsFit, ItemsSize;
    var q := SkipWs(t, p);
    if q < |t| {
      ChildWithin(t, opt, q, n, depth, ']');
      match ChildAt(t, opt, q, n, depth, ']') {
        case More(v, s, m) =>
          ItemsSizeAppend(read, v, 0);
          ParseItemsWithin(t, opt, s, m, depth, read + [v]);
        case Last(v, s, m) =>
          ItemsSizeAppend(read, v, 0);
          ArrayWithin(read + [v], opt, depth);
        case NoChild(_, _, _) =>
      }
    }
  }

  lemma ArrayWithin(a: seq<Value>, opt: ParseOptions, depth: nat)
    requires depth <= opt.maxDepth && forall i :: 0 <= i < |a| ==> Within(a[i], opt, depth + 1)
    ensures Within(Array(a), opt, depth)
  {
    if a != [] {
      assert Within(a[0], opt, depth + 1);
    }
  }

  lemma {:induction false} ParseFieldsWithin(t: string, opt: ParseOptions, p: nat, n: nat, depth: nat, read: seq<Field>)
    requires p <= |t| && depth <= opt.maxDepth && n <= opt.maxNodes
    requires FieldsWithin(read, opt, depth)
    ensures var r := ParseFields(t, opt, p, n, depth, read);
            && r.error !in {InvalidEscape, InvalidUtf8, TrailGarbage} && n <= r.nodes
            && (r.error == NoError ==> Ascii(t, p, r.pos) && Within(r.value, opt, depth) && r.nodes <= opt.maxNodes &&
                                       n + Size(r.value) <= r.nodes + 1 + FieldsSize(read, 0))
    decreases |t| - p, 2
  {
    hide ChildAt, KeyAt, SkipWs, NestsWithin, WellFormed, StringsFit, FieldsWithin, SetField, FieldsSize;
    KeyIsAscii(t, opt, p);
    match KeyAt(t, opt, p) {
      case NotAKey(_) =>
      case BadKey(_) => NullWithin(opt, depth);
      case Key(k, q) =>
        KeyWithin(t, opt, p);
        ChildWithin(t, opt, q, n, depth, '}');
        match ChildAt(t, opt, q, n, depth, '}') {
          case More(v, s, m) =>
            SetFieldSize(read, k, v);
            SetFieldWithin(read, k, v, opt, depth);
            ParseFieldsWithin(t, opt, s, m, depth, SetField(read, k, v));
          case Last(v, s, m) =>
            SetFieldSize(read, k, v);
            SetFieldWithin(read, k, v, opt, depth);
            ObjectWithin(SetField(read, k, v), opt, depth);
          case NoChild(_, _, _) =>
        }
    }
  }

  lemma NullWithin(opt: ParseOptions, depth: nat)
    requires depth <= opt.maxDepth
    ensures Within(Null, opt, depth) && Size(Null) == 1
  {
  }

  lemma KeyWithin(t: string, opt: ParseOptions, p: nat)
    requires p <= |t|
    ensures var k := KeyAt(t, opt, p); k.Key? ==> |k.key| <= opt.maxStringBytes
  {
  }

  ghost predicate FieldsWithin(fs: seq<Field>, opt: ParseOptions, depth: nat) {
    Ascending(fs) && forall i :: 0 <= i < |fs| ==> |fs[i].key| <= opt.maxStringBytes && Within(fs[i].value, opt, depth + 1)
  }

  lemma SetFieldWithin(fs: seq<Field>, k: string, v: Value, opt: ParseOptions, depth: nat)
    requires FieldsWithin(fs, opt, depth) && |k| <= opt.maxStringBytes && Within(v, opt, depth + 1)
    ensures FieldsWithin(SetField(fs, k, v), opt, depth)
  {
    hide Within, Ascending;
    SetFieldAscends(fs, k, v);
    SetFieldOrigin(fs, k, v);
    var z := SetField(fs, k, v);
    forall i | 0 <= i < |z|
      ensures |z[i].key| <= opt.maxStringBytes && Within(z[i].value, opt, depth + 1)
    {
      assert z[i] in z;
    }
  }

  lemma ObjectWithin(fs: seq<Field>, opt: ParseOptions, depth: nat)
    requires depth <= opt.maxDepth && FieldsWithin(fs, opt, depth)
    ensures Within(Object(fs), opt, depth)
  {
    if fs != [] {
      assert Within(fs[0].value, opt, depth + 1);
    }
  }

  // An accepted text was read to its end, and its value nests within the depth limit, counts
  // within the node limit, keeps every string within the string limit and every object in key
  // order. No accepted text has a byte from 0x80 on. The errors reserved for bad strings are never reported.
  lemma AcceptedTextIsWithinLimits(t: string, opt: ParseOptions)
    ensures var r := Parse(t, opt);
            && r.consumed <= |t| && r.error !in {InvalidEscape, InvalidUtf8}
            && (r.Ok() ==> && r.consumed == |t| && Ascii(t, 0, |t|) && NestsWithin(r.value, opt.maxDepth) && Size(r.value) <= opt.maxNodes
                           && StringsFit(r.value, opt.maxStringBytes) && WellFormed(r.value))
  {
    hide ParseAt, NestsWithin, Size, StringsFit, WellFormed;
    ParseAtWithin(t, opt, 0, 0, 0);
  }
}
