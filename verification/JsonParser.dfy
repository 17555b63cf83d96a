// The bounded recursive-descent parser, proved against what the grammar reads.

module JsonParser {
  import opened Types
  import opened Text
  import opened Doubles
  import opened JsonValues
  import opened JsonGrammar

  class Parser {
    const text: string
    const options: ParseOptions
    var pos: nat
    var nodes: nat
    var err: ParseError

    // The error field is never set: a string that does not scan is reported as no error.
    ghost predicate Valid()
      reads this
    {
      pos <= |text| && err == NoError
    }

    constructor (text: string, options: ParseOptions)
      ensures Valid() && this.text == text && this.options == options && pos == 0 && nodes == 0
    {
      this.text, this.options := text, options;
      pos, nodes, err := 0, 0, NoError;
    }

    method ParseText() returns (r: ParseResult)
      requires Valid() && pos == 0 && nodes == 0
      modifies this
      ensures Valid() && r == Parse(text, options)
    {
      var error, value := ParseValue(0);
      if error != NoError {
        return ParseResult(Null, error, pos, "");
      }
      SkipSpace();
      if pos != |text| {
        return ParseResult(Null, TrailGarbage, pos, "trailing garbage after JSON value");
      }
      r := ParseResult(value, NoError, pos, "");
    }

    method SkipSpace()
      requires Valid()
      modifies this`pos
      ensures Valid() && pos == SkipWs(text, old(pos))
    {
      while pos < |text| && IsWs(text[pos])
        invariant pos <= |text| && SkipWs(text, pos) == SkipWs(text, old(pos))
        decreases |text| - pos
      {
        pos := pos + 1;
      }
    }

    method SkipDigits()
      requires Valid()
      modifies this`pos
      ensures Valid() && pos == DigitsEnd(text, old(pos))
    {
      while pos < |text| && IsDigit(text[pos])
        invariant pos <= |text| && DigitsEnd(text, pos) == DigitsEnd(text, old(pos))
        decreases |text| - pos
      {
        pos := pos + 1;
      }
    }

    method Match(word: string) returns (matched: bool)
      requires Valid()
      modifies this`pos
      ensures Valid()
      ensures matched <==> StartsAt(text, old(pos), word)
      ensures pos == if matched then old(pos) + |word| else old(pos)
    {
      if pos + |word| > |text| {
        return false;
      }
      for i := 0 to |word|
        invariant text[pos..pos + i] == word[..i]
      {
        assert text[pos..pos + i + 1] == text[pos..pos + i] + [text[pos + i]];
        assert word[..i + 1] == word[..i] + [word[i]];
        if text[pos + i] != word[i] {
          assert text[pos..pos + |word|][i] != word[i];
          return false;
        }
      }
      pos := pos + |word|;
      matched := true;
    }

    method ParseValue(depth: nat) returns (error: ParseError, out: Value)
      requires Valid()
      modifies this
      ensures Valid()
      ensures Parsed(error, out, pos, nodes) == ParseAt(text, options, old(pos), old(nodes), depth)
      decreases |text| - pos, 0
    {
      out := Null;
      if depth > options.maxDepth {
        return DepthExceeded, out;
      }
      nodes := nodes + 1;
      if nodes > options.maxNodes {
        return SizeExceeded, out;
      }
      SkipSpace();
      if pos >= |text| {
        return UnexpectedEnd, out;
      }
      error, out := ParseToken(depth);
    }

    method ParseToken(depth: nat) returns (error: ParseError, out: Value)
      requires Valid() && pos < |text|
      modifies this
      ensures Valid()
      ensures Parsed(error, out, pos, nodes) == JsonGrammar.ParseToken(text, options, old(pos), old(nodes), depth)
      decreases |text| - pos - 1, 4
    {
      hide StringAt, NumberAt, ParseItems, ParseFields, SkipWs;
      out := Null;
      var c := text[pos];
      if c == '{' {
        error, out := ParseObject(depth);
      } else if c == '[' {
        error, out := ParseArray(depth);
      } else if c == '\"' {
        var ok, s := ParseString();
        if !ok {
          return err, out;
        }
        return NoError, String(s);
      } else if c == 't' {
        error, out := ParseWord("true", Bool(true));
      } else if c == 'f' {
        error, out := ParseWord("false", Bool(false));
      } else if c == 'n' {
        error, out := ParseWord("null", Null);
      } else if StartsNumber(c) {
        error, out := ParseNumber();
      } else {
        error := UnexpectedChar;
      }
    }

    method ParseWord(word: string, v: Value) returns (error: ParseError, out: Value)
      requires Valid()
      modifies this`pos
      ensures Valid()
      ensures Parsed(error, out, pos, nodes) == WordAt(text, old(pos), word, v, nodes)
    {
      var matched := Match(word);
      if matched {
        return NoError, v;
      }
      return UnexpectedChar, Null;
    }

    method ParseString() returns (ok: bool, out: string)
      requires Valid() && pos < |text| && text[pos] == '\"'
      modifies this`pos
      ensures Valid()
      ensures StringScan(ok, out, pos) == StringAt(text, options, old(pos) + 1, "")
    {
      hide Unescape, Hex4, Utf8;
      pos := pos + 1;
      ok, out := false, "";
      var buf := "";
      while pos < |text|
        invariant pos <= |text|
        invariant StringAt(text, options, pos, buf) == StringAt(text, options, old(pos) + 1, "")
        decreases |text| - pos
      {
        var c := text[pos];
        if c == '\"' {
          pos := pos + 1;
          return true, buf;
        }
        if c == '\\' {
          var escaped;
          escaped, buf := ParseEscape(buf);
          if !escaped {
            return;
          }
        } else {
          if c as int >= 0x80 {
            return;
          }
          pos := pos + 1;
          buf := buf + [c];
        }
        if |buf| > options.maxStringBytes {
          return;
        }
      }
    }

    // Reads one escape and appends what it stands for.
    method ParseEscape(before: string) returns (ok: bool, buf: string)
      requires Valid() && pos < |text| && text[pos] == '\\'
      modifies this`pos
      ensures Valid() && old(pos) < pos
      ensures StringAt(text, options, old(pos), before) ==
              if ok then Accumulate(text, options, pos, buf) else StringScan(false, "", pos)
    {
      hide Hex4, Utf8, Accumulate;
      ok, buf := false, before;
      pos := pos + 1;
      if pos >= |text| {
        return;
      }
      var e := text[pos];
      if e == 'u' {
        if pos + 5 > |text| {
          return;
        }
        var cp := ReadHex4(pos + 1);
        if cp.None? {
          return;
        }
        pos := pos + 5;
        buf := buf + Utf8(cp.value);
      } else {
        var plain := Unescape(e);
        if plain.None? {
          return;
        }
        pos := pos + 1;
        buf := buf + [plain.value];
      }
      ok := true;
    }

    method ReadHex4(at: nat) returns (cp: Option<nat>)
      requires at + 4 <= |text|
      ensures cp == Hex4(text, at)
    {
      ghost var digits := text[at..at + 4];
      var v := 0;
      for i := 0 to 4
        invariant IsNumeral(16, digits[..i]) && v == ValueOf(16, digits[..i])
      {
        var d := DigitValue(text[at + i]);
        assert digits[i] == text[at + i] && digits[i] in digits;
        if d.None? {
          return None;
        }
        assert digits[..i + 1] == digits[..i] + [digits[i]];
        assert digits[..i + 1][..i] == digits[..i];
        v := v * 16 + d.value;
      }
      assert digits[..4] == digits;
      cp := Some(v);
    }

    method ParseNumber() returns (error: ParseError, out: Value)
      requires Valid() && pos < |text|
      modifies this`pos
      ensures Valid()
      ensures NumberScan(error, out, pos) == NumberAt(text, options, old(pos))
    {
      hide DigitsEnd, ReadsAsDecimal, DecimalOf, ReadsAsInteger, IntegerOf, StartsAt, SpecialNumber;
      var start := pos;
      out := Null;
      if text[pos] == '+' || text[pos] == 'I' || text[pos] == 'N' {
        error, out := ParseSpecial();
        return;
      }
      if text[pos] == '-' {
        pos := pos + 1;
      }
      SkipDigits();
      var isDouble := false;
      if pos < |text| && text[pos] == '.' {
        isDouble := true;
        SkipFraction();
      }
      if pos < |text| && (text[pos] == 'e' || text[pos] == 'E') {
        isDouble := true;
        SkipExponent();
      }
      if pos == start {
        return InvalidNumber, Null;
      }
      var tok := text[start..pos];
      if isDouble {
        if !ReadsAsDecimal(tok) {
          return InvalidNumber, Null;
        }
        return NoError, Double(DecimalOf(tok));
      }
      if !ReadsAsInteger(tok) {
        return InvalidNumber, Null;
      }
      return NoError, IntegerOf(tok);
    }

    method SkipFraction()
      requires Valid() && pos < |text| && text[pos] == '.'
      modifies this`pos
      ensures Valid() && old(pos) < pos == FractionEnd(text, old(pos))
    {
      pos := pos + 1;
      SkipDigits();
    }

    method SkipExponent()
      requires Valid() && pos < |text| && (text[pos] == 'e' || text[pos] == 'E')
      modifies this`pos
      ensures Valid() && old(pos) < pos == ExponentEnd(text, old(pos))
    {
      pos := pos + 1;
      if pos < |text| && (text[pos] == '+' || text[pos] == '-') {
        pos := pos + 1;
      }
      SkipDigits();
    }

    method ParseSpecial() returns (error: ParseError, out: Value)
      requires Valid() && pos < |text|
      modifies this`pos
      ensures Valid()
      ensures NumberScan(error, out, pos) == SpecialNumber(text, options, old(pos))
    {
      out := Null;
      var isNan := Match("NaN");
      if !isNan {
        isNan := Match("nan");
      }
      if isNan {
        if options.allowNanInf {
          return NoError, Double(NotANumber);
        }
        return InvalidNumber, out;
      }
      var isInf := Match("Inf");
      if !isInf {
        isInf := Match("inf");
      }
      if isInf {
        if options.allowNanInf {
          return NoError, Double(Infinite(false));
        }
        return InvalidNumber, out;
      }
      error := InvalidNumber;
    }

    method ParseChild(depth: nat, close: char) returns (error: ParseError, child: Value, more: bool)
      requires Valid()
      modifies this
      ensures Valid()
      ensures match ChildAt(text, options, old(pos), old(nodes), depth, close)
              case More(v, p, n) => error == NoError && child == v && more && pos == p && nodes == n
              case Last(v, p, n) => error == NoError && child == v && !more && pos == p && nodes == n
              case NoChild(e, p, n) => error == e && pos == p && nodes == n
      decreases |text| - pos, 1
    {
      hide ParseAt, SkipWs;
      more := false;
      error, child := ParseValue(depth + 1);
      if error != NoError {
        return;
      }
      SkipSpace();
      if pos >= |text| {
        return UnexpectedEnd, child, more;
      }
      if text[pos] == ',' {
        pos := pos + 1;
        more := true;
      } else if text[pos] == close {
        pos := pos + 1;
      } else {
        error := UnexpectedChar;
      }
    }

    method ParseArray(depth: nat) returns (error: ParseError, out: Value)
      requires Valid() && pos < |text| && text[pos] == '['
      modifies this
      ensures Valid()
      ensures Parsed(error, out, pos, nodes) == JsonGrammar.ParseToken(text, options, old(pos), old(nodes), depth)
      decreases |text| - pos - 1, 3
    {
      hide StringAt, NumberAt, ParseFields, ChildAt, SkipWs;
      pos := pos + 1;
      out := Null;
      var items := [];
      SkipSpace();
      if pos < |text| && text[pos] == ']' {
        pos := pos + 1;
        return NoError, Array(items);
      }
      ghost var outcome := JsonGrammar.ParseToken(text, options, old(pos), old(nodes), depth);
      while true
        invariant Valid() && old(pos) < pos
        invariant ParseItems(text, options, pos, nodes, depth, items) == outcome
        decreases |text| - pos
      {
        hide JsonGrammar.ParseToken;
        SkipSpace();
        if pos >= |text| {
          return UnexpectedEnd, Null;
        }
        var child, more;
        error, child, more := ParseChild(depth, ']');
        if error != NoError {
          return error, Null;
        }
        items := items + [child];
        if !more {
          return NoError, Array(items);
        }
      }
    }

    method ParseKey() returns (found: bool, error: ParseError, key: string)
      requires Valid()
      modifies this`pos
      ensures Valid()
      ensures match KeyAt(text, options, old(pos))
              case Key(k, q) => found && key == k && pos == q
              case BadKey(q) => !found && error == NoError && pos == q
              case NotAKey(q) => !found && error == UnexpectedChar && pos == q
    {
      hide StringAt, SkipWs;
      key := "";
      SkipSpace();
      if pos >= |text| || text[pos] != '\"' {
        return false, UnexpectedChar, key;
      }
      found, key := ParseString();
      if !found {
        return false, err, key;
      }
      SkipSpace();
      if pos >= |text| || text[pos] != ':' {
        return false, UnexpectedChar, key;
      }
      pos := pos + 1;
      SkipSpace();
      error := NoError;
    }

    method ParseObject(depth: nat) returns (error: ParseError, out: Value)
      requires Valid() && pos < |text| && text[pos] == '{'
      modifies this
      ensures Valid()
      ensures Parsed(error, out, pos, nodes) == JsonGrammar.ParseToken(text, options, old(pos), old(nodes), depth)
      decreases |text| - pos - 1, 3
    {
      hide KeyAt, StringAt, NumberAt, ParseItems, ChildAt, SkipWs, SetField;
      pos := pos + 1;
      out := Null;
      var fields := [];
      SkipSpace();
      if pos < |text| && text[pos] == '}' {
        pos := pos + 1;
        return NoError, Object(fields);
      }
      ghost var outcome := JsonGrammar.ParseToken(text, options, old(pos), old(nodes), depth);
      while true
        invariant Valid() && old(pos) < pos
        invariant ParseFields(text, options, pos, nodes, depth, fields) == outcome
        decreases |text| - pos
      {
        hide JsonGrammar.ParseToken;
        var found, key;
        found, error, key := ParseKey();
        if !found {
          return error, Null;
        }
        var child, more;
        error, child, more := ParseChild(depth, '}');
        if error != NoError {
          return error, Null;
        }
        fields := SetField(fields, key, child);
        if !more {
          return NoError, Object(fields);
        }
      }
    }
  }
}
