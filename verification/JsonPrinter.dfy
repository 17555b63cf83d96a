// The printer: compact and indented text of a JSON value, string escapes and numbers.

module JsonPrinter {
  import opened Types
  import opened Text
  import opened Doubles
  import opened JsonValues
  import opened JsonGrammar

  datatype WriteMode = Compact | Pretty

  // ---- Text of values ------------------------------------------------------------------

  function Indent(d: nat): string {
    if d == 0 then "" else Indent(d - 1) + "  "
  }

  function Gap(mode: WriteMode, d: nat): string {
    if mode == Compact then "" else "\n" + Indent(d)
  }

  // Bytes from 0x80 on are written as they are.
  function Escape(c: char): string {
    if c == '\"' then "\\\""
    else if c == '\\' then "\\\\"
    else if c == '\n' then "\\n"
    else if c == '\r' then "\\r"
    else if c == '\t' then "\\t"
    else if c == BACKSPACE then "\\b"
    else if c == FORM_FEED then "\\f"
    else if c as nat < 0x20 then "\\u00" + [Digit(16, c as nat / 16), Digit(16, c as nat % 16)]
    else [c]
  }

  function Escaped(s: string): string {
    if s == "" then "" else Escape(s[0]) + Escaped(s[1..])
  }

  function Quoted(s: string): string {
    "\"" + Escaped(s) + "\""
  }

  function Signed(i: int): string {
    if i < 0 then "-" + Numeral(10, -i) else Numeral(10, i)
  }

  function Dump(v: Value, mode: WriteMode, d: nat): string
    decreases v, 0
  {
    match v
    case Null => "null"
    case Bool(b) => if b then "true" else "false"
    case Int(i) => Signed(i)
    case Uint(u) => Numeral(10, u)
    case Double(f) => FloatText(f)
    case String(s) => Quoted(s)
    case Array(a) => "[" + DumpItems(a, 0, mode, d) + (if a == [] then "" else Gap(mode, d)) + "]"
    case Object(fs) => "{" + DumpFields(fs, 0, mode, d) + (if fs == [] then "" else Gap(mode, d)) + "}"
  }

  function DumpItems(a: seq<Value>, i: nat, mode: WriteMode, d: nat): string
    requires i <= |a|
    decreases a, |a| - i
  {
    if i == |a| then ""
    else (if i > 0 then "," else "") + (Gap(mode, d + 1) + Dump(a[i], mode, d + 1) + DumpItems(a, i + 1, mode, d))
  }

  function Colon(mode: WriteMode): string {
    if mode == Pretty then ": " else ":"
  }

  function DumpFields(fs: seq<Field>, i: nat, mode: WriteMode, d: nat): string
    requires i <= |fs|
    decreases fs, |fs| - i
  {
    if i == |fs| then ""
    else
      (if i > 0 then "," else "") +
      (Gap(mode, d + 1) + Quoted(fs[i].key) + Colon(mode) + Dump(fs[i].value, mode, d + 1) + DumpFields(fs, i + 1, mode, d))
  }

  // ---- The printer -----------------------------------------------------------------------

  method Shorten(full: string) returns (s: string)
    ensures s == Shortened(full)
  {
    s := full;
    while s != "" && s[|s| - 1] == '0'
      invariant StripZeros(s) == StripZeros(full)
      decreases |s|
    {
      s := s[..|s| - 1];
    }
    if s != "" && s[|s| - 1] == '.' {
      s := s[..|s| - 1];
    }
  }

  class Writer {
    const mode: WriteMode
    var out: string

    constructor (mode: WriteMode)
      ensures this.mode == mode && out == ""
    {
      this.mode, out := mode, "";
    }

    method NewLine(d: nat)
      modifies this
      ensures out == old(out) + Gap(mode, d)
    {
      if mode == Compact {
        return;
      }
      out := out + "\n";
      for i := 0 to d
        invariant out == old(out) + ("\n" + Indent(i))
      {
        out := out + "  ";
      }
    }

    method WriteString(s: string)
      modifies this
      ensures out == old(out) + Quoted(s)
    {
      hide Escape, Escaped;
      out := out + "\"";
      ghost var start := out;
      for i := 0 to |s|
        invariant out + Escaped(s[i..]) == start + Escaped(s)
      {
        EscapeNext(out, s, i);
        out := out + Escape(s[i]);
      }
      assert s[|s|..] == "";
      NothingEscaped();
      assert out + "" == out;
      out := out + "\"";
      Enclosed(old(out), "\"", Escaped(s), "", "\"");
    }

    method WriteDouble(f: Float64)
      modifies this
      ensures out == old(out) + FloatText(f)
    {
      match f {
        case NotANumber => out := out + "null";
        case Infinite(negative) => out := out + if negative then "-1e9999" else "1e9999";
        case Finite(negative, size) =>
          var short := Shorten(SixDecimals(negative, size));
          out := out + short;
      }
    }

    method WriteValue(v: Value, d: nat)
      modifies this
      ensures out == old(out) + Dump(v, mode, d)
      decreases v, 0
    {
      match v {
        case Null => out := out + "null";
        case Bool(b) => out := out + if b then "true" else "false";
        case Int(i) => out := out + Signed(i);
        case Uint(u) => out := out + Numeral(10, u);
        case Double(f) => WriteDouble(f);
        case String(s) => WriteString(s);
        case Array(a) => WriteArray(a, d);
        case Object(fs) => WriteObject(fs, d);
      }
    }

    method WriteArray(a: seq<Value>, d: nat)
      modifies this
      ensures out == old(out) + Dump(Array(a), mode, d)
      decreases a, |a|
    {
      hide DumpItems;
      out := out + "[";
      ghost var start := out;
      for i := 0 to |a|
        invariant out + DumpItems(a, i, mode, d) == start + DumpItems(a, 0, mode, d)
      {
        NextItem(out, a, i, mode, d);
        if i > 0 {
          out := out + ",";
        }
        NewLine(d + 1);
        WriteValue(a[i], d + 1);
      }
      NoMoreItems(a, mode, d);
      assert out + "" == out;
      if a != [] {
        NewLine(d);
      }
      out := out + "]";
      Enclosed(old(out), "[", DumpItems(a, 0, mode, d), if a == [] then "" else Gap(mode, d), "]");
    }

    method WriteObject(fs: seq<Field>, d: nat)
      modifies this
      ensures out == old(out) + Dump(Object(fs), mode, d)
      decreases fs, |fs|
    {
      hide DumpFields;
      out := out + "{";
      ghost var start := out;
      for i := 0 to |fs|
        invariant out + DumpFields(fs, i, mode, d) == start + DumpFields(fs, 0, mode, d)
      {
        NextField(out, fs, i, mode, d);
        if i > 0 {
          out := out + ",";
        }
        NewLine(d + 1);
        WriteString(fs[i].key);
        out := out + Colon(mode);
        WriteValue(fs[i].value, d + 1);
      }
      NoMoreFields(fs, mode, d);
      assert out + "" == out;
      if fs != [] {
        NewLine(d);
      }
      out := out + "}";
      Enclosed(old(out), "{", DumpFields(fs, 0, mode, d), if fs == [] then "" else Gap(mode, d), "}");
    }
  }

  lemma Enclosed(out: string, open: string, body: string, gap: string, close: string)
    ensures out + open + body + gap + close == out + (open + body + gap + close)
    ensures out + open + body + close == out + (open + body + close)
    ensures body + "" == body
  {
    assert open + body + gap + close == open + (body + gap + close);
  }

  lemma NothingEscaped()
    ensures Escaped("") == ""
  {
  }

  lemma EscapeNext(out: string, s: string, i: nat)
    requires i < |s|
    ensures out + Escape(s[i]) + Escaped(s[i + 1..]) == out + Escaped(s[i..])
  {
    hide Escape;
    assert s[i..][1..] == s[i + 1..];
    assert Escaped(s[i..]) == Escape(s[i]) + Escaped(s[i + 1..]);
  }

  lemma NoMoreItems(a: seq<Value>, mode: WriteMode, d: nat)
    ensures DumpItems(a, |a|, mode, d) == ""
  {
  }

  lemma NextItem(out: string, a: seq<Value>, i: nat, mode: WriteMode, d: nat)
    requires i < |a|
    ensures (if i > 0 then out + "," else out) + Gap(mode, d + 1) + Dump(a[i], mode, d + 1) + DumpItems(a, i + 1, mode, d) ==
            out + DumpItems(a, i, mode, d)
  {
    hide Gap, Dump;
    assert out + "" == out;
  }

  lemma NoMoreFields(fs: seq<Field>, mode: WriteMode, d: nat)
    ensures DumpFields(fs, |fs|, mode, d) == ""
  {
  }

  lemma NextField(out: string, fs: seq<Field>, i: nat, mode: WriteMode, d: nat)
    requires i < |fs|
    ensures (if i > 0 then out + "," else out) + Gap(mode, d + 1) + Quoted(fs[i].key) + Colon(mode) +
            Dump(fs[i].value, mode, d + 1) + DumpFields(fs, i + 1, mode, d) ==
            out + DumpFields(fs, i, mode, d)
  {
    hide Gap, Dump, Quoted, Colon;
    var comma := if i > 0 then "," else "";
    var key := Gap(mode, d + 1) + Quoted(fs[i].key) + Colon(mode);
    assert out + "" == out;
    assert out + comma + Gap(mode, d + 1) + Quoted(fs[i].key) + Colon(mode) == out + comma + key;
  }

  method DumpText(v: Value, mode: WriteMode) returns (text: string)
    ensures text == Dump(v, mode, 0)
  {
    var w := new Writer(mode);
    w.WriteValue(v, 0);
    text := w.out;
  }

  // ---- Layout -------------------------------------------------------------------------------

  // Two blanks for each level, a line for each child, and a blank behind the colon; or none of it.
  lemma Gaps()
    ensures Gap(Pretty, 0) == "\n" && Gap(Pretty, 1) == "\n  " && Gap(Pretty, 2) == "\n    "
    ensures forall d :: Gap(Compact, d) == ""
    ensures Colon(Pretty) == ": " && Colon(Compact) == ":"
  {
    assert Indent(0) == "" && Indent(1) == "  " && Indent(2) == "    ";
  }

  lemma OneField(mode: WriteMode)
    ensures Dump(Object([Field("k", Null)]), mode, 0) == if mode == Compact then "{\"k\":null}" else "{\n  \"k\": null\n}"
  {
    hide Gap, Quoted, Colon;
    Gaps();
    KeyText();
    var fs := [Field("k", Null)];
    assert DumpFields(fs, 1, mode, 0) == "";
  }

  lemma KeyText()
    ensures Quoted("k") == "\"k\""
  {
    assert "k"[1..] == "" && Escaped("") == "";
  }

  lemma TwoItems(mode: WriteMode)
    ensures Dump(Array([Null, Null]), mode, 0) == if mode == Compact then "[null,null]" else "[\n  null,\n  null\n]"
  {
    hide Gap;
    Gaps();
    var a := [Null, Null];
    var gap := Gap(mode, 1);
    assert DumpItems(a, 2, mode, 0) == "";
    assert DumpItems(a, 1, mode, 0) == "," + gap + "null";
    assert DumpItems(a, 0, mode, 0) == gap + "null" + "," + gap + "null";
  }

  // The characters with short escapes, and how other control characters are written.
  lemma EscapesOfStrings()
    ensures Escape('\"') == "\\\"" && Escape('\\') == "\\\\" && Escape('\n') == "\\n" && Escape('\r') == "\\r" && Escape('\t') == "\\t"
    ensures Escape(BACKSPACE) == "\\b" && Escape(FORM_FEED) == "\\f" && Escape('\U{1f}') == "\\u001f" && Escape('/') == "/"
    ensures forall c: char :: c as int >= 0x20 && c != '\"' && c != '\\' ==> Escape(c) == [c]
  {
  }
}
