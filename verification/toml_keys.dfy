/**
 Writing keys and table headers, and reading them back.

 Keys are written bare or as JSON strings and read by the rules for keys in
 TOML 1.0.0, so the two must agree for an edit to find what it wrote.
 */
module TomlKeys {
  import opened Wrappers
  import opened PythonText

  // ---- characters ----

  predicate IsBare(c: char) { 'A' <= c <= 'Z' || 'a' <= c <= 'z' || '0' <= c <= '9' || c == '_' || c == '-' }

  const DELETE: char := '\U{7F}'

  /** Characters TOML forbids inside a one-line string: ASCII control characters except tab. */
  predicate IsForbidden(c: char) { ((c as int) < 0x20 && c != '\t') || c == DELETE }

  function SkipBlank(s: string): (r: string)
    ensures |r| <= |s|
  {
    if s != "" && (s[0] == ' ' || s[0] == '\t') then SkipBlank(s[1..]) else s
  }

  // ---- JSON strings ----

  function HexDigit(n: nat): char
    requires n < 16
  {
    "0123456789abcdef"[n]
  }

  function HexValue(c: char): Option<nat> {
    if '0' <= c <= '9' then Some(c as int - '0' as int)
    else if 'a' <= c <= 'f' then Some(c as int - 'a' as int + 10)
    else if 'A' <= c <= 'F' then Some(c as int - 'A' as int + 10)
    else None
  }

  function JsonEscape(c: char): string {
    var n := c as int;
    if c == '"' then "\\\""
    else if c == '\\' then "\\\\"
    else if c == '\n' then "\\n"
    else if c == '\r' then "\\r"
    else if c == '\t' then "\\t"
    else if n == 0x08 then "\\b"
    else if n == 0x0C then "\\f"
    else if n < 0x20 then "\\u00" + [HexDigit(n / 16), HexDigit(n % 16)]
    else [c]
  }

  function JsonBody(s: string): string {
    if s == "" then "" else JsonEscape(s[0]) + JsonBody(s[1..])
  }

  function JsonString(s: string): string { "\"" + JsonBody(s) + "\"" }

  // ---- writing ----

  predicate AllBare(k: string) { k != "" && forall i | 0 <= i < |k| :: IsBare(k[i]) }

  function TomlKey(k: string): string { if AllBare(k) then k else JsonString(k) }

  function DottedKey(path: seq<string>): string {
    if path == [] then ""
    else if |path| == 1 then TomlKey(path[0])
    else TomlKey(path[0]) + "." + DottedKey(path[1..])
  }

  function TableHeader(path: seq<string>): string { "[" + DottedKey(path) + "]" }

  // ---- reading ----

  /** A decoded key and the text behind it. */
  datatype KeyPart = KeyPart(key: string, rest: string)

  function HexNumber(s: string): Option<nat>
    decreases |s|
  {
    if s == "" then Some(0)
    else
      var d, high := HexValue(s[|s| - 1]), HexNumber(s[..|s| - 1]);
      if d.Some? && high.Some? then Some(16 * high.value + d.value) else None
  }

  function UnicodeEscape(s: string, width: nat): Option<char> {
    if |s| < width then None
    else
      var n := HexNumber(s[..width]);
      if n.None? || 0xD800 <= n.value < 0xE000 || n.value >= 0x11_0000 then None else Some(n.value as char)
  }

  function SimpleEscape(c: char): Option<char> {
    match c
    case 'b' => Some('\U{8}')
    case 't' => Some('\t')
    case 'n' => Some('\n')
    case 'f' => Some('\U{C}')
    case 'r' => Some('\r')
    case '"' => Some('"')
    case '\\' => Some('\\')
    case _ => None
  }

  function Prepend(c: Option<char>, p: Option<KeyPart>): Option<KeyPart> {
    if c.Some? && p.Some? then Some(p.value.(key := [c.value] + p.value.key)) else None
  }

  /** The rest of a basic string, after its opening quote. */
  function DecodeBasic(s: string): (r: Option<KeyPart>)
    ensures r.Some? ==> |r.value.rest| < |s|
    decreases |s|
  {
    if s == "" || IsForbidden(s[0]) then None
    else if s[0] == '"' then Some(KeyPart("", s[1..]))
    else if s[0] != '\\' then Prepend(Some(s[0]), DecodeBasic(s[1..]))
    else if |s| < 2 then None
    else if s[1] == 'u' then
      var c := UnicodeEscape(s[2..], 4);
      if c.None? then None else Prepend(c, DecodeBasic(s[6..]))
    else if s[1] == 'U' then
      var c := UnicodeEscape(s[2..], 8);
      if c.None? then None else Prepend(c, DecodeBasic(s[10..]))
    else Prepend(SimpleEscape(s[1]), DecodeBasic(s[2..]))
  }

  function DecodeLiteral(s: string): (r: Option<KeyPart>)
    ensures r.Some? ==> |r.value.rest| < |s|
    decreases |s|
  {
    if s == "" || IsForbidden(s[0]) then None
    else if s[0] == '\'' then Some(KeyPart("", s[1..]))
    else Prepend(Some(s[0]), DecodeLiteral(s[1..]))
  }

  function TakeBare(s: string): (r: KeyPart)
    ensures |r.rest| <= |s| && (s != "" && IsBare(s[0]) ==> |r.rest| < |s|)
    decreases |s|
  {
    if s == "" || !IsBare(s[0]) then KeyPart("", s)
    else var r := TakeBare(s[1..]); r.(key := [s[0]] + r.key)
  }

  function ReadKey(s: string): (r: Option<KeyPart>)
    ensures r.Some? ==> |r.value.rest| < |s|
  {
    if s == "" then None
    else if IsBare(s[0]) then Some(TakeBare(s))
    else if s[0] == '"' then DecodeBasic(s[1..])
    else if s[0] == '\'' then DecodeLiteral(s[1..])
    else None
  }

  /** The key a statement assigns, if it assigns one undotted key. */
  function SimpleKey(statement: string): Option<string> {
    var r := ReadKey(LStrip(statement));
    if r.None? then None
    else
      var rest := LStrip(r.value.rest);
      if rest != "" && rest[0] == '=' then Some(r.value.key) else None
  }

  function ReadPath(s: string): Option<seq<string>>
    decreases |s|
  {
    var r := ReadKey(SkipBlank(s));
    if r.None? then None
    else
      var rest := SkipBlank(r.value.rest);
      if rest == "" then None
      else if rest[0] == ']' then Some([r.value.key])
      else if rest[0] == '.' then
        var tail := ReadPath(rest[1..]);
        if tail.None? then None else Some([r.value.key] + tail.value)
      else None
  }

  predicate IsAnyHeader(statement: string) {
    var s := LStrip(statement); s != "" && s[0] == '['
  }

  /** The path of a regular table header; arrays of tables have none. */
  function HeaderPath(statement: string): Option<seq<string>> {
    var s := LStrip(statement);
    if s == "" || s[0] != '[' || (|s| > 1 && s[1] == '[') then None else ReadPath(s[1..])
  }

  // ---- what is written is what is read ----

  lemma HexRoundTrip(n: nat)
    requires n < 0x20
    ensures UnicodeEscape("00" + [HexDigit(n / 16), HexDigit(n % 16)], 4) == Some(n as char)
  {
    var h, l := HexDigit(n / 16), HexDigit(n % 16);
    var s := "00" + [h, l];
    assert HexValue(h) == Some(n / 16) && HexValue(l) == Some(n % 16);
    assert s[..4] == s && s[..3] == ['0', '0', h] && s[..3][..2] == "00" && "00"[..1] == "0" && "0"[..0] == "";
    assert HexNumber("0") == Some(0);
    assert HexNumber("00") == Some(0);
    assert HexNumber(['0', '0', h]) == Some(n / 16);
    assert HexNumber(s) == Some(n);
  }

  lemma DecodeUnicode(n: nat, s: string)
    requires n < 0x20
    ensures DecodeBasic("\\u00" + [HexDigit(n / 16), HexDigit(n % 16)] + s) == Prepend(Some(n as char), DecodeBasic(s))
  {
    var h := "00" + [HexDigit(n / 16), HexDigit(n % 16)];
    var t := "\\u00" + [HexDigit(n / 16), HexDigit(n % 16)] + s;
    HexRoundTrip(n);
    assert t[0] == '\\' && t[1] == 'u';
    assert t[2..][..4] == h && h[..4] == h;
    assert t[6..] == s;
  }

  lemma DecodeEscape(c: char, s: string)
    ensures DecodeBasic(JsonEscape(c) + s) == if c == DELETE then None else Prepend(Some(c), DecodeBasic(s))
  {
    var e := JsonEscape(c);
    if (c as int) < 0x20 && |e| == 6 {
      DecodeUnicode(c as int, s);
    } else if |e| == 2 {
      DecodePair(c, e, s);
    } else {
      assert e == [c] && (e + s)[1..] == s;
    }
  }

  lemma DecodePair(c: char, e: string, s: string)
    requires e == JsonEscape(c) && |e| == 2
    ensures DecodeBasic(e + s) == Prepend(Some(c), DecodeBasic(s))
  {
    assert (e + s)[2..] == s && (e + s)[0] == e[0] && (e + s)[1] == e[1];
  }

  /** A JSON string decodes to the string it was made from, unless that holds a DEL. */
  lemma {:induction false} DecodeJson(k: string, rest: string)
    ensures DecodeBasic(JsonBody(k) + "\"" + rest) == if DELETE in k then None else Some(KeyPart(k, rest))
  {
    hide JsonEscape;
    if k == "" {
      assert "" + "\"" + rest == "\"" + rest;
      assert ("\"" + rest)[1..] == rest;
    } else {
      var tail := JsonBody(k[1..]) + "\"" + rest;
      assert JsonBody(k) + "\"" + rest == JsonEscape(k[0]) + tail;
      DecodeEscape(k[0], tail);
      DecodeJson(k[1..], rest);
      assert k == [k[0]] + k[1..];
    }
  }

  lemma {:induction false} TakeBareAll(k: string, rest: string)
    requires forall i | 0 <= i < |k| :: IsBare(k[i])
    requires rest != "" && !IsBare(rest[0])
    ensures TakeBare(k + rest) == KeyPart(k, rest)
  {
    if k == "" {
      assert k + rest == rest;
    } else {
      TakeBareAll(k[1..], rest);
      assert (k + rest)[1..] == k[1..] + rest;
    }
  }

  lemma ReadBare(k: string, rest: string)
    requires AllBare(k) && rest != "" && !IsBare(rest[0])
    ensures ReadKey(k + rest) == Some(KeyPart(k, rest)) && DELETE !in k
  {
    TakeBareAll(k, rest);
    assert (k + rest)[0] == k[0];
  }

  lemma ReadQuoted(k: string, rest: string)
    ensures ReadKey(JsonString(k) + rest) == if DELETE in k then None else Some(KeyPart(k, rest))
  {
    DecodeJson(k, rest);
    QuotedBody(JsonBody(k), "\"", rest);
  }

  lemma QuotedBody(body: string, quote: string, rest: string)
    requires quote == "\""
    ensures ReadKey(quote + body + quote + rest) == DecodeBasic(body + quote + rest)
  {
    var s := quote + body + quote + rest;
    assert s[0] == '"' && s[1..] == body + quote + rest;
  }

  lemma ReadWritten(k: string, rest: string)
    requires rest != "" && !IsBare(rest[0])
    ensures ReadKey(TomlKey(k) + rest) == if DELETE in k then None else Some(KeyPart(k, rest))
  {
    if AllBare(k) { ReadBare(k, rest); } else { ReadQuoted(k, rest); }
  }

  lemma FirstOfKey(k: string)
    ensures TomlKey(k) != "" && (TomlKey(k)[0] == '"' || IsBare(TomlKey(k)[0]))
  {}

  /** An assignment line is found again under its own key exactly when the key holds no DEL. */
  lemma AssignmentReadback(k: string, rest: string)
    ensures SimpleKey(TomlKey(k) + " = " + rest) == if DELETE in k then None else Some(k)
  {
    var tail := " = " + rest;
    assert TomlKey(k) + " = " + rest == TomlKey(k) + tail;
    EqualsFollows(tail, rest);
    KeyStarts(k, TomlKey(k), tail);
    ReadWritten(k, tail);
  }

  lemma EqualsFollows(tail: string, rest: string)
    requires tail == " = " + rest
    ensures LStrip(tail) != "" && LStrip(tail)[0] == '=' && tail != "" && !IsBare(tail[0])
  {
    assert tail[1..] == "= " + rest;
  }

  lemma KeyStarts(k: string, key: string, tail: string)
    requires key == TomlKey(k)
    ensures LStrip(key + tail) == key + tail
  {
    FirstOfKey(k);
    assert (key + tail)[0] == key[0];
  }

  predicate HoldsDelete(path: seq<string>) { exists k | k in path :: DELETE in k }

  lemma ReadPathStep(k: string, tail: string)
    requires tail != "" && !IsBare(tail[0]) && tail[0] != ' ' && tail[0] != '\t'
    ensures ReadPath(TomlKey(k) + tail) ==
            if DELETE in k then None
            else if tail[0] == ']' then Some([k])
            else if tail[0] == '.' then
              var more := ReadPath(tail[1..]); if more.None? then None else Some([k] + more.value)
            else None
  {
    var s := TomlKey(k) + tail;
    FirstOfKey(k);
    ReadWritten(k, tail);
    assert s[0] == TomlKey(k)[0];
    assert SkipBlank(s) == s && SkipBlank(tail) == tail;
  }

  lemma {:induction false} ReadDotted(path: seq<string>, rest: string)
    requires path != []
    ensures ReadPath(DottedKey(path) + "]" + rest) == if HoldsDelete(path) then None else Some(path)
  {
    hide ReadKey, TomlKey, ReadPath, SkipBlank;
    var k := path[0];
    assert path == [k] + path[1..];
    assert forall x :: x in path <==> x == k || x in path[1..];
    if |path| == 1 {
      var tail := "]" + rest;
      assert DottedKey(path) + "]" + rest == TomlKey(k) + tail;
      ReadPathStep(k, tail);
      assert path == [k] && k in path;
    } else {
      var more := DottedKey(path[1..]) + "]" + rest;
      var tail := "." + more;
      assert DottedKey(path) + "]" + rest == TomlKey(k) + tail;
      ReadPathStep(k, tail);
      ReadDotted(path[1..], rest);
      assert tail[1..] == more;
    }
  }

  /** A header is found again under its own path exactly when the path is not empty and holds no DEL. */
  lemma HeaderReadback(path: seq<string>, rest: string)
    ensures HeaderPath(TableHeader(path) + rest)
         == if path == [] || HoldsDelete(path) then None else Some(path)
    ensures IsAnyHeader(TableHeader(path) + rest) && SimpleKey(TableHeader(path) + rest) == None
  {
    if path == [] { EmptyHeader("[", "]", rest); } else { FullHeader(path, rest, TableHeader(path) + rest); }
  }

  lemma FullHeader(path: seq<string>, rest: string, s: string)
    requires path != [] && s == TableHeader(path) + rest
    ensures HeaderPath(s) == (if HoldsDelete(path) then None else Some(path)) && IsAnyHeader(s) && SimpleKey(s) == None
  {
    ReadDotted(path, rest);
    FirstOfKey(path[0]);
    assert DottedKey(path)[0] == TomlKey(path[0])[0];
    BracketedKey(DottedKey(path), "[", "]", rest);
  }

  /** A header's path is read behind its bracket. */
  lemma BracketedKey(dotted: string, opening: string, closing: string, rest: string)
    requires opening == "[" && dotted != "" && dotted[0] != '['
    ensures var s := opening + dotted + closing + rest;
            HeaderPath(s) == ReadPath(dotted + closing + rest) && IsAnyHeader(s) && SimpleKey(s) == None
  {
    var s := opening + dotted + closing + rest;
    assert s[0] == '[' && s[1] == dotted[0] && s[1..] == dotted + closing + rest;
  }

  lemma EmptyHeader(opening: string, closing: string, rest: string)
    requires opening == "[" && closing == "]"
    ensures var s := opening + "" + closing + rest;
            IsAnyHeader(s) && HeaderPath(s) == None && SimpleKey(s) == None
  {
    var s := opening + "" + closing + rest;
    assert s[1..] == closing + rest && SkipBlank(s[1..]) == s[1..];
  }

  /** An assignment line is not a header. */
  lemma AssignmentIsNoHeader(k: string, rest: string)
    ensures !IsAnyHeader(TomlKey(k) + " = " + rest) && HeaderPath(TomlKey(k) + " = " + rest) == None
  {
    FirstOfKey(k);
    var s := TomlKey(k) + " = " + rest;
    assert s[0] == TomlKey(k)[0];
    assert LStrip(s) == s;
  }

  // ---- a newline added behind a statement changes nothing that is read from it ----

  function Lengthen(r: Option<KeyPart>): Option<KeyPart> {
    if r.Some? then Some(r.value.(rest := r.value.rest + "\n")) else None
  }

  lemma {:induction false} LStripNewline(s: string)
    ensures LStrip(s + "\n") == if LStrip(s) == "" then "" else LStrip(s) + "\n"
  {
    if s == "" {
      assert s + "\n" == "\n" && "\n"[1..] == "";
    } else if IsSpace(s[0]) {
      assert (s + "\n")[1..] == s[1..] + "\n";
      LStripNewline(s[1..]);
    }
  }

  lemma {:induction false} SkipBlankNewline(s: string)
    ensures SkipBlank(s + "\n") == SkipBlank(s) + "\n"
  {
    if s == "" {
      assert s + "\n" == "\n";
    } else if s[0] == ' ' || s[0] == '\t' {
      assert (s + "\n")[1..] == s[1..] + "\n";
      SkipBlankNewline(s[1..]);
    }
  }

  lemma {:induction false} TakeBareNewline(s: string)
    ensures TakeBare(s + "\n") == TakeBare(s).(rest := TakeBare(s).rest + "\n")
  {
    if s == "" {
      assert s + "\n" == "\n";
    } else if IsBare(s[0]) {
      assert (s + "\n")[1..] == s[1..] + "\n";
      TakeBareNewline(s[1..]);
    }
  }

  lemma {:induction false} DecodeLiteralNewline(s: string)
    ensures DecodeLiteral(s + "\n") == Lengthen(DecodeLiteral(s))
    decreases |s|
  {
    if s == "" {
      assert s + "\n" == "\n";
    } else {
      assert (s + "\n")[1..] == s[1..] + "\n";
      DecodeLiteralNewline(s[1..]);
    }
  }

  lemma {:induction false} HexRejects(s: string)
    requires '\n' in s
    ensures HexNumber(s) == None
  {
    if s[|s| - 1] != '\n' {
      assert '\n' in s[..|s| - 1];
      HexRejects(s[..|s| - 1]);
    }
  }

  lemma EscapeNewline(s: string, width: nat)
    ensures UnicodeEscape(s + "\n", width) == UnicodeEscape(s, width)
  {
    var t := s + "\n";
    if |s| >= width {
      assert t[..width] == s[..width];
    } else if |t| == width {
      assert t[..width][width - 1] == '\n';
      HexRejects(t[..width]);
    }
  }

  lemma {:induction false} DecodeBasicNewline(s: string)
    ensures DecodeBasic(s + "\n") == Lengthen(DecodeBasic(s))
    decreases |s|
  {
    var t := s + "\n";
    if s == "" {
      assert t == "\n";
    } else if s[0] != '\\' {
      assert t[1..] == s[1..] + "\n";
      DecodeBasicNewline(s[1..]);
    } else if |s| >= 2 {
      assert t[2..] == s[2..] + "\n";
      if s[1] == 'u' {
        EscapeNewline(s[2..], 4);
        if |s| >= 6 { assert t[6..] == s[6..] + "\n"; DecodeBasicNewline(s[6..]); }
      } else if s[1] == 'U' {
        EscapeNewline(s[2..], 8);
        if |s| >= 10 { assert t[10..] == s[10..] + "\n"; DecodeBasicNewline(s[10..]); }
      } else {
        DecodeBasicNewline(s[2..]);
      }
    }
  }

  lemma ReadKeyNewline(s: string)
    ensures ReadKey(s + "\n") == Lengthen(ReadKey(s))
  {
    if s == "" {
      assert s + "\n" == "\n";
    } else {
      assert (s + "\n")[1..] == s[1..] + "\n";
      if IsBare(s[0]) { TakeBareNewline(s); }
      else if s[0] == '"' { DecodeBasicNewline(s[1..]); }
      else if s[0] == '\'' { DecodeLiteralNewline(s[1..]); }
    }
  }

  lemma SimpleKeyNewline(s: string)
    ensures SimpleKey(s + "\n") == SimpleKey(s)
  {
    LStripNewline(s);
    var l := LStrip(s);
    if l != "" {
      ReadKeyNewline(l);
      var r := ReadKey(l);
      if r.Some? { LStripNewline(r.value.rest); }
    }
  }

  lemma {:induction false} ReadPathNewline(s: string)
    ensures ReadPath(s + "\n") == ReadPath(s)
    decreases |s|
  {
    hide ReadKey, SkipBlank;
    SkipBlankNewline(s);
    ReadKeyNewline(SkipBlank(s));
    var r := ReadKey(SkipBlank(s));
    if r.Some? {
      SkipBlankNewline(r.value.rest);
      var rest := SkipBlank(r.value.rest);
      if rest == "" {
        assert rest + "\n" == "\n";
      } else {
        assert (rest + "\n")[1..] == rest[1..] + "\n";
        ReadPathNewline(rest[1..]);
      }
    }
  }

  lemma HeaderNewline(s: string)
    ensures IsAnyHeader(s + "\n") == IsAnyHeader(s) && HeaderPath(s + "\n") == HeaderPath(s)
  {
    LStripNewline(s);
    var l := LStrip(s);
    if l != "" {
      assert (l + "\n")[1..] == l[1..] + "\n";
      ReadPathNewline(l[1..]);
    }
  }
}
