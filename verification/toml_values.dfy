/**
 The values the structured editor may set, and the proof that each of them,
 written behind a key, is lexically one statement.
 */
module TomlValues {
  import opened Wrappers
  import opened Scanner
  import opened TomlLexer
  import opened TomlKeys
  import opened PythonText

  predicate IsNumeral(c: char) { '0' <= c <= '9' || c == '-' || c == '+' || c == '.' || c == 'e' }

  /** A finite float as Python prints it: digits, signs, and a point or an exponent. */
  type FloatText = s: string | ('.' in s || 'e' in s) && forall i | 0 <= i < |s| :: IsNumeral(s[i]) witness "0.0"

  datatype Name = Text(text: string) | OtherKey

  datatype Pair = Pair(name: Name, value: Value)

  datatype Value =
    | Boolean(b: bool)
    | Integer(n: int)
    | Float(text: FloatText)
    | NonFinite
    | String(s: string)
    | List(items: seq<Value>)
    | Table(pairs: seq<Pair>)
    | Unsupported

  function IntegerText(n: int): string { if n < 0 then "-" + Decimal(-n) else Decimal(n) }

  /** The text between brackets: parts joined by a comma and a blank. */
  function Joined(parts: seq<string>): string {
    if parts == [] then "" else if |parts| == 1 then parts[0] else parts[0] + ", " + Joined(parts[1..])
  }

  function Assignment(k: string, value: string): string { TomlKey(k) + " = " + value }

  /** An assignment line, whatever ends it, is found under its key exactly when the key holds no DEL, and is no header. */
  lemma AssignmentRead(k: string, value: string, nl: string)
    ensures var s := Assignment(k, value) + nl;
            SimpleKey(s) == (if DELETE in k then None else Some(k)) && !IsAnyHeader(s) && HeaderPath(s) == None
  {
    assert Assignment(k, value) + nl == TomlKey(k) + " = " + (value + nl);
    AssignmentReadback(k, value + nl);
    AssignmentIsNoHeader(k, value + nl);
  }

  /** The source's toml_value; Failure is its EditorError. */
  function Render(v: Value): Result<string>
    decreases v, 0
  {
    match v
    case Boolean(b) => Success(if b then "true" else "false")
    case Integer(n) => Success(IntegerText(n))
    case Float(text) => Success(text)
    case NonFinite => Failure
    case String(s) => Success(JsonString(s))
    case List(items) =>
      var parts := RenderItems(items);
      if parts.Failure? then Failure else Success("[" + Joined(parts.value) + "]")
    case Table(pairs) =>
      var parts := RenderPairs(pairs);
      if parts.Failure? then Failure else Success("{ " + Joined(parts.value) + " }")
    case Unsupported => Failure
  }

  function RenderItems(items: seq<Value>): (r: Result<seq<string>>)
    ensures r.Success? ==> |r.value| == |items|
    decreases items, 1
  {
    if items == [] then Success([])
    else
      var head, tail := Render(items[0]), RenderItems(items[1..]);
      if head.Success? && tail.Success? then Success([head.value] + tail.value) else Failure
  }

  function RenderPair(p: Pair): Result<string>
    decreases p, 1
  {
    if p.name.OtherKey? then Failure
    else
      var value := Render(p.value);
      if value.Failure? then Failure else Success(Assignment(p.name.text, value.value))
  }

  function RenderPairs(pairs: seq<Pair>): (r: Result<seq<string>>)
    ensures r.Success? ==> |r.value| == |pairs|
    decreases pairs, 2
  {
    if pairs == [] then Success([])
    else
      var head, tail := RenderPair(pairs[0]), RenderPairs(pairs[1..]);
      if head.Success? && tail.Success? then Success([head.value] + tail.value) else Failure
  }

  // ---- text that leaves the lexer as it found it ----

  /** r stands in t at index i. */
  predicate At(t: string, i: nat, r: string) { i + |r| <= |t| && forall k :: 0 <= k < |r| ==> t[i + k] == r[k] }

  /** The lexer is inside a statement, outside strings and comments. */
  predicate Open(s: State<Mode>) {
    s.start.Some? && s.mode.quote == NoQuote && !s.mode.escaped && !s.mode.comment
  }

  /** No quote stands at index i, so none can join the text before it. */
  predicate Quiet(t: string, i: nat) { i < |t| ==> t[i] != '"' && t[i] != '\'' }

  /** Wherever r stands inside a statement, no quote behind it, it closes whatever it opens. */
  ghost predicate Neutral(r: string) {
    forall t, i: nat, s :: At(t, i, r) && Open(s) && Quiet(t, i + |r|) ==> Passes(React, t, i, s, i + |r|, s)
  }

  lemma AtSplit(t: string, i: nat, a: string, b: string)
    requires At(t, i, a + b)
    ensures At(t, i, a) && At(t, i + |a|, b)
    ensures b != "" ==> t[i + |a|] == b[0]
  {
    var r := a + b;
    forall k | 0 <= k < |a| ensures t[i + k] == a[k] { assert r[k] == a[k]; }
    forall k | 0 <= k < |b| ensures t[i + |a| + k] == b[k] { assert r[|a| + k] == b[k]; }
    if b != "" { assert t[i + |a| + 0] == b[0]; }
  }

  predicate Plain(c: char) { !IsNewline(c) && c !in {'"', '\'', '[', ']', '{', '}', '#'} }

  lemma {:induction false} PassPlain(t: string, i: nat, s: State<Mode>, r: string)
    requires Open(s) && At(t, i, r) && forall k | 0 <= k < |r| :: Plain(r[k])
    ensures Passes(React, t, i, s, i + |r|, s)
    decreases |r|
  {
    if r == "" {
      PassNothing(React, t, i, s);
    } else {
      assert r == r[..1] + r[1..];
      AtSplit(t, i, r[..1], r[1..]);
      assert t[i + 0] == r[0];
      PassStep(React, t, i, s);
      PassPlain(t, i + 1, s, r[1..]);
      PassThen(React, t, i, s, i + 1, s, i + |r|, s);
    }
  }

  lemma NeutralPlain(r: string)
    requires forall k | 0 <= k < |r| :: Plain(r[k])
    ensures Neutral(r)
  {
    forall t, i: nat, s | At(t, i, r) && Open(s) ensures Passes(React, t, i, s, i + |r|, s) {
      PassPlain(t, i, s, r);
    }
  }

  // ---- brackets ----

  /** The state after one bracket. */
  function Bracketed(s: State<Mode>, c: char): State<Mode> {
    match c
    case '[' => s.(mode := s.mode.(square := s.mode.square + 1))
    case ']' => s.(mode := s.mode.(square := Pred(s.mode.square)))
    case '{' => s.(mode := s.mode.(curly := s.mode.curly + 1))
    case '}' => s.(mode := s.mode.(curly := Pred(s.mode.curly)))
    case _ => s
  }

  lemma PassBracket(t: string, i: nat, s: State<Mode>)
    requires i < |t| && Open(s) && t[i] in {'[', ']', '{', '}'}
    ensures Passes(React, t, i, s, i + 1, Bracketed(s, t[i]))
  {
    assert Step(React, t, i, s) == Move(Bracketed(s, t[i]), i + 1, None);
    PassStep(React, t, i, s);
  }

  lemma NeutralBrackets(open: string, body: string, close: string)
    requires Neutral(body) && ((open == "[" && close == "]") || (open == "{" && close == "}"))
    ensures Neutral(open + body + close)
  {
    var r := open + body + close;
    forall t, i: nat, s | At(t, i, r) && Open(s) ensures Passes(React, t, i, s, i + |r|, s) {
      var j := i + 1 + |body|;
      AtSplit(t, i, open + body, close);
      AtSplit(t, i, open, body);
      assert t[i + 0] == open[0] && t[j] == close[0];
      var s' := Bracketed(s, open[0]);
      assert Open(s') && Quiet(t, i + 1 + |body|) && Bracketed(s', close[0]) == s;
      PassBracket(t, i, s);
      PassBracket(t, j, s');
      PassThree(React, t, i, s, i + 1, s', j, s', j + 1, s);
    }
  }

  // ---- strings ----

  function InString(s: State<Mode>): State<Mode> { s.(mode := s.mode.(quote := Basic)) }

  lemma PassInside(t: string, i: nat, s: State<Mode>)
    requires i < |t| && Open(s) && t[i] != '"' && t[i] != '\\'
    ensures Passes(React, t, i, InString(s), i + 1, InString(s))
  {
    assert Step(React, t, i, InString(s)) == Move(InString(s), i + 1, None);
    PassStep(React, t, i, InString(s));
  }

  lemma PassPair(t: string, i: nat, s: State<Mode>)
    requires i + 1 < |t| && Open(s) && t[i] == '\\'
    ensures Passes(React, t, i, InString(s), i + 2, InString(s))
  {
    var q := InString(s);
    var e := q.(mode := q.mode.(escaped := true));
    assert Step(React, t, i, q) == Move(e, i + 1, None);
    assert Step(React, t, i + 1, e) == Move(q, i + 2, None);
    PassStep(React, t, i, q);
    PassStep(React, t, i + 1, e);
    PassThen(React, t, i, q, i + 1, e, i + 2, q);
  }

  lemma HexDigitSafe(n: nat)
    requires n < 16
    ensures HexDigit(n) != '"' && HexDigit(n) != '\\'
  {}

  lemma PassUnicode(t: string, i: nat, s: State<Mode>, n: nat)
    requires n < 0x20 && Open(s) && At(t, i, "\\u00" + [HexDigit(n / 16), HexDigit(n % 16)])
    ensures Passes(React, t, i, InString(s), i + 6, InString(s))
  {
    var q, e := InString(s), "\\u00" + [HexDigit(n / 16), HexDigit(n % 16)];
    HexDigitSafe(n / 16);
    HexDigitSafe(n % 16);
    assert t[i + 0] == e[0] && t[i + 2] == e[2] && t[i + 3] == e[3] && t[i + 4] == e[4] && t[i + 5] == e[5];
    PassPair(t, i, s);
    PassInside(t, i + 2, s);
    PassInside(t, i + 3, s);
    PassInside(t, i + 4, s);
    PassInside(t, i + 5, s);
    PassThree(React, t, i, q, i + 2, q, i + 3, q, i + 4, q);
    PassThree(React, t, i, q, i + 4, q, i + 5, q, i + 6, q);
  }

  lemma PassEscape(t: string, i: nat, s: State<Mode>, c: char)
    requires Open(s) && At(t, i, JsonEscape(c))
    ensures Passes(React, t, i, InString(s), i + |JsonEscape(c)|, InString(s))
  {
    var e := JsonEscape(c);
    assert t[i + 0] == e[0];
    if |e| == 1 {
      PassInside(t, i, s);
    } else if |e| == 2 {
      PassPair(t, i, s);
    } else {
      PassUnicode(t, i, s, c as int);
    }
  }

  lemma {:induction false} PassBody(t: string, i: nat, s: State<Mode>, k: string)
    requires Open(s) && At(t, i, JsonBody(k))
    ensures Passes(React, t, i, InString(s), i + |JsonBody(k)|, InString(s))
    decreases |k|
  {
    hide React, JsonEscape, Passes;
    if k == "" {
      PassNothing(React, t, i, InString(s));
    } else {
      var q := InString(s);
      var e, rest := BodyAt(t, i, k);
      PassEscape(t, i, s, k[0]);
      PassBody(t, i + |e|, s, k[1..]);
      PassOn(t, i, q, i + |e|, i + |e| + |rest|, i + |JsonBody(k)|);
    }
  }

  lemma PassOn(t: string, i: nat, q: State<Mode>, j: nat, k: nat, end: nat)
    requires Passes(React, t, i, q, j, q) && Passes(React, t, j, q, k, q) && end == k
    ensures Passes(React, t, i, q, end, q)
  {
    PassThen(React, t, i, q, j, q, k, q);
  }

  lemma BodyAt(t: string, i: nat, k: string) returns (e: string, rest: string)
    requires k != "" && At(t, i, JsonBody(k))
    ensures e == JsonEscape(k[0]) && rest == JsonBody(k[1..]) && |JsonBody(k)| == |e| + |rest|
    ensures At(t, i, e) && At(t, i + |e|, rest)
  {
    e, rest := JsonEscape(k[0]), JsonBody(k[1..]);
    AtSplit(t, i, e, rest);
  }

  lemma PassQuotes(t: string, i: nat, s: State<Mode>, n: nat)
    requires Open(s) && i + 1 + n < |t| && t[i] == '"' && t[i + 1 + n] == '"' && Quiet(t, i + 2 + n)
    requires n > 0 ==> t[i + 1] != '"'
    requires Passes(React, t, i + 1, InString(s), i + 1 + n, InString(s))
    ensures Passes(React, t, i, s, i + 2 + n, s)
  {
    assert Step(React, t, i, s) == Move(InString(s), i + 1, None);
    assert Step(React, t, i + 1 + n, InString(s)) == Move(s, i + 2 + n, None);
    PassStep(React, t, i, s);
    PassStep(React, t, i + 1 + n, InString(s));
    PassThree(React, t, i, s, i + 1, InString(s), i + 1 + n, InString(s), i + 2 + n, s);
  }

  lemma BodyStart(k: string)
    ensures JsonBody(k) != "" ==> JsonBody(k)[0] != '"'
  {
    if k != "" { assert JsonBody(k)[0] == JsonEscape(k[0])[0]; }
  }

  /** An empty string followed by no quote is not mistaken for the start of a triple-quoted one. */
  lemma NeutralString(k: string)
    ensures Neutral(JsonString(k))
  {
    forall t, i: nat, s | At(t, i, JsonString(k)) && Open(s) && Quiet(t, i + |JsonString(k)|)
      ensures Passes(React, t, i, s, i + |JsonString(k)|, s)
    {
      StringPasses(t, i, s, k, "\"", JsonBody(k));
    }
  }

  lemma StringPasses(t: string, i: nat, s: State<Mode>, k: string, quote: string, body: string)
    requires quote == "\"" && body == JsonBody(k) && At(t, i, quote + body + quote)
    requires Open(s) && Quiet(t, i + |quote + body + quote|)
    ensures Passes(React, t, i, s, i + |quote + body + quote|, s)
  {
    BodyStart(k);
    AtSplit(t, i, quote + body, quote);
    AtSplit(t, i, quote, body);
    assert t[i + 0] == quote[0];
    PassBody(t, i + 1, s, k);
    PassQuotes(t, i, s, |body|);
  }

  lemma NeutralKey(k: string)
    ensures Neutral(TomlKey(k))
  {
    if AllBare(k) { NeutralPlain(k); } else { NeutralString(k); }
  }

  // ---- values ----

  lemma {:induction false} DecimalNumerals(n: nat)
    ensures forall i | 0 <= i < |Decimal(n)| :: IsNumeral(Decimal(n)[i])
  {
    if n >= 10 { DecimalNumerals(n / 10); }
  }

  /** Two neutral texts with plain text between them. */
  lemma NeutralGlue(a: string, glue: string, b: string)
    requires Neutral(a) && Neutral(b) && glue != "" && forall k | 0 <= k < |glue| :: Plain(glue[k])
    ensures Neutral(a + glue + b)
  {
    var r := a + glue + b;
    forall t, i: nat, s | At(t, i, r) && Open(s) && Quiet(t, i + |r|) ensures Passes(React, t, i, s, i + |r|, s) {
      var j := i + |a|;
      AtSplit(t, i, a + glue, b);
      AtSplit(t, i, a, glue);
      assert Plain(glue[0]);
      PassPlain(t, j, s, glue);
      PassThree(React, t, i, s, j, s, j + |glue|, s, i + |r|, s);
    }
  }

  lemma NeutralAssignment(k: string, value: string)
    requires Neutral(value)
    ensures Neutral(Assignment(k, value))
  {
    NeutralKey(k);
    NeutralGlue(TomlKey(k), " = ", value);
  }

  lemma {:induction false} NeutralJoined(parts: seq<string>)
    requires forall p | p in parts :: Neutral(p)
    ensures Neutral(Joined(parts))
  {
    if parts == [] {
      NeutralPlain("");
    } else if |parts| > 1 {
      var rest := Joined(parts[1..]);
      NeutralJoined(parts[1..]);
      NeutralGlue(parts[0], ", ", rest);
    }
  }

  /** Every rendered value leaves brackets and strings closed, at any nesting. */
  lemma {:induction false} NeutralValue(v: Value)
    requires Render(v).Success?
    ensures Neutral(Render(v).value)
    decreases v, 0
  {
    match v
    case Boolean(b) => NeutralPlain(Render(v).value);
    case Integer(n) =>
      DecimalNumerals(if n < 0 then -n else n);
      NeutralPlain(IntegerText(n));
    case Float(text) => NeutralPlain(text);
    case String(k) => NeutralString(k);
    case List(items) =>
      NeutralItems(items);
      NeutralJoined(RenderItems(items).value);
      NeutralBrackets("[", Joined(RenderItems(items).value), "]");
    case Table(pairs) =>
      NeutralPairs(pairs);
      NeutralJoined(RenderPairs(pairs).value);
      NeutralTable(Joined(RenderPairs(pairs).value));
  }

  lemma NeutralTable(body: string)
    requires Neutral(body)
    ensures Neutral("{ " + body + " }")
  {
    NeutralPlain("");
    NeutralGlue("", " ", body);
    NeutralGlue("" + " " + body, " ", "");
    assert ("" + " " + body) + " " + "" == " " + body + " ";
    NeutralBrackets("{", " " + body + " ", "}");
    assert "{" + (" " + body + " ") + "}" == "{ " + body + " }";
  }

  lemma {:induction false} NeutralItems(items: seq<Value>)
    requires RenderItems(items).Success?
    ensures forall p | p in RenderItems(items).value :: Neutral(p)
    decreases items, 1
  {
    if items != [] {
      NeutralValue(items[0]);
      NeutralItems(items[1..]);
    }
  }

  lemma {:induction false} NeutralPairs(pairs: seq<Pair>)
    requires RenderPairs(pairs).Success?
    ensures forall p | p in RenderPairs(pairs).value :: Neutral(p)
    decreases pairs, 2
  {
    if pairs != [] {
      NeutralPair(pairs[0]);
      NeutralPairs(pairs[1..]);
    }
  }

  lemma {:induction false} NeutralPair(p: Pair)
    requires RenderPair(p).Success?
    ensures Neutral(RenderPair(p).value)
    decreases p, 1
  {
    NeutralValue(p.value);
    NeutralAssignment(p.name.text, Render(p.value).value);
  }

  // ---- whole lines ----

  predicate IsLineEnd(nl: string) { nl == "\n" || nl == "\r\n" }

  /** The text is exactly one closed statement. */
  predicate OneStatement(t: string) { Lex(t) == Scan([Span(0, |t|)], INIT, |t|) }

  lemma StartLine(t: string, n: nat)
    requires 0 < n <= |t| && !IsBlank(t[0]) && t[0] != '#'
    requires Passes(React, t, 0, State(Some(0), CALM), n, State(Some(0), CALM))
    ensures ScanTo(React, t, 0, INIT, n) == Scan([], State(Some(0), CALM), n)
  {
    var s := State(Some(0), CALM);
    PassScan(React, t, 0, s, n, s);
    assert Step(React, t, 0, INIT) == Step(React, t, 0, s);
    assert ScanTo(React, t, 0, INIT, n) == ScanTo(React, t, 0, s, n);
  }

  lemma EndsLine(t: string, n: nat, s: State<Mode>)
    requires n < |t| && (t[n..] == "\n" || t[n..] == "\r\n" || t[n..] == "\r") && s == State(Some(0), CALM)
    ensures Step(React, t, n, s) == Move(INIT, |t|, Some(Span(0, |t|)))
  {
    assert t[n] == t[n..][0] && (|t| > n + 1 ==> t[n + 1] == t[n..][1]);
  }

  lemma NeutralLine(body: string, nl: string)
    requires (IsLineEnd(nl) || nl == "\r") && Neutral(body) && body != "" && !IsBlank(body[0]) && body[0] != '#'
    ensures OneStatement(body + nl)
  {
    hide React;
    var t, n, s := body + nl, |body|, State(Some(0), CALM);
    assert At(t, 0, body) && t[0] == body[0] && t[n] == nl[0] && (|nl| == 2 ==> t[n + 1] == nl[1]);
    assert Open(s) && Quiet(t, 0 + n);
    StartLine(t, n);
    EndsLine(t, n, s);
    assert ScanTo(React, t, |t|, INIT, |t|) == Scan([], INIT, |t|);
    ScanSplit(React, t, 0, INIT, n, |t|);
  }

  /** Every value the editor can render gives one statement behind any key, however deeply nested. */
  lemma AssignmentIsOneStatement(k: string, v: Value, nl: string)
    requires Render(v).Success? && IsLineEnd(nl)
    ensures OneStatement(Assignment(k, Render(v).value) + nl)
  {
    var value := Render(v).value;
    NeutralValue(v);
    NeutralAssignment(k, value);
    FirstOfKey(k);
    assert Assignment(k, value)[0] == TomlKey(k)[0];
    NeutralLine(Assignment(k, value), nl);
  }

  lemma {:induction false} NeutralPath(path: seq<string>)
    ensures Neutral(DottedKey(path))
  {
    if path == [] {
      NeutralPlain("");
    } else {
      NeutralKey(path[0]);
      if |path| > 1 {
        NeutralPath(path[1..]);
        NeutralGlue(TomlKey(path[0]), ".", DottedKey(path[1..]));
      }
    }
  }

  /** A table header is one statement, whatever its path. */
  lemma HeaderIsOneStatement(path: seq<string>)
    ensures OneStatement(TableHeader(path) + "\n")
  {
    NeutralPath(path);
    NeutralBrackets("[", DottedKey(path), "]");
    NeutralLine(TableHeader(path), "\n");
  }
}
