/**
 SQL text of a database export: splitting it at separators outside quotes, and
 decoding the literals of a row.
 */
module SqlText {
  import opened Wrappers
  import opened PythonText

  const QUOTE: char := '\''

  // ---- splitting ----

  /** The pieces of a text between separators that stand outside quotes. */
  function Split(t: string, separator: char, quoted: bool): seq<string> {
    if t == "" then [""]
    else if t[0] == separator && separator != QUOTE && !quoted then [""] + Split(t[1..], separator, false)
    else Grow([t[0]], Split(t[1..], separator, quoted != (t[0] == QUOTE)))
  }

  function Grow(prefix: string, pieces: seq<string>): seq<string> {
    if pieces == [] then [prefix] else [prefix + pieces[0]] + pieces[1..]
  }

  function Join(pieces: seq<string>, separator: char): string {
    if pieces == [] then ""
    else if |pieces| == 1 then pieces[0]
    else pieces[0] + [separator] + Join(pieces[1..], separator)
  }

  /** Whether a quoted string is open behind a text. */
  function Open(t: string, quoted: bool): bool {
    if t == "" then quoted else Open(t[1..], quoted != (t[0] == QUOTE))
  }

  /** No separator stands outside quotes. */
  predicate Unsplit(t: string, separator: char, quoted: bool) {
    t == "" || ((t[0] != separator || quoted) && Unsplit(t[1..], separator, quoted != (t[0] == QUOTE)))
  }

  /** Pieces that hold their separators inside quotes and close their quotes, the last one perhaps not. */
  predicate Pieces(pieces: seq<string>, separator: char, quoted: bool) {
    pieces != [] && Unsplit(pieces[0], separator, quoted)
    && (|pieces| > 1 ==> !Open(pieces[0], quoted) && Pieces(pieces[1..], separator, false))
  }

  lemma {:induction false} SplitUnsplit(t: string, separator: char, quoted: bool)
    requires Unsplit(t, separator, quoted) && separator != QUOTE
    ensures Split(t, separator, quoted) == [t]
  {
    if t != "" {
      SplitUnsplit(t[1..], separator, quoted != (t[0] == QUOTE));
      assert t == [t[0]] + t[1..];
    }
  }

  lemma {:induction false} SplitAtSeparator(t: string, rest: string, separator: char, quoted: bool)
    requires Unsplit(t, separator, quoted) && !Open(t, quoted) && separator != QUOTE
    ensures Split(t + [separator] + rest, separator, quoted) == [t] + Split(rest, separator, false)
  {
    var whole := t + [separator] + rest;
    if t == "" {
      assert whole[1..] == rest;
    } else {
      assert whole[1..] == t[1..] + [separator] + rest;
      assert t == [t[0]] + t[1..];
      SplitAtSeparator(t[1..], rest, separator, quoted != (t[0] == QUOTE));
    }
  }

  lemma {:induction false} SplitJoin(pieces: seq<string>, separator: char, quoted: bool)
    requires Pieces(pieces, separator, quoted) && separator != QUOTE
    ensures Split(Join(pieces, separator), separator, quoted) == pieces
  {
    if |pieces| == 1 {
      SplitUnsplit(pieces[0], separator, quoted);
    } else {
      SplitAtSeparator(pieces[0], Join(pieces[1..], separator), separator, quoted);
      SplitJoin(pieces[1..], separator, false);
    }
  }

  lemma {:induction false} JoinSplit(t: string, separator: char, quoted: bool)
    requires separator != QUOTE
    ensures Join(Split(t, separator, quoted), separator) == t
    ensures Pieces(Split(t, separator, quoted), separator, quoted)
  {
    if t != "" {
      if t[0] == separator && !quoted {
        JoinSplit(t[1..], separator, false);
      } else {
        JoinSplit(t[1..], separator, quoted != (t[0] == QUOTE));
        GrowJoin(t[0], Split(t[1..], separator, quoted != (t[0] == QUOTE)), separator);
      }
    }
  }

  lemma GrowJoin(c: char, pieces: seq<string>, separator: char)
    requires pieces != []
    ensures Join(Grow([c], pieces), separator) == [c] + Join(pieces, separator)
    ensures Grow([c], pieces)[0][1..] == pieces[0] && Grow([c], pieces)[1..] == pieces[1..]
  {
  }

  /**
   Splitting is the one way to write a text as pieces that keep their separators
   inside quotes: nothing is lost, and no separator inside quotes splits.
   */
  lemma SplitExactly(t: string, separator: char, pieces: seq<string>)
    requires separator != QUOTE
    ensures Split(t, separator, false) == pieces <==> Join(pieces, separator) == t && Pieces(pieces, separator, false)
  {
    JoinSplit(t, separator, false);
    if Pieces(pieces, separator, false) { SplitJoin(pieces, separator, false); }
  }

  // ---- the splitters ----

  function Stripped(pieces: seq<string>): seq<string> {
    if pieces == [] then [] else Stripped(pieces[..|pieces| - 1]) + [Strip(pieces[|pieces| - 1])]
  }

  /** The pieces still to come, from a piece's start and a place inside it. */
  function Rest(text: string, start: nat, index: nat, separator: char, quoted: bool): seq<string>
    requires start <= index <= |text|
  {
    Grow(text[start..index], Split(text[index..], separator, quoted))
  }

  /** The loop both splitters share: it ends with the pieces found and the start of the last one. */
  method Scan(text: string, separator: char) returns (pieces: seq<string>, start: nat)
    requires separator != QUOTE
    ensures start <= |text|
    ensures pieces + [text[start..]] == Split(text, separator, false)
  {
    hide Split, Rest;
    pieces, start := [], 0;
    var index, quoted := 0, false;
    RestEnds(text, 0, separator, false);
    while index < |text|
      invariant start <= index <= |text|
      invariant Split(text, separator, false) == pieces + Rest(text, start, index, separator, quoted)
    {
      if text[index] == QUOTE {
        OneStep(text, start, index, separator, quoted);
        if quoted && index + 1 < |text| && text[index + 1] == QUOTE {
          OneStep(text, start, index + 1, separator, !quoted);
          index := index + 2;
          continue;
        }
        quoted := !quoted;
      } else if text[index] == separator && !quoted {
        CutStep(text, start, index, separator);
        pieces := Found(pieces, text[start..index], Rest(text, index + 1, index + 1, separator, false));
        start := index + 1;
      } else {
        OneStep(text, start, index, separator, quoted);
      }
      index := index + 1;
    }
    RestEnds(text, start, separator, quoted);
  }

  method Found(pieces: seq<string>, piece: string, ghost rest: seq<string>) returns (more: seq<string>)
    ensures more == pieces + [piece] && more + rest == pieces + ([piece] + rest)
  {
    more := pieces + [piece];
  }

  lemma RestEnds(text: string, start: nat, separator: char, quoted: bool)
    requires start <= |text| && separator != QUOTE
    ensures Rest(text, start, |text|, separator, quoted) == [text[start..]]
    ensures Rest(text, 0, 0, separator, quoted) == Split(text, separator, quoted)
  {
    assert text[0..0] == "" && text[0..] == text && text[|text|..] == "";
    JoinSplit(text, separator, quoted);
    var pieces := Split(text, separator, quoted);
    assert pieces == [pieces[0]] + pieces[1..];
    assert "" + pieces[0] == pieces[0];
    assert text[start..|text|] == text[start..] && text[start..] + "" == text[start..];
  }

  lemma OneStep(text: string, start: nat, index: nat, separator: char, quoted: bool)
    requires start <= index < |text| && separator != QUOTE
    requires text[index] == separator ==> quoted
    ensures Rest(text, start, index, separator, quoted)
            == Rest(text, start, index + 1, separator, quoted != (text[index] == QUOTE))
  {
    assert text[index..][1..] == text[index + 1..];
    var rest := Split(text[index + 1..], separator, quoted != (text[index] == QUOTE));
    JoinSplit(text[index + 1..], separator, quoted != (text[index] == QUOTE));
    assert text[start..index] + ([text[index]] + rest[0]) == text[start..index + 1] + rest[0];
  }

  lemma SplitHead(t: string, separator: char)
    requires t != "" && t[0] == separator != QUOTE
    ensures Split(t, separator, false) == [""] + Split(t[1..], separator, false)
  {
  }

  lemma CutStep(text: string, start: nat, index: nat, separator: char)
    requires start <= index < |text| && separator != QUOTE && text[index] == separator
    ensures Rest(text, start, index, separator, false)
            == [text[start..index]] + Rest(text, index + 1, index + 1, separator, false)
  {
    hide Split, Join;
    assert text[index..][1..] == text[index + 1..];
    SplitHead(text[index..], separator);
    var rest := Split(text[index + 1..], separator, false);
    JoinSplit(text[index + 1..], separator, false);
    assert text[index + 1..index + 1] + rest[0] == rest[0] && rest == [rest[0]] + rest[1..];
    assert text[start..index] + "" == text[start..index];
  }

  method SplitSqlCsv(text: string) returns (values: seq<string>)
    ensures values == Stripped(Split(text, ',', false))
  {
    var pieces, start := Scan(text, ',');
    ghost var all := pieces + [text[start..]];
    assert all[..|all| - 1] == pieces;
    values := StripAll(pieces);
    values := values + [Strip(text[start..])];
  }

  method StripAll(pieces: seq<string>) returns (values: seq<string>)
    ensures values == Stripped(pieces)
  {
    values := [];
    for i := 0 to |pieces|
      invariant values == Stripped(pieces[..i])
    {
      assert pieces[..i + 1][..i] == pieces[..i];
      values := values + [Strip(pieces[i])];
    }
    assert pieces[..|pieces|] == pieces;
  }

  /** A text without white space at its end is a statement of its own, an empty rest is none. */
  method SplitSqlStatements(text: string) returns (statements: seq<string>)
    ensures statements == Statements(text)
  {
    var pieces, start := Scan(text, ';');
    ghost var all := pieces + [text[start..]];
    assert all[..|all| - 1] == pieces;
    statements := StripAll(pieces);
    if Strip(text[start..]) != "" {
      statements := statements + [Strip(text[start..])];
    }
  }

  function Statements(text: string): seq<string> {
    var pieces := Split(text, ';', false);
    if pieces == [] then []
    else
      var last := Strip(pieces[|pieces| - 1]);
      Stripped(pieces[..|pieces| - 1]) + if last != "" then [last] else []
  }

  // ---- literals ----

  /** Quoting as it is done on export: every quote doubled, quotes around. */
  function Doubled(s: string): string {
    if s == "" then "" else (if s[0] == QUOTE then [QUOTE, QUOTE] else [s[0]]) + Doubled(s[1..])
  }

  function Quoted(s: string): string { [QUOTE] + Doubled(s) + [QUOTE] }

  /** Pairs of quotes become one, from the left. */
  function Undoubled(s: string): string {
    if s == "" then ""
    else if |s| > 1 && s[0] == QUOTE && s[1] == QUOTE then [QUOTE] + Undoubled(s[2..])
    else [s[0]] + Undoubled(s[1..])
  }

  function Upper(c: char): char { if 'a' <= c <= 'z' then c - 'a' + 'A' else c }

  predicate IsNullWord(s: string) {
    |s| == 4 && Upper(s[0]) == 'N' && Upper(s[1]) == 'U' && Upper(s[2]) == 'L' && Upper(s[3]) == 'L'
  }

  predicate Digits(s: string) { forall i | 0 <= i < |s| :: '0' <= s[i] <= '9' }

  /** Digits around at most one point, with a digit in front of it or behind it. */
  predicate IsBody(body: string) {
    || (body != "" && Digits(body))
    || exists k | 0 <= k < |body| ::
         body[k] == '.' && Digits(body[..k]) && Digits(body[k + 1..]) && |body| > 1
  }

  /** A number, perhaps signed. */
  predicate IsNumber(s: string) { IsBody(if s != "" && (s[0] == '-' || s[0] == '+') then s[1..] else s) }

  function SqlLiteral(value: string): Option<string> {
    var s := Strip(value);
    if IsNullWord(s) then None
    else if |s| >= 2 && s[0] == QUOTE && s[|s| - 1] == QUOTE then Some(Undoubled(s[1..|s| - 1]))
    else if IsNumber(s) then Some(s)
    else None
  }

  lemma {:induction false} UndoubleDouble(s: string)
    ensures Undoubled(Doubled(s)) == s
  {
    if s != "" {
      var d := Doubled(s);
      UndoubleDouble(s[1..]);
      if s[0] == QUOTE {
        assert d[2..] == Doubled(s[1..]);
      } else {
        assert d[1..] == Doubled(s[1..]);
      }
      assert s == [s[0]] + s[1..];
    }
  }

  // ---- what a literal means ----

  predicate DecimalDigits(s: string) { forall c | c in s :: c in "0123456789" }

  /** A sign or none, digits, and a point with further digits or none; one digit at least. */
  predicate Numeral(s: string, sign: string, whole: string, part: Option<string>) {
    && (sign == "" || sign == "+" || sign == "-") && DecimalDigits(whole)
    && match part
       case None => whole != "" && s == sign + whole
       case Some(p) => DecimalDigits(p) && whole + p != "" && s == sign + whole + "." + p
  }

  lemma NumberExactly(s: string)
    ensures IsNumber(s) <==> exists sign, whole, part :: Numeral(s, sign, whole, part)
  {
    if IsNumber(s) { NumberSpelled(s); }
    forall sign, whole, part | Numeral(s, sign, whole, part) ensures IsNumber(s) {
      SpelledNumber(s, sign, whole, part);
    }
  }

  lemma DigitsAgree(s: string)
    ensures Digits(s) <==> DecimalDigits(s)
  {
    forall c: char ensures c in "0123456789" <==> '0' <= c <= '9' { DigitAgrees(c, "0123456789"); }
    if DecimalDigits(s) {
      forall i | 0 <= i < |s| ensures '0' <= s[i] <= '9' { assert s[i] in s; }
    }
  }

  lemma DigitAgrees(c: char, digits: string)
    requires digits == "0123456789"
    ensures c in digits <==> '0' <= c <= '9'
  {
    if '0' <= c <= '9' { assert digits[c as int - '0' as int] == c; }
  }

  lemma NumberSpelled(s: string)
    requires IsNumber(s)
    ensures exists sign, whole, part :: Numeral(s, sign, whole, part)
  {
    hide Digits, Numeral;
    if s != "" && (s[0] == '-' || s[0] == '+') {
      assert s == s[..1] + s[1..] && s[..1] == [s[0]];
      BodySpelled(s, s[..1], s[1..]);
    } else {
      assert s == "" + s;
      BodySpelled(s, "", s);
    }
  }

  lemma BodySpelled(s: string, sign: string, body: string)
    requires s == sign + body && (sign == "" || sign == "+" || sign == "-") && IsBody(body)
    ensures exists whole, part :: Numeral(s, sign, whole, part)
  {
    hide Digits, DecimalDigits;
    if body != "" && Digits(body) {
      DigitsAgree(body);
      assert Numeral(s, sign, body, None);
    } else {
      var k :| 0 <= k < |body| && body[k] == '.' && Digits(body[..k]) && Digits(body[k + 1..]) && |body| > 1;
      PointSpelled(s, sign, body, k, body[..k], body[k + 1..]);
    }
  }

  lemma PointSpelled(s: string, sign: string, body: string, k: nat, whole: string, p: string)
    requires s == sign + body && (sign == "" || sign == "+" || sign == "-") && k < |body| && |body| > 1
    requires body[k] == '.' && whole == body[..k] && p == body[k + 1..] && Digits(whole) && Digits(p)
    ensures Numeral(s, sign, whole, Some(p))
  {
    hide Digits, DecimalDigits;
    DigitsAgree(whole);
    DigitsAgree(p);
    assert body == whole + "." + p;
    Regrouped(sign, whole, ".", p);
  }

  lemma Regrouped(a: string, b: string, c: string, d: string)
    ensures a + (b + c + d) == a + b + c + d
  {
  }

  lemma SpelledNumber(s: string, sign: string, whole: string, part: Option<string>)
    requires Numeral(s, sign, whole, part)
    ensures IsNumber(s)
  {
    DigitsAgree(whole);
    var body := if part.None? then whole else whole + "." + part.value;
    assert s == sign + body;
    assert sign == "" ==> s == body && (body[0] == '.' || '0' <= body[0] <= '9');
    assert sign != "" ==> s[1..] == body && s[0] == sign[0];
    if part.Some? {
      DigitsAgree(part.value);
      var k := |whole|;
      assert body[k] == '.' && body[..k] == whole && body[k + 1..] == part.value;
    }
  }

  function Quotes(n: nat): string { seq(n, i => QUOTE) }

  /** Of a run of quotes half remain, rounded up, and every other character stays. */
  lemma {:induction false} UndoubledRun(n: nat, rest: string)
    requires rest == "" || rest[0] != QUOTE
    ensures Undoubled(Quotes(n) + rest) == Quotes((n + 1) / 2) + Undoubled(rest)
    ensures rest != "" ==> Undoubled(rest) == [rest[0]] + Undoubled(rest[1..])
  {
    if n == 0 {
      assert Quotes(n) + rest == rest && Quotes(0) + Undoubled(rest) == Undoubled(rest);
    } else if n == 1 {
      LoneQuote(rest);
    } else {
      hide Undoubled;
      var u := Undoubled(rest);
      MoreQuotes(n - 2, rest);
      PairOfQuotes(Quotes(n - 2) + rest);
      UndoubledRun(n - 2, rest);
      OneQuote((n - 1) / 2, u);
    }
  }

  lemma MoreQuotes(n: nat, rest: string)
    ensures Quotes(n + 2) + rest == [QUOTE, QUOTE] + (Quotes(n) + rest)
  {
    assert Quotes(n + 2) == [QUOTE, QUOTE] + Quotes(n);
  }

  lemma OneQuote(n: nat, rest: string)
    ensures Quotes(n + 1) + rest == [QUOTE] + (Quotes(n) + rest)
  {
    assert Quotes(n + 1) == [QUOTE] + Quotes(n);
  }

  lemma LoneQuote(rest: string)
    requires rest == "" || rest[0] != QUOTE
    ensures Undoubled(Quotes(1) + rest) == Quotes(1) + Undoubled(rest)
  {
    assert Quotes(1) == [QUOTE];
    assert (Quotes(1) + rest)[1..] == rest;
  }

  lemma PairOfQuotes(rest: string)
    ensures Undoubled([QUOTE, QUOTE] + rest) == [QUOTE] + Undoubled(rest)
  {
    assert ([QUOTE, QUOTE] + rest)[2..] == rest;
  }

  predicate IsQuoted(s: string) { |s| >= 2 && s[0] == QUOTE && s[|s| - 1] == QUOTE }

  /** A literal is a quoted text or a number; NULL and every other word are no value. */
  lemma LiteralExactly(pre: string, core: string, post: string)
    requires AllSpace(pre) && AllSpace(post)
    requires core != "" ==> !IsSpace(core[0]) && !IsSpace(core[|core| - 1])
    ensures SqlLiteral(pre + core + post)
            == if IsQuoted(core) then Some(Undoubled(core[1..|core| - 1]))
               else if exists sign, whole, part :: Numeral(core, sign, whole, part) then Some(core)
               else None
  {
    StripPadded(pre, core, post);
    NumberExactly(core);
    if IsNumber(core) { NumberChars(core); }
  }

  // ---- rows ----

  /** A value as an export writes it, with white space around. */
  datatype Cell = Null(pre: string, post: string)
                | Text(text: string, pre: string, post: string)
                | Number(digits: string, pre: string, post: string)

  predicate IsCell(c: Cell) {
    AllSpace(c.pre) && AllSpace(c.post) && (c.Number? ==> IsNumber(c.digits))
  }

  function Core(c: Cell): string {
    match c
    case Null(_, _) => "NULL"
    case Text(t, _, _) => Quoted(t)
    case Number(d, _, _) => d
  }

  function Written(c: Cell): string { c.pre + Core(c) + c.post }

  function Meaning(c: Cell): Option<string> {
    match c
    case Null(_, _) => None
    case Text(t, _, _) => Some(t)
    case Number(d, _, _) => Some(d)
  }

  function AllWritten(cs: seq<Cell>): seq<string> {
    if cs == [] then [] else [Written(cs[0])] + AllWritten(cs[1..])
  }

  function Meanings(cs: seq<Cell>): seq<Option<string>> {
    if cs == [] then [] else [Meaning(cs[0])] + Meanings(cs[1..])
  }

  function Decoded(values: seq<string>): seq<Option<string>> {
    if values == [] then [] else [SqlLiteral(values[0])] + Decoded(values[1..])
  }

  predicate IsSeparator(c: char) { c == ',' || c == ';' }

  /** A text that no splitter cuts and that leaves no quote open. */
  predicate Self(t: string, separator: char) { Unsplit(t, separator, false) && !Open(t, false) }

  lemma {:induction false} SplitConcat(a: string, b: string, separator: char, quoted: bool)
    ensures Unsplit(a + b, separator, quoted)
            <==> Unsplit(a, separator, quoted) && Unsplit(b, separator, Open(a, quoted))
    ensures Open(a + b, quoted) == Open(b, Open(a, quoted))
  {
    if a == "" {
      assert a + b == b;
    } else {
      assert (a + b)[1..] == a[1..] + b;
      SplitConcat(a[1..], b, separator, quoted != (a[0] == QUOTE));
    }
  }

  lemma {:induction false} PlainSelf(t: string, separator: char)
    requires QUOTE !in t && separator !in t
    ensures Self(t, separator)
  {
    if t != "" { PlainSelf(t[1..], separator); }
  }

  lemma {:induction false} DoubledInside(s: string, separator: char)
    requires separator != QUOTE
    ensures Unsplit(Doubled(s), separator, true) && Open(Doubled(s), true)
  {
    if s != "" {
      DoubledInside(s[1..], separator);
      var first := if s[0] == QUOTE then [QUOTE, QUOTE] else [s[0]];
      FirstInside(s[0], first, separator);
      SplitConcat(first, Doubled(s[1..]), separator, true);
    }
  }

  lemma FirstInside(c: char, first: string, separator: char)
    requires first == (if c == QUOTE then [QUOTE, QUOTE] else [c]) && separator != QUOTE
    ensures Unsplit(first, separator, true) && Open(first, true)
  {
    if c == QUOTE {
      assert first[1..] == [QUOTE] && first[1..][1..] == "";
    } else {
      assert first[1..] == "";
    }
  }

  lemma QuotedSelf(s: string, separator: char)
    requires separator != QUOTE
    ensures Self(Quoted(s), separator)
  {
    DoubledInside(s, separator);
    SplitConcat(Doubled(s), [QUOTE], separator, true);
    assert [QUOTE][1..] == "";
    assert Quoted(s)[1..] == Doubled(s) + [QUOTE];
  }

  lemma {:induction false} SelfConcat(a: string, b: string, separator: char)
    requires Self(a, separator) && Self(b, separator)
    ensures Self(a + b, separator)
  {
    SplitConcat(a, b, separator, false);
  }

  lemma NumberChars(s: string)
    requires IsNumber(s)
    ensures QUOTE !in s && (forall c | c in s :: !IsSpace(c) && !IsSeparator(c)) && s != "" && !IsNullWord(s)
  {
    var body := if s[0] == '-' || s[0] == '+' then s[1..] else s;
    if body != "" && Digits(body) {
      BodyChars(s, body);
    } else {
      var k :| 0 <= k < |body| && body[k] == '.' && Digits(body[..k]) && Digits(body[k + 1..]) && |body| > 1;
      PointChars(body, k, body[..k], body[k + 1..]);
      BodyChars(s, body);
    }
  }

  lemma PointChars(body: string, k: nat, whole: string, part: string)
    requires k < |body| && body[k] == '.' && whole == body[..k] && part == body[k + 1..]
    requires Digits(whole) && Digits(part)
    ensures forall i | 0 <= i < |body| :: '0' <= body[i] <= '9' || body[i] == '.'
  {
    forall i | 0 <= i < |body| ensures '0' <= body[i] <= '9' || body[i] == '.' {
      if i < k {
        assert body[i] == whole[i];
      } else if i > k {
        assert body[i] == part[i - k - 1];
      }
    }
  }

  lemma BodyChars(s: string, body: string)
    requires s != "" && body != "" && body == if s[0] == '-' || s[0] == '+' then s[1..] else s
    requires forall i | 0 <= i < |body| :: '0' <= body[i] <= '9' || body[i] == '.'
    ensures QUOTE !in s && (forall c | c in s :: !IsSpace(c) && !IsSeparator(c)) && !IsNullWord(s)
  {
    forall i | 0 <= i < |s| ensures s[i] in "+-." || '0' <= s[i] <= '9' {
      if body != s && i > 0 { assert s[i] == body[i - 1]; }
    }
    assert s[|s| - 1] == body[|body| - 1];
  }

  /** What one cell decodes to, and that no splitter cuts it. */
  lemma CellRoundTrip(c: Cell, separator: char)
    requires IsCell(c) && IsSeparator(separator)
    ensures SqlLiteral(Strip(Written(c))) == Meaning(c) && Self(Written(c), separator)
  {
    CoreEnds(c);
    StripPadded(c.pre, Core(c), c.post);
    StripPadded("", Core(c), "");
    assert "" + Core(c) + "" == Core(c);
    CoreSelf(c, separator);
    SpaceSelf(c.pre, separator);
    SpaceSelf(c.post, separator);
    SelfConcat(c.pre, Core(c), separator);
    SelfConcat(c.pre + Core(c), c.post, separator);
    CoreLiteral(c);
  }

  lemma SpaceSelf(t: string, separator: char)
    requires AllSpace(t) && IsSeparator(separator)
    ensures Self(t, separator)
  {
    PlainSelf(t, separator);
  }

  lemma CoreEnds(c: Cell)
    requires IsCell(c)
    ensures var core := Core(c); core != "" && !IsSpace(core[0]) && !IsSpace(core[|core| - 1])
  {
    if c.Number? { NumberChars(c.digits); }
  }

  lemma CoreSelf(c: Cell, separator: char)
    requires IsCell(c) && IsSeparator(separator)
    ensures Self(Core(c), separator)
  {
    match c
    case Null(_, _) => PlainSelf(Core(c), separator);
    case Text(t, _, _) => QuotedSelf(t, separator);
    case Number(d, _, _) => NumberChars(d); PlainSelf(d, separator);
  }

  lemma CoreLiteral(c: Cell)
    requires IsCell(c) && Strip(Core(c)) == Core(c)
    ensures SqlLiteral(Core(c)) == Meaning(c)
  {
    match c
    case Null(_, _) =>
    case Text(t, _, _) =>
      assert Quoted(t)[0] == QUOTE && Quoted(t)[|Quoted(t)| - 1] == QUOTE;
      assert Quoted(t)[1..|Quoted(t)| - 1] == Doubled(t);
      UndoubleDouble(t);
    case Number(d, _, _) =>
      NumberChars(d);
      assert d[0] in d;
  }

  lemma {:induction false} CellsPieces(cs: seq<Cell>, separator: char)
    requires cs != [] && IsSeparator(separator) && forall i | 0 <= i < |cs| :: IsCell(cs[i])
    ensures Pieces(AllWritten(cs), separator, false) && Self(Join(AllWritten(cs), separator), if separator == ',' then ';' else ',')
  {
    var other := if separator == ',' then ';' else ',';
    CellRoundTrip(cs[0], separator);
    CellRoundTrip(cs[0], other);
    if |cs| > 1 {
      CellsPieces(cs[1..], separator);
      var rest := Join(AllWritten(cs[1..]), separator);
      assert AllWritten(cs)[1..] == AllWritten(cs[1..]);
      PlainSelf([separator], other);
      SelfConcat(Written(cs[0]), [separator], other);
      SelfConcat(Written(cs[0]) + [separator], rest, other);
    }
  }

  lemma {:induction false} DecodedStripped(cs: seq<Cell>, pieces: seq<string>)
    requires pieces == AllWritten(cs) && forall i | 0 <= i < |cs| :: IsCell(cs[i])
    ensures Decoded(Stripped(pieces)) == Meanings(cs)
  {
    if cs != [] {
      CellRoundTrip(cs[0], ',');
      DecodedStripped(cs[1..], pieces[1..]);
      StrippedHead(pieces);
    }
  }

  lemma {:induction false} StrippedHead(pieces: seq<string>)
    requires pieces != []
    ensures Stripped(pieces) == [Strip(pieces[0])] + Stripped(pieces[1..])
  {
    if |pieces| > 1 {
      StrippedHead(pieces[..|pieces| - 1]);
      assert pieces[..|pieces| - 1][1..] == pieces[1..][..|pieces| - 2];
    }
  }

  /** Reading the row that was written gives its values back, exactly when there is one. */
  lemma RowRoundTrip(cs: seq<Cell>)
    requires forall i | 0 <= i < |cs| :: IsCell(cs[i])
    ensures Decoded(Stripped(Split(Join(AllWritten(cs), ','), ',', false))) == Meanings(cs) <==> cs != []
  {
    if cs == [] {
      assert Stripped([""]) == [Strip("")];
    } else {
      CellsPieces(cs, ',');
      SplitJoin(AllWritten(cs), ',', false);
      DecodedStripped(cs, AllWritten(cs));
    }
  }

  // ---- statements ----

  /** A statement inserting one row, from its text up to the opening bracket of the values. */
  function Insert(head: string, cs: seq<Cell>): string { head + Join(AllWritten(cs), ',') + ")" }

  /** Whatever the values hold, the statement inserting them is not split. */
  lemma InsertSelf(head: string, cs: seq<Cell>)
    requires Self(head, ';') && cs != [] && forall i | 0 <= i < |cs| :: IsCell(cs[i])
    ensures Self(Insert(head, cs), ';')
  {
    CellsPieces(cs, ',');
    PlainSelf(")", ';');
    SelfConcat(head, Join(AllWritten(cs), ','), ';');
    SelfConcat(head + Join(AllWritten(cs), ','), ")", ';');
  }

  predicate IsStatement(t: string) {
    Self(t, ';') && t != "" && !IsSpace(t[0]) && !IsSpace(t[|t| - 1])
  }

  /** Statements, each with its semicolon and white space behind it. */
  function Dump(statements: seq<string>, gap: string): string {
    if statements == [] then "" else statements[0] + [';'] + (gap + Dump(statements[1..], gap))
  }

  /** Splitting a dump gives its statements back. */
  lemma DumpRoundTrip(statements: seq<string>, gap: string)
    requires AllSpace(gap) && forall i | 0 <= i < |statements| :: IsStatement(statements[i])
    ensures Statements(Dump(statements, gap)) == statements
  {
    var pieces := DumpPieces(statements, gap, "");
    assert "" + Dump(statements, gap) == Dump(statements, gap);
    var last := pieces[|pieces| - 1];
    StripPadded(last, "", "");
    assert last + "" + "" == last;
  }

  /** The pieces of a dump behind the white space before it. */
  lemma {:induction false} DumpPieces(statements: seq<string>, gap: string, before: string) returns (pieces: seq<string>)
    requires AllSpace(gap) && AllSpace(before)
    requires forall i | 0 <= i < |statements| :: IsStatement(statements[i])
    ensures pieces == Split(before + Dump(statements, gap), ';', false)
    ensures pieces != [] && AllSpace(pieces[|pieces| - 1])
    ensures Stripped(pieces[..|pieces| - 1]) == statements
  {
    hide Split, Strip;
    SpaceSelf(before, ';');
    if statements == [] {
      assert before + Dump(statements, gap) == before;
      SplitUnsplit(before, ';', false);
      pieces := [before];
    } else {
      var t := before + statements[0];
      var rest := gap + Dump(statements[1..], gap);
      SelfConcat(before, statements[0], ';');
      SplitAtSeparator(t, rest, ';', false);
      assert before + Dump(statements, gap) == t + [';'] + rest;
      var more := DumpPieces(statements[1..], gap, gap);
      pieces := [t] + more;
      StripBefore(before, statements[0], t);
      OneMorePiece(pieces, more, statements);
    }
  }

  lemma StripBefore(before: string, statement: string, t: string)
    requires AllSpace(before) && IsStatement(statement) && t == before + statement
    ensures Strip(t) == statement
  {
    StripPadded(before, statement, "");
    assert before + statement + "" == t;
  }

  lemma OneMorePiece(pieces: seq<string>, more: seq<string>, statements: seq<string>)
    requires more != [] && statements != [] && |pieces| == |more| + 1 && pieces[1..] == more
    requires Strip(pieces[0]) == statements[0] && Stripped(more[..|more| - 1]) == statements[1..]
    ensures Stripped(pieces[..|pieces| - 1]) == statements
  {
    var all := pieces[..|pieces| - 1];
    assert all[0] == pieces[0];
    assert all[1..] == more[..|more| - 1];
    StrippedHead(all);
    assert statements == [statements[0]] + statements[1..];
  }
}
