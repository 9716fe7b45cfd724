/** Reading values back: a reader for values on one line, and that it finds in the written text what was set. */
module TomlReadback {
  import opened Wrappers
  import opened PythonText
  import opened TomlKeys
  import opened TomlValues

  // ---- the reader (TOML 1.0.0, values, but for dates, separated and prefixed numbers and multi-line strings) ----

  datatype ValuePart = ValuePart(value: Value, rest: string)

  datatype ItemsPart = ItemsPart(items: seq<Value>, rest: string)

  datatype PairPart = PairPart(pair: Pair, rest: string)

  datatype PairsPart = PairsPart(pairs: seq<Pair>, rest: string)

  function Digits(s: string): Option<nat>
    decreases |s|
  {
    if s == "" then Some(0)
    else
      var front, c := Digits(s[..|s| - 1]), s[|s| - 1];
      if front.Some? && '0' <= c <= '9' then Some(10 * front.value + (c as nat - '0' as nat)) else None
  }

  /** The numerals at the start of a text. */
  function Numerals(s: string): (n: nat)
    ensures n <= |s| && forall i | 0 <= i < n :: IsNumeral(s[i])
  {
    if s == "" || !IsNumeral(s[0]) then 0 else 1 + Numerals(s[1..])
  }

  function NumberOf(s: string): Option<Value> {
    var digits := if s != "" && (s[0] == '-' || s[0] == '+') then s[1..] else s;
    if digits != "" && Digits(digits).Some? then
      var n: int := Digits(digits).value;
      Some(Integer(if s[0] == '-' then -n else n))
    else if ('.' in s || 'e' in s) && forall i | 0 <= i < |s| :: IsNumeral(s[i]) then Some(Float(s))
    else None
  }

  function ReadNumber(s: string): (r: Option<ValuePart>)
    ensures r.Some? ==> |r.value.rest| < |s|
  {
    var n := Numerals(s);
    var v := if n == 0 then None else NumberOf(s[..n]);
    if v.None? then None else Some(ValuePart(v.value, s[n..]))
  }

  function ReadValue(s: string): (r: Option<ValuePart>)
    ensures r.Some? ==> |r.value.rest| < |s|
    decreases |s|, 0
  {
    if s == "" then None
    else if s[0] == '"' then
      var t := DecodeBasic(s[1..]);
      if t.None? then None else Some(ValuePart(String(t.value.key), t.value.rest))
    else if s[0] == '[' then
      var items := ReadItems(s[1..]);
      if items.None? then None else Some(ValuePart(List(items.value.items), items.value.rest))
    else if s[0] == '{' then
      var pairs := ReadPairs(s[1..], true);
      if pairs.None? then None else Some(ValuePart(Table(pairs.value.pairs), pairs.value.rest))
    else if |s| >= 4 && s[..4] == "true" then Some(ValuePart(Boolean(true), s[4..]))
    else if |s| >= 5 && s[..5] == "false" then Some(ValuePart(Boolean(false), s[5..]))
    else ReadNumber(s)
  }

  /** The values of an array up to its closing bracket; a comma may stand behind the last one. */
  function ReadItems(s: string): (r: Option<ItemsPart>)
    ensures r.Some? ==> |r.value.rest| < |s|
    decreases |s|, 2
  {
    var t := SkipBlank(s);
    if t != "" && t[0] == ']' then Some(ItemsPart([], t[1..]))
    else
      var v := ReadValue(t);
      if v.None? then None
      else
        var u := SkipBlank(v.value.rest);
        if u == "" then None
        else if u[0] == ']' then Some(ItemsPart([v.value.value], u[1..]))
        else if u[0] != ',' then None
        else
          var more := ReadItems(u[1..]);
          if more.None? then None else Some(ItemsPart([v.value.value] + more.value.items, more.value.rest))
  }

  function ReadPair(s: string): (r: Option<PairPart>)
    ensures r.Some? ==> |r.value.rest| < |s|
    decreases |s|, 1
  {
    var k := ReadKey(s);
    if k.None? then None
    else
      var t := SkipBlank(k.value.rest);
      if t == "" || t[0] != '=' then None
      else
        var v := ReadValue(SkipBlank(t[1..]));
        if v.None? then None else Some(PairPart(Pair(Text(k.value.key), v.value.value), v.value.rest))
  }

  /** The pairs of an inline table up to its closing brace, which no comma may precede. */
  function ReadPairs(s: string, first: bool): (r: Option<PairsPart>)
    ensures r.Some? ==> |r.value.rest| < |s|
    decreases |s|, 2
  {
    var t := SkipBlank(s);
    if first && t != "" && t[0] == '}' then Some(PairsPart([], t[1..]))
    else
      var p := ReadPair(t);
      if p.None? then None
      else
        var u := SkipBlank(p.value.rest);
        if u == "" then None
        else if u[0] == '}' then Some(PairsPart([p.value.pair], u[1..]))
        else if u[0] != ',' then None
        else
          var more := ReadPairs(u[1..], false);
          if more.None? then None else Some(PairsPart([p.value.pair] + more.value.pairs, more.value.rest))
  }

  // ---- what is written ----

  /** No string and no key in the value holds a DEL. */
  predicate NoDelete(v: Value)
    decreases v, 0
  {
    match v
    case String(s) => DELETE !in s
    case List(items) => NoneDeletes(items)
    case Table(pairs) => NoPairDeletes(pairs)
    case _ => true
  }

  predicate NoneDeletes(items: seq<Value>)
    decreases items, 1
  {
    items == [] || (NoDelete(items[0]) && NoneDeletes(items[1..]))
  }

  predicate NoPairDeletes(pairs: seq<Pair>)
    decreases pairs, 2
  {
    pairs == [] || (NoPairDelete(pairs[0]) && NoPairDeletes(pairs[1..]))
  }

  predicate NoPairDelete(p: Pair)
    decreases p, 1
  {
    p.name.Text? && DELETE !in p.name.text && NoDelete(p.value)
  }

  /** What may stand behind a value. */
  predicate Ends(rest: string) { rest == "" || !IsNumeral(rest[0]) }

  /** No blank, comma or closing bracket, so the reader takes a value here. */
  predicate Begins(s: string) { s != "" && s[0] !in " \t,]}" }

  // ---- numbers ----

  lemma {:induction false} DecimalDigits(n: nat)
    ensures Digits(Decimal(n)) == Some(n) && Decimal(n) != "" && '0' <= Decimal(n)[0] <= '9'
  {
    if n >= 10 {
      DecimalDigits(n / 10);
      var s := Decimal(n);
      assert s[..|s| - 1] == Decimal(n / 10) && s[0] == Decimal(n / 10)[0];
      LastDigit(n);
    } else {
      SmallDigit(n);
    }
  }

  lemma LastDigit(n: nat)
    requires n >= 10
    ensures var c := Decimal(n)[|Decimal(n)| - 1];
            '0' <= c <= '9' && 10 * (n / 10) + (c as nat - '0' as nat) == n
  {
  }

  lemma SmallDigit(n: nat)
    requires n < 10
    ensures Digits(Decimal(n)) == Some(n) && '0' <= Decimal(n)[0] <= '9'
  {
    assert Decimal(n)[..0] == "";
  }

  lemma IntegerRead(n: int)
    ensures NumberOf(IntegerText(n)) == Some(Integer(n)) && Begins(IntegerText(n)) && IsNumeral(IntegerText(n)[0])
  {
    hide Decimal, Digits;
    DecimalDigits(if n < 0 then -n else n);
    if n < 0 { assert ("-" + Decimal(-n))[1..] == Decimal(-n); }
  }

  lemma {:induction false} FloatIsNoInteger(s: string)
    requires '.' in s || 'e' in s
    ensures Digits(s).None?
    decreases |s|
  {
    if s != "" && s[|s| - 1] != '.' && s[|s| - 1] != 'e' {
      assert s == s[..|s| - 1] + [s[|s| - 1]];
      FloatIsNoInteger(s[..|s| - 1]);
    }
  }

  lemma FloatRead(s: FloatText)
    ensures NumberOf(s) == Some(Float(s)) && s != "" && Begins(s)
  {
    hide Digits;
    FloatIsNoInteger(s);
    if s[0] == '-' || s[0] == '+' {
      assert s == [s[0]] + s[1..];
      FloatIsNoInteger(s[1..]);
    }
  }

  lemma {:induction false} NumeralsEnd(s: string, rest: string)
    requires Ends(rest) && forall i | 0 <= i < |s| :: IsNumeral(s[i])
    ensures Numerals(s + rest) == |s|
  {
    hide IsNumeral;
    if s == "" {
      assert s + rest == rest;
    } else {
      assert (s + rest)[1..] == s[1..] + rest;
      NumeralsEnd(s[1..], rest);
    }
  }

  /** A number is read where nothing behind it continues it. */
  lemma NumberRead(s: string, v: Value, rest: string)
    requires s != "" && NumberOf(s) == Some(v) && Ends(rest) && forall i | 0 <= i < |s| :: IsNumeral(s[i])
    ensures ReadValue(s + rest) == Some(ValuePart(v, rest))
  {
    hide IsNumeral, NumberOf;
    NumeralsEnd(s, rest);
    assert (s + rest)[..|s|] == s && (s + rest)[|s|..] == rest;
    NumeralFirst(s[0]);
    var t := s + rest;
    assert t[0] == s[0];
    NoWord(t, "true");
    NoWord(t, "false");
  }

  lemma NoWord(t: string, word: string)
    requires t != "" && word != "" && t[0] != word[0]
    ensures !(|t| >= |word| && t[..|word|] == word)
  {
  }

  lemma NumeralFirst(c: char)
    requires IsNumeral(c)
    ensures c !in "\"[{tf"
  {
  }

  // ---- values ----

  lemma WordRead(b: bool, rest: string)
    ensures var word := if b then "true" else "false";
            ReadValue(word + rest) == Some(ValuePart(Boolean(b), rest)) && Begins(word)
  {
    var word := if b then "true" else "false";
    var t := word + rest;
    assert t[..|word|] == word && t[|word|..] == rest && t[0] == word[0];
    if !b { NoWord(t, "true"); }
  }

  lemma StringRead(s: string, rest: string)
    ensures ReadValue(JsonString(s) + rest) == if DELETE in s then None else Some(ValuePart(String(s), rest))
  {
    DecodeJson(s, rest);
    Quoted(JsonBody(s), "\"", rest);
  }

  lemma Quoted(body: string, quote: string, rest: string)
    requires quote == "\""
    ensures var t := quote + body + quote + rest; t[0] == '"' && t[1..] == body + quote + rest
  {
  }

  /** A value is read back from its text exactly when it holds no DEL, whatever is written behind it. */
  lemma {:induction false} ValueRead(v: Value, rest: string)
    requires Render(v).Success? && Ends(rest)
    ensures Begins(Render(v).value)
    ensures ReadValue(Render(v).value + rest) == if NoDelete(v) then Some(ValuePart(v, rest)) else None
    decreases v, 0
  {
    hide IsNumeral, ReadValue, ReadNumber, NumberOf, JsonString, IntegerText;
    match v
    case Boolean(b) => WordRead(b, rest);
    case Integer(n) =>
      IntegerRead(n);
      IntegerNumerals(n);
      NumberRead(IntegerText(n), v, rest);
    case Float(text) =>
      FloatRead(text);
      NumberRead(text, v, rest);
    case String(s) =>
      StringRead(s, rest);
      StringBegins(s);
    case List(items) =>
      ItemsRead(items, rest);
      Bracketed('[', Joined(RenderItems(items).value), "]", rest);
      ListRead(Joined(RenderItems(items).value) + ("]" + rest));
    case Table(pairs) =>
      PairsRead(pairs, rest);
      Braced("{ ", Joined(RenderPairs(pairs).value), " }", rest);
      TableRead(" " + Joined(RenderPairs(pairs).value) + " " + ("}" + rest));
  }

  lemma IntegerNumerals(n: int)
    ensures forall i | 0 <= i < |IntegerText(n)| :: IsNumeral(IntegerText(n)[i])
  {
    DecimalNumerals(if n < 0 then -n else n);
  }

  lemma StringBegins(s: string)
    ensures Begins(JsonString(s))
  {
    assert JsonString(s)[0] == '"';
  }

  lemma Bracketed(open: char, inner: string, close: string, rest: string)
    ensures [open] + inner + close + rest == [open] + (inner + (close + rest))
  {
  }

  lemma Braced(open: string, inner: string, close: string, rest: string)
    requires open == "{ " && close == " }"
    ensures open + inner + close + rest == "{" + (" " + inner + " " + ("}" + rest)) && Begins(open + inner + close)
  {
    assert open == "{" + " " && close == " " + "}";
    assert (open + inner + close)[0] == '{';
  }

  lemma ListRead(inner: string)
    ensures ReadValue("[" + inner)
            == var items := ReadItems(inner);
               if items.None? then None else Some(ValuePart(List(items.value.items), items.value.rest))
  {
    assert ("[" + inner)[1..] == inner;
  }

  lemma TableRead(inner: string)
    ensures ReadValue("{" + inner)
            == var pairs := ReadPairs(inner, true);
               if pairs.None? then None else Some(ValuePart(Table(pairs.value.pairs), pairs.value.rest))
  {
    assert ("{" + inner)[1..] == inner;
  }

  /** The first value of an array, and what stands behind it. */
  lemma ItemsStep(text: string, v: Value, mark: char, rest: string, ok: bool)
    requires Begins(text) && (mark == ',' || mark == ']')
    requires ReadValue(text + ([mark] + rest)) == if ok then Some(ValuePart(v, [mark] + rest)) else None
    ensures ReadItems(text + ([mark] + rest))
            == if !ok then None
               else if mark == ']' then Some(ItemsPart([v], rest))
               else var more := ReadItems(rest);
                    if more.None? then None else Some(ItemsPart([v] + more.value.items, more.value.rest))
  {
    hide ReadValue;
    var s := text + ([mark] + rest);
    assert s[0] == text[0];
    assert SkipBlank([mark] + rest) == [mark] + rest && ([mark] + rest)[1..] == rest;
  }

  lemma ItemsBlank(s: string)
    ensures ReadItems(" " + s) == ReadItems(s)
  {
    hide ReadValue;
    assert (" " + s)[1..] == s;
  }

  lemma MarkEnds(mark: char, rest: string)
    requires mark == ',' || mark == ']' || mark == ' '
    ensures Ends([mark] + rest)
  {
  }

  lemma {:induction false} ItemsRead(items: seq<Value>, rest: string)
    requires RenderItems(items).Success?
    ensures ReadItems(Joined(RenderItems(items).value) + ("]" + rest))
            == if NoneDeletes(items) then Some(ItemsPart(items, rest)) else None
    decreases items, 1
  {
    hide ReadItems, ReadValue, Begins, Ends, Render, NoDelete;
    var parts := RenderItems(items).value;
    if items == [] {
      NoItems(rest);
      assert Joined(parts) + ("]" + rest) == "]" + rest;
    } else {
      var tail := RenderItems(items[1..]).value;
      assert parts == [Render(items[0]).value] + tail;
      if |items| == 1 {
        MarkEnds(']', rest);
        ValueRead(items[0], "]" + rest);
        ItemsStep(parts[0], items[0], ']', rest, NoDelete(items[0]));
        assert items == [items[0]];
      } else {
        var more := Joined(tail) + ("]" + rest);
        MarkEnds(',', " " + more);
        ValueRead(items[0], "," + (" " + more));
        ItemsStep(parts[0], items[0], ',', " " + more, NoDelete(items[0]));
        ItemsBlank(more);
        ItemsRead(items[1..], rest);
        Comma(parts[0], ", ", Joined(tail), "]" + rest);
        assert items == [items[0]] + items[1..];
      }
    }
  }

  lemma NoItems(rest: string)
    ensures ReadItems("]" + rest) == Some(ItemsPart([], rest))
  {
    assert ("]" + rest)[1..] == rest;
  }

  lemma Comma(a: string, comma: string, b: string, c: string)
    requires comma == ", "
    ensures a + comma + b + c == a + ("," + (" " + (b + c)))
  {
    assert comma == "," + " ";
  }

  // ---- inline tables ----

  lemma PairRead(p: Pair, rest: string)
    requires RenderPair(p).Success? && Ends(rest)
    ensures Begins(RenderPair(p).value)
    ensures ReadPair(RenderPair(p).value + rest) == if NoPairDelete(p) then Some(PairPart(p, rest)) else None
    decreases p, 1
  {
    hide ReadValue, Render, NoDelete, IsNumeral, TomlKey, ReadKey;
    var k, value := p.name.text, Render(p.value).value;
    ValueRead(p.value, rest);
    var tail := " = " + (value + rest);
    ReadWritten(k, tail);
    KeyBegins(k, " = " + value);
    assert TomlKey(k) + " = " + value + rest == TomlKey(k) + tail;
    assert TomlKey(k) + " = " + value == TomlKey(k) + (" = " + value);
    Equals(tail, value + rest);
    assert (value + rest)[0] == value[0];
    assert p == Pair(Text(k), p.value);
  }

  lemma KeyBegins(k: string, rest: string)
    ensures Begins(TomlKey(k) + rest)
  {
    FirstOfKey(k);
    assert (TomlKey(k) + rest)[0] == TomlKey(k)[0];
  }

  lemma Equals(tail: string, rest: string)
    requires tail == " = " + rest && Begins(rest)
    ensures tail != "" && !IsBare(tail[0]) && SkipBlank(tail) != "" && SkipBlank(tail)[0] == '='
    ensures SkipBlank(SkipBlank(tail)[1..]) == rest
  {
    assert tail[1..] == "= " + rest && ("= " + rest)[1..] == " " + rest && (" " + rest)[1..] == rest;
  }

  lemma PairsStep(text: string, p: Pair, behind: string, mark: char, rest: string, ok: bool, first: bool)
    requires Begins(text) && (mark == ',' || mark == '}') && SkipBlank(behind) == [mark] + rest
    requires ReadPair(text + behind) == if ok then Some(PairPart(p, behind)) else None
    ensures ReadPairs(text + behind, first)
            == if !ok then None
               else if mark == '}' then Some(PairsPart([p], rest))
               else var more := ReadPairs(rest, false);
                    if more.None? then None else Some(PairsPart([p] + more.value.pairs, more.value.rest))
  {
    hide ReadPair;
    var s := text + behind;
    assert s[0] == text[0] && SkipBlank(s) == s;
    assert ([mark] + rest)[1..] == rest;
  }

  lemma PairsBlank(s: string, first: bool)
    ensures ReadPairs(" " + s, first) == ReadPairs(s, first)
  {
    hide ReadPair;
    assert (" " + s)[1..] == s;
  }

  lemma PairsEnd(rest: string)
    ensures SkipBlank(" " + ("}" + rest)) == ['}'] + rest
  {
    assert (" " + ("}" + rest))[1..] == "}" + rest;
  }

  lemma {:induction false} PairsRead(pairs: seq<Pair>, rest: string)
    requires RenderPairs(pairs).Success?
    ensures ReadPairs(" " + Joined(RenderPairs(pairs).value) + " " + ("}" + rest), true)
            == if NoPairDeletes(pairs) then Some(PairsPart(pairs, rest)) else None
    decreases pairs, 3
  {
    hide ReadPairs, ReadPair, RenderPair, RenderPairs, NoPairDelete;
    var text := Joined(RenderPairs(pairs).value);
    var behind := " " + ("}" + rest);
    assert " " + text + " " + ("}" + rest) == " " + (text + behind);
    PairsBlank(text + behind, true);
    if pairs == [] { NoPairs(rest); } else { PairsFrom(pairs, rest, true); }
  }

  lemma NoPairs(rest: string)
    ensures RenderPairs([]) == Success([])
    ensures ReadPairs(Joined([]) + (" " + ("}" + rest)), true) == Some(PairsPart([], rest))
  {
    hide ReadPair;
    PairsEnd(rest);
    assert Joined([]) + (" " + ("}" + rest)) == " " + ("}" + rest);
    assert (['}'] + rest)[1..] == rest;
  }

  lemma {:induction false} PairsFrom(pairs: seq<Pair>, rest: string, first: bool)
    requires RenderPairs(pairs).Success? && pairs != []
    ensures ReadPairs(Joined(RenderPairs(pairs).value) + (" " + ("}" + rest)), first)
            == if NoPairDeletes(pairs) then Some(PairsPart(pairs, rest)) else None
    decreases pairs, 2
  {
    hide ReadPairs, ReadPair, Begins, Ends, RenderPair, NoPairDelete, SkipBlank;
    var parts, behind := RenderPairs(pairs).value, " " + ("}" + rest);
    var tail := RenderPairs(pairs[1..]).value;
    assert parts == [RenderPair(pairs[0]).value] + tail;
    if |pairs| == 1 {
      MarkEnds(' ', "}" + rest);
      PairRead(pairs[0], behind);
      PairsEnd(rest);
      PairsStep(parts[0], pairs[0], behind, '}', rest, NoPairDelete(pairs[0]), first);
      assert pairs == [pairs[0]];
    } else {
      var more := Joined(tail) + behind;
      MarkEnds(',', " " + more);
      PairRead(pairs[0], "," + (" " + more));
      CommaNext(" " + more);
      PairsStep(parts[0], pairs[0], "," + (" " + more), ',', " " + more, NoPairDelete(pairs[0]), first);
      PairsBlank(more, false);
      PairsFrom(pairs[1..], rest, false);
      Comma(parts[0], ", ", Joined(tail), behind);
      assert pairs == [pairs[0]] + pairs[1..];
    }
  }

  lemma CommaNext(rest: string)
    ensures SkipBlank("," + rest) == [','] + rest
  {
  }

  /** A written assignment is read as its key and its value. */
  lemma AssignmentRead(key: string, v: Value, rest: string)
    requires Render(v).Success? && Ends(rest)
    ensures ReadPair(Assignment(key, Render(v).value) + rest)
            == if DELETE !in key && NoDelete(v) then Some(PairPart(Pair(Text(key), v), rest)) else None
  {
    PairRead(Pair(Text(key), v), rest);
  }
}
