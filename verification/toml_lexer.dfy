/**
 The hand-written lexer that cuts a TOML document into statements.

 React is one iteration of the source's loop; Scanner repeats it.  A span is a
 statement, and closing a span is reaching the newline that ends one.
 */
module TomlLexer {
  import opened Wrappers
  import opened Scanner

  datatype Quote = NoQuote | Basic | Literal | MultiBasic | MultiLiteral

  /** What the loop remembers besides where the current statement started. */
  datatype Mode = Mode(square: nat, curly: nat, quote: Quote, escaped: bool, comment: bool)

  const CALM := Mode(0, 0, NoQuote, false, false)
  const INIT := State(None, CALM)

  predicate IsNewline(c: char) { c == '\r' || c == '\n' }

  predicate IsBlank(c: char) { c == ' ' || c == '\t' || IsNewline(c) }

  function Pred(n: nat): nat { if n == 0 then 0 else n - 1 }

  /** The character c and the two after it are all q. */
  predicate Triple(c: char, c1: Option<char>, c2: Option<char>, q: char) {
    c == q && c1 == Some(q) && c2 == Some(q)
  }

  function ReactInString(c: char, c1: Option<char>, c2: Option<char>, m: Mode, open: bool): Reaction<Mode>
    requires m.quote != NoQuote
  {
    match m.quote
    case Basic =>
      if m.escaped then Reaction(m.(escaped := false), 1, open, false)
      else if c == '\\' then Reaction(m.(escaped := true), 1, open, false)
      else if c == '"' then Reaction(m.(quote := NoQuote), 1, open, false)
      else Reaction(m, 1, open, false)
    case Literal =>
      Reaction(if c == '\'' then m.(quote := NoQuote) else m, 1, open, false)
    case MultiBasic =>
      if m.escaped then Reaction(m.(escaped := false), 1, open, false)
      else if c == '\\' then Reaction(m.(escaped := true), 1, open, false)
      else if Triple(c, c1, c2, '"') then Reaction(m.(quote := NoQuote), 3, open, false)
      else Reaction(m, 1, open, false)
    case MultiLiteral =>
      if Triple(c, c1, c2, '\'') then Reaction(m.(quote := NoQuote), 3, open, false)
      else Reaction(m, 1, open, false)
  }

  function ReactInStatement(c: char, c1: Option<char>, c2: Option<char>, m: Mode): Reaction<Mode> {
    if Triple(c, c1, c2, '"') then Reaction(m.(quote := MultiBasic), 3, true, false)
    else if Triple(c, c1, c2, '\'') then Reaction(m.(quote := MultiLiteral), 3, true, false)
    else if c == '"' then Reaction(m.(quote := Basic), 1, true, false)
    else if c == '\'' then Reaction(m.(quote := Literal), 1, true, false)
    else if c == '[' then Reaction(m.(square := m.square + 1), 1, true, false)
    else if c == ']' then Reaction(m.(square := Pred(m.square)), 1, true, false)
    else if c == '{' then Reaction(m.(curly := m.curly + 1), 1, true, false)
    else if c == '}' then Reaction(m.(curly := Pred(m.curly)), 1, true, false)
    else if IsNewline(c) && m.square == 0 && m.curly == 0 then
      Reaction(m, if c == '\r' && c1 == Some('\n') then 2 else 1, false, true)
    else Reaction(m, 1, true, false)
  }

  function React(c: char, c1: Option<char>, c2: Option<char>, m: Mode, open: bool): (r: Reaction<Mode>)
    ensures 1 <= r.width <= 3
    ensures r.width >= 2 ==> c1.Some?
    ensures r.width == 3 ==> c2.Some?
  {
    if m.comment && !IsNewline(c) then Reaction(m, 1, open, false)
    else
      var m := m.(comment := false);
      if m.quote != NoQuote then ReactInString(c, c1, c2, m, open)
      else if c == '#' then Reaction(m.(comment := true), 1, open, false)
      else if IsBlank(c) && !open then Reaction(m, 1, false, false)
      else ReactInStatement(c, c1, c2, m)
  }

  function Lex(t: string): Scan<Mode> { ScanTo(React, t, 0, INIT, |t|) }

  function Spans(t: string): seq<Span> { SpansFrom(React, t, 0, INIT) }

  /** No string and no bracket is left open: every statement is complete, bar its newline. */
  predicate Closed(t: string) {
    var s := Lex(t).state;
    s.mode.quote == NoQuote && s.mode.square == 0 && s.mode.curly == 0
  }

  /** The lexer is back where it began. */
  predicate Settled(t: string) { Lex(t).state == INIT }

  // ---- states the loop can be in ----

  predicate ValidMode(m: Mode, open: bool) {
    && (!open ==> m.square == 0 && m.curly == 0 && m.quote == NoQuote)
    && (m.comment ==> m.quote == NoQuote)
    && (m.escaped ==> m.quote in {Basic, MultiBasic})
  }

  predicate ValidState(s: State<Mode>, i: nat) {
    ValidMode(s.mode, s.start.Some?) && (s.start.Some? ==> s.start.value < i)
  }

  lemma StepValid(t: string, i: nat, s: State<Mode>)
    requires i < |t| && ValidState(s, i)
    ensures var m := Step(React, t, i, s);
            ValidState(m.state, m.next) && (m.span.Some? ==> m.state == INIT && m.span.value.end == m.next)
  {}

  lemma {:induction false} ScanValid(t: string, i: nat, s: State<Mode>, n: nat)
    requires i <= |t| && n <= |t| && ValidState(s, i)
    ensures var r := ScanTo(React, t, i, s, n); ValidState(r.state, r.at)
    decreases |t| - i
  {
    if i < n {
      StepValid(t, i, s);
      var m := Step(React, t, i, s);
      ScanValid(t, m.next, m.state, n);
    }
  }

  // ---- layout: what the statements leave out ----

  /** t[i..n] is only whitespace and comments. */
  predicate Blank(t: string, i: nat, n: nat, comment: bool)
    requires i <= n <= |t|
    decreases n - i
  {
    i == n ||
    if comment && !IsNewline(t[i]) then Blank(t, i + 1, n, true)
    else if t[i] == '#' then Blank(t, i + 1, n, true)
    else IsBlank(t[i]) && Blank(t, i + 1, n, false)
  }

  /** spans are non-empty, ordered, disjoint, and everything around them in t[p..] is blank. */
  predicate Tiles(t: string, p: nat, comment: bool, spans: seq<Span>)
    requires p <= |t|
    decreases |spans|
  {
    if spans == [] then Blank(t, p, |t|, comment)
    else
      var Span(b, e) := spans[0];
      p <= b < e <= |t| && Blank(t, p, b, comment) && Tiles(t, e, false, spans[1..])
  }

  /** What TilesFrom claims of the statements found from index i in state s. */
  predicate TilesOpen(t: string, i: nat, s: State<Mode>, spans: seq<Span>)
    requires i <= |t|
  {
    match s.start
    case None => Tiles(t, i, s.mode.comment, spans)
    case Some(b) =>
      spans != [] && spans[0].start == b && b < spans[0].end && i <= spans[0].end <= |t|
      && Tiles(t, spans[0].end, false, spans[1..])
  }

  lemma TilesStep(t: string, i: nat, s: State<Mode>, rest: seq<Span>)
    requires i < |t| && ValidState(s, i)
    requires var m := Step(React, t, i, s); ValidState(m.state, m.next) && TilesOpen(t, m.next, m.state, rest)
    ensures TilesOpen(t, i, s, Emitted(Step(React, t, i, s).span) + rest)
  {
    var m := Step(React, t, i, s);
    var all := Emitted(m.span) + rest;
    if m.span.Some? {
      assert all[0] == m.span.value && all[1..] == rest;
    } else {
      assert all == rest;
      if s.start.None? && m.state.start.None? {
        assert m.next == i + 1;
        assert t[i] == '#' || IsBlank(t[i]) || (s.mode.comment && !IsNewline(t[i]));
      }
    }
  }

  lemma {:induction false} TilesFrom(t: string, i: nat, s: State<Mode>)
    requires i <= |t| && ValidState(s, i)
    ensures TilesOpen(t, i, s, SpansFrom(React, t, i, s))
    decreases |t| - i
  {
    if i < |t| {
      StepValid(t, i, s);
      var m := Step(React, t, i, s);
      TilesFrom(t, m.next, m.state);
      TilesStep(t, i, s, SpansFrom(React, t, m.next, m.state));
      assert SpansFrom(React, t, i, s) == Emitted(m.span) + SpansFrom(React, t, m.next, m.state);
    }
  }

  /** Statements are ordered and non-empty, and outside them there is only whitespace and comments. */
  lemma SpansTile(t: string)
    ensures Tiles(t, 0, false, Spans(t))
  {
    TilesFrom(t, 0, INIT);
  }

  // ---- the loop of the source ----

  /** The part of the loop body that runs inside a string. */
  method AdvanceInString(t: string, i: nat, quote: Quote, escaped: bool, ghost m: Mode, ghost open: bool)
      returns (index: nat, quote': Quote, escaped': bool)
    requires i < |t| && quote != NoQuote && m.quote == quote && m.escaped == escaped
    ensures i < index <= |t|
    ensures ReactInString(t[i], Peek(t, i + 1), Peek(t, i + 2), m, open)
         == Reaction(m.(quote := quote', escaped := escaped'), index - i, open, false)
  {
    var c := t[i];
    index, quote', escaped' := i, quote, escaped;
    if quote == Basic {
      if escaped { escaped' := false; }
      else if c == '\\' { escaped' := true; }
      else if c == '"' { quote' := NoQuote; }
    } else if quote == Literal {
      if c == '\'' { quote' := NoQuote; }
    } else if quote == MultiBasic {
      if escaped { escaped' := false; }
      else if c == '\\' { escaped' := true; }
      else if Triple(c, Peek(t, i + 1), Peek(t, i + 2), '"') { quote' := NoQuote; index := index + 2; }
    } else if Triple(c, Peek(t, i + 1), Peek(t, i + 2), '\'') {
      quote' := NoQuote;
      index := index + 2;
    }
    index := index + 1;
  }

  /** The part of the loop body that runs inside a statement, outside strings and comments. */
  method AdvanceInStatement(t: string, i: nat, square: nat, curly: nat, ghost m: Mode)
      returns (index: nat, square': nat, curly': nat, quote': Quote, closes: bool)
    requires i < |t| && m.quote == NoQuote && m.square == square && m.curly == curly
    ensures i < index <= |t|
    ensures ReactInStatement(t[i], Peek(t, i + 1), Peek(t, i + 2), m)
         == Reaction(m.(square := square', curly := curly', quote := quote'), index - i, !closes, closes)
  {
    var c := t[i];
    index, square', curly', quote', closes := i, square, curly, NoQuote, false;
    if Triple(c, Peek(t, i + 1), Peek(t, i + 2), '"') {
      quote' := MultiBasic;
      index := index + 3;
      return;
    }
    if Triple(c, Peek(t, i + 1), Peek(t, i + 2), '\'') {
      quote' := MultiLiteral;
      index := index + 3;
      return;
    }
    if c == '"' {
      quote' := Basic;
    } else if c == '\'' {
      quote' := Literal;
    } else if c == '[' {
      square' := square + 1;
    } else if c == ']' {
      square' := Pred(square);
    } else if c == '{' {
      curly' := curly + 1;
    } else if c == '}' {
      curly' := Pred(curly);
    } else if IsNewline(c) && square == 0 && curly == 0 {
      closes := true;
      if c == '\r' && i + 1 < |t| && t[i + 1] == '\n' {
        index := index + 1;
      }
    }
    index := index + 1;
  }

  /** One iteration of the loop. */
  method Iterate(t: string, i: nat, ghost s: State<Mode>, start: Option<nat>, square: nat, curly: nat,
                 quote: Quote, escaped: bool, comment: bool)
      returns (index: nat, start': Option<nat>, square': nat, curly': nat,
               quote': Quote, escaped': bool, comment': bool, span: Option<Span>)
    requires i < |t| && s == State(start, Mode(square, curly, quote, escaped, comment))
    ensures Step(React, t, i, s)
         == Move(State(start', Mode(square', curly', quote', escaped', comment')), index, span)
  {
    var c := t[i];
    index, start', square', curly', quote', escaped', comment', span :=
      i, start, square, curly, quote, escaped, comment, None;
    if comment {
      if IsNewline(c) {
        comment' := false;
      } else {
        index := index + 1;
        return;
      }
    }
    ghost var m := s.mode.(comment := false);
    if quote != NoQuote {
      index, quote', escaped' := AdvanceInString(t, i, quote, escaped, m, start.Some?);
      return;
    }
    if c == '#' {
      comment' := true;
      index := index + 1;
      return;
    }
    if IsBlank(c) && start.None? {
      index := index + 1;
      return;
    }
    if start.None? {
      start' := Some(i);
    }
    var closes;
    index, square', curly', quote', closes := AdvanceInStatement(t, i, square, curly, m);
    if closes {
      span := Some(Span(start'.value, index));
      start' := None;
    }
  }

  method StatementSpans(t: string) returns (spans: seq<Span>)
    ensures spans == Spans(t)
  {
    spans := [];
    var start: Option<nat> := None;
    var square: nat, curly: nat := 0, 0;
    var quote, escaped, comment := NoQuote, false, false;
    var index := 0;
    while index < |t|
      invariant 0 <= index <= |t|
      invariant Resumes(React, t, INIT, spans, index, State(start, Mode(square, curly, quote, escaped, comment)))
      decreases |t| - index
    {
      ghost var s := State(start, Mode(square, curly, quote, escaped, comment));
      ResumesStep(React, t, INIT, spans, index, s);
      var span;
      index, start, square, curly, quote, escaped, comment, span :=
        Iterate(t, index, s, start, square, curly, quote, escaped, comment);
      if span.Some? {
        spans := spans + [span.value];
      } else {
        assert spans + [] == spans;
      }
    }
    if start.Some? {
      spans := spans + [Span(start.value, |t|)];
    }
  }
}
