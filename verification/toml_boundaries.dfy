/**
 Where a document may be cut: in front of every statement, behind every closed
 one, and, once a missing newline is added, at the end.
 */
module TomlBoundaries {
  import opened Wrappers
  import opened Scanner
  import opened TomlLexer
  import opened TomlComposition

  predicate EndsWithNewline(t: string) { t != "" && IsNewline(t[|t| - 1]) }

  // ---- cutting at a statement ----

  lemma {:induction false} StartsCalm(t: string, i: nat, s: State<Mode>, k: nat)
    requires i <= |t| && ValidState(s, i)
    requires k < |SpansFrom(React, t, i, s)| && (k > 0 || s.start.None?)
    ensures CutsBefore(React, t, i, s, k, INIT)
    decreases |t| - i
  {
    if i < |t| {
      StepValid(t, i, s);
      SpansStep(React, t, i, s);
      var m := Step(React, t, i, s);
      if m.span.None? && k == 0 && m.state.start.Some? {
        StartIsHere(t, i, s);
        StartsHere(t, i, s);
      } else if k >= |Emitted(m.span)| {
        StartsCalm(t, m.next, m.state, k - |Emitted(m.span)|);
        CutsBeforeStep(React, t, i, s, k - |Emitted(m.span)|, INIT);
      }
    }
  }

  lemma StartsHere(t: string, i: nat, s: State<Mode>)
    requires i <= |t| && SpansFrom(React, t, i, s) != [] && SpansFrom(React, t, i, s)[0].start == i && s == INIT
    ensures CutsBefore(React, t, i, s, 0, INIT)
  {
    assert SpansFrom(React, t, i, s)[..0] == [];
  }

  /** A statement that opens at i is the first one found from there, and opens in the first state. */
  lemma StartIsHere(t: string, i: nat, s: State<Mode>)
    requires i < |t| && ValidState(s, i) && s.start.None?
    requires var m := Step(React, t, i, s); m.state.start.Some?
    ensures s == INIT && !IsBlank(t[i]) && t[i] != '#'
    ensures SpansFrom(React, t, i, s) != [] && SpansFrom(React, t, i, s)[0].start == i
  {
    var m := Step(React, t, i, s);
    StepValid(t, i, s);
    assert s.mode == CALM && m.span.None?;
    assert SpansFrom(React, t, i, s) == SpansFrom(React, t, m.next, m.state);
    TilesFrom(t, m.next, m.state);
  }

  lemma {:induction false} EndsInit(t: string, i: nat, s: State<Mode>, k: nat)
    requires i <= |t| && ValidState(s, i)
    requires k < |ScanTo(React, t, i, s, |t|).spans|
    ensures CutsAfter(React, t, i, s, k, INIT)
    decreases |t| - i
  {
    hide React, CutsAfter, Step;
    StepValid(t, i, s);
    ClosedStep(React, t, i, s);
    var m := Step(React, t, i, s);
    if k < |Emitted(m.span)| {
      CutsAfterFirst(React, t, i, s);
    } else {
      EndsInit(t, m.next, m.state, k - |Emitted(m.span)|);
      CutsAfterStep(React, t, i, s, k - |Emitted(m.span)|, INIT);
    }
  }

  lemma LexPrefix(t: string, n: nat)
    requires n <= |t| && ScanTo(React, t, 0, INIT, n).at == n
    ensures Lex(t[..n]) == ScanTo(React, t, 0, INIT, n)
  {
    ReactSound();
    assert t == t[..n] + t[n..];
    Truncate(React, t[..n], t[n..], 0, INIT);
  }

  /** Everything before the k-th statement lexes on its own, to the statements before it. */
  lemma CutBefore(t: string, k: nat)
    requires k < |Spans(t)|
    ensures var b := Spans(t)[k].start;
            b <= |t| && Settled(t[..b]) && Lex(t[..b]).spans == Spans(t)[..k] && Spans(t[..b]) == Spans(t)[..k]
  {
    StartsCalm(t, 0, INIT, k);
    LexPrefix(t, Spans(t)[k].start);
  }

  /** ... and so does everything up to the end of a closed statement. */
  lemma CutAfter(t: string, k: nat)
    requires k < |Lex(t).spans|
    ensures Spans(t)[k] == Lex(t).spans[k]
    ensures var e := Spans(t)[k].end;
            e <= |t| && Settled(t[..e]) && Lex(t[..e]).spans == Spans(t)[..k + 1] && Spans(t[..e]) == Spans(t)[..k + 1]
  {
    EndsInit(t, 0, INIT, k);
    LexPrefix(t, Spans(t)[k].end);
    assert Spans(t)[..k + 1] == Lex(t).spans[..k + 1];
  }

  lemma TextsPrefix(t: string, n: nat, k: nat)
    requires n <= |t| && k <= |Spans(t)| && Spans(t[..n]) == Spans(t)[..k]
    ensures k <= |Statements(t)| && Statements(t[..n]) == Statements(t)[..k]
  {
    SpansWithin(t);
    SpansWithin(t[..n]);
    forall j | 0 <= j < k ensures Statements(t[..n])[j] == Statements(t)[j] {
      var s := Spans(t)[j];
      assert Spans(t[..n])[j] == s;
      assert t[..n][s.start..s.end] == t[s.start..s.end];
    }
  }

  lemma FirstCharacter(t: string, k: nat)
    requires k < |Spans(t)|
    ensures var s := Spans(t)[k]; s.start < s.end <= |t| && !IsBlank(t[s.start]) && t[s.start] != '#'
  {
    SpansTile(t);
    TilesWithin(t, 0, false, Spans(t));
    StartsNonBlank(t, 0, INIT, k);
  }

  lemma {:induction false} StartsNonBlank(t: string, i: nat, s: State<Mode>, k: nat)
    requires i <= |t| && ValidState(s, i)
    requires k < |SpansFrom(React, t, i, s)| && (k > 0 || s.start.None?)
    ensures var b := SpansFrom(React, t, i, s)[k].start; b < |t| && !IsBlank(t[b]) && t[b] != '#'
    decreases |t| - i
  {
    if i < |t| {
      StepValid(t, i, s);
      var m := Step(React, t, i, s);
      assert SpansFrom(React, t, i, s) == Emitted(m.span) + SpansFrom(React, t, m.next, m.state);
      if m.span.Some? {
        if k > 0 { StartsNonBlank(t, m.next, m.state, k - 1); }
      } else if k == 0 && m.state.start.Some? {
        StartIsHere(t, i, s);
      } else {
        StartsNonBlank(t, m.next, m.state, k);
      }
    }
  }

  /** The document around its k-th statement: what is before, the statement, what is after. */
  lemma Surround(t: string, k: nat)
    requires k < |Spans(t)|
    ensures var Span(b, e) := Spans(t)[k];
            && b < e <= |t| && |Statements(t)| == |Spans(t)| && Statements(t)[k] == t[b..e]
            && !IsBlank(t[b]) && t[b] != '#'
            && Settled(t[..b]) && Statements(t[..b]) == Statements(t)[..k]
            && (k < |Lex(t).spans| ==> Settled(t[..e]) && Lex(t[..e]).spans != []
                                       && Statements(t[..e]) == Statements(t)[..k + 1]
                                       && Statements(t[e..]) == Statements(t)[k + 1..]
                                       && !CutsCrlf(t[..e], Lex(t[..e]).spans, t[e..])
                                       && Closed(t[e..]) == Closed(t))
            && (k >= |Lex(t).spans| ==> e == |t| && k + 1 == |Spans(t)|)
  {
    SpansWithin(t);
    FirstCharacter(t, k);
    var Span(b, e) := Spans(t)[k];
    CutBefore(t, k);
    TextsPrefix(t, b, k);
    if k < |Lex(t).spans| {
      CutAfter(t, k);
      TextsPrefix(t, e, k + 1);
      SpanAligned(t, k);
      assert t == t[..e] + t[e..];
      StatementsConcat(t[..e], t[e..]);
    }
  }

  // ---- the end of the document ----

  lemma {:induction false} BeforeNewline(t: string, i: nat, s: State<Mode>)
    requires i <= |t| && (t == "" || t[|t| - 1] != '\r')
    ensures ScanTo(React, t + "\n", i, s, |t|) == ScanTo(React, t, i, s, |t|)
    decreases |t| - i
  {
    if i < |t| {
      assert (t + "\n")[i] == t[i];
      assert i + 1 < |t| ==> Peek(t + "\n", i + 1) == Peek(t, i + 1);
      assert i + 2 < |t| ==> Peek(t + "\n", i + 2) == Peek(t, i + 2);
      assert Step(React, t + "\n", i, s) == Step(React, t, i, s);
      var m := Step(React, t, i, s);
      BeforeNewline(t, m.next, m.state);
    }
  }

  lemma {:induction false} NewlineSettles(t: string, i: nat, s: State<Mode>)
    requires i < |t| && ValidState(s, i) && IsNewline(t[|t| - 1])
    requires var m := ScanTo(React, t, i, s, |t|).state.mode; m.quote == NoQuote && m.square == 0 && m.curly == 0
    ensures ScanTo(React, t, i, s, |t|).state == INIT
    decreases |t| - i
  {
    var m := Step(React, t, i, s);
    StepValid(t, i, s);
    if m.next < |t| {
      NewlineSettles(t, m.next, m.state);
    } else {
      assert ScanTo(React, t, m.next, m.state, |t|) == Scan([], m.state, |t|);
    }
  }

  lemma ClosedSettles(t: string)
    requires Closed(t) && (t == "" || EndsWithNewline(t))
    ensures Settled(t)
  {
    if t != "" { NewlineSettles(t, 0, INIT); }
  }

  /** The statements once the document's last line has its newline. */
  function Terminated(t: string): seq<string> {
    var ss := Statements(t);
    if Lex(t).state.start.Some? && ss != [] then ss[|ss| - 1 := ss[|ss| - 1] + "\n"] else ss
  }

  lemma LastStep(u: string, n: nat, s: State<Mode>)
    requires n + 1 == |u| && u[n] == '\n' && ValidState(s, n)
    requires s.mode.quote == NoQuote && s.mode.square == 0 && s.mode.curly == 0
    ensures ScanTo(React, u, n, s, |u|)
         == Scan(if s.start.Some? then [Span(s.start.value, |u|)] else [], INIT, |u|)
  {
    var m := Step(React, u, n, s);
    assert m == Move(INIT, |u|, if s.start.Some? then Some(Span(s.start.value, |u|)) else None);
    assert ScanTo(React, u, |u|, INIT, |u|) == Scan([], INIT, |u|);
  }

  lemma LexNewline(t: string)
    requires Closed(t) && !EndsWithNewline(t)
    ensures var open := Lex(t).state.start;
            Lex(t + "\n") == Scan(Lex(t).spans + if open.Some? then [Span(open.value, |t| + 1)] else [], INIT, |t| + 1)
  {
    BeforeNewline(t, 0, INIT);
    ScanValid(t, 0, INIT, |t|);
    ScanSplit(React, t + "\n", 0, INIT, |t|, |t + "\n"|);
    LastStep(t + "\n", |t|, Lex(t).state);
  }

  /** Adding the missing newline ends an open last statement and changes nothing else. */
  lemma Terminate(t: string)
    requires Closed(t) && !EndsWithNewline(t)
    ensures Settled(t + "\n") && Statements(t + "\n") == Terminated(t)
  {
    var u := t + "\n";
    LexNewline(t);
    SpansWithin(t);
    SpansWithin(u);
    var l := Lex(t);
    assert |Spans(u)| == |Spans(t)|;
    forall j | 0 <= j < |Spans(u)| ensures Statements(u)[j] == Terminated(t)[j] {
      if j < |l.spans| {
        var s := l.spans[j];
        assert Spans(u)[j] == s && Spans(t)[j] == s;
        assert u[s.start..s.end] == t[s.start..s.end];
      } else {
        var b := l.state.start.value;
        assert Spans(u)[j] == Span(b, |u|) && Spans(t)[j] == Span(b, |t|);
        assert u[b..|u|] == t[b..|t|] + "\n";
      }
    }
  }
}
