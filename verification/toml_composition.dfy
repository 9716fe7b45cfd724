/**
 Lexing is compositional: at a boundary where the lexer is back in its first
 state, the statements of a + b are those of a followed by those of b.
 The one exception is a boundary that cuts a CR LF in two.
 */
module TomlComposition {
  import opened Wrappers
  import opened Scanner
  import opened TomlLexer

  /** The boundary after a, whose closed statements these are, falls inside the CR LF that ends one. */
  predicate CutsCrlf(a: string, spans: seq<Span>, b: string) {
    spans != [] && spans[|spans| - 1].end == |a| && a != "" && a[|a| - 1] == '\r' && b != "" && b[0] == '\n'
  }

  lemma ReactSound()
    ensures Fits(React) && Frugal(React)
  {
    forall c, c1, c2, m, open ensures
      var r := React(c, c1, c2, m, open);
      && (r.width == 1 ==> React(c, None, None, m, open) == r)
      && (r.width <= 2 ==> React(c, c1, None, m, open) == r)
    {
      ReactFrugal(c, c1, c2, m, open);
    }
  }

  lemma ReactFrugal(c: char, c1: Option<char>, c2: Option<char>, m: Mode, open: bool)
    ensures var r := React(c, c1, c2, m, open);
            && (r.width == 1 ==> React(c, None, None, m, open) == r)
            && (r.width <= 2 ==> React(c, c1, None, m, open) == r)
  {
  }

  lemma SameStep(a: string, b: string, i: nat, s: State<Mode>)
    requires i < |a|
    requires i + 3 <= |a| || (a[i] != '"' && a[i] != '\'')
    requires i + 1 < |a| || !(a[i] == '\r' && b != "" && b[0] == '\n')
    ensures Step(React, a + b, i, s) == Step(React, a, i, s)
  {
    var t := a + b;
    assert t[i] == a[i];
    assert i + 1 < |a| ==> Peek(t, i + 1) == Peek(a, i + 1);
    assert i + 2 < |a| ==> Peek(t, i + 2) == Peek(a, i + 2);
  }

  lemma SameStepAtEnd(a: string, b: string, i: nat, s: State<Mode>)
    requires i < |a| < i + 3 && (a[i] == '"' || a[i] == '\'')
    requires ScanTo(React, a, i, s, |a|).state.start.None?
    requires ValidState(s, i)
    ensures Step(React, a + b, i, s) == Step(React, a, i, s)
  {
    var t := a + b;
    assert forall k | 0 <= k < |a| :: t[k] == a[k];
  }

  /** Scanning a on its own, with no statement left open, is what a scan of a + b does up to |a|. */
  lemma {:induction false} Extend(a: string, b: string, i: nat, s: State<Mode>)
    requires i <= |a| && ValidState(s, i)
    requires var r := ScanTo(React, a, i, s, |a|); r.state.start.None? && !CutsCrlf(a, r.spans, b)
    ensures ScanTo(React, a + b, i, s, |a|) == ScanTo(React, a, i, s, |a|)
    decreases |a| - i
  {
    if i < |a| {
      var m := Step(React, a, i, s);
      var r := ScanTo(React, a, m.next, m.state, |a|);
      StepValid(a, i, s);
      if i + 3 <= |a| || (a[i] != '"' && a[i] != '\'') {
        if i + 1 == |a| && a[i] == '\r' && b != "" && b[0] == '\n' {
          assert r == Scan([], m.state, |a|);
          assert m.span.None?;
          assert Step(React, a + b, i, s) == m;
        } else {
          SameStep(a, b, i, s);
        }
      } else {
        SameStepAtEnd(a, b, i, s);
      }
      Extend(a, b, m.next, m.state);
    }
  }

  /** Lexing from a settled boundary: a, then b moved to its place. */
  lemma LexConcat(a: string, b: string)
    requires Settled(a) && !CutsCrlf(a, Lex(a).spans, b)
    ensures Lex(a + b) == Scan(Lex(a).spans + MoveSpans(Lex(b).spans, |a|), MoveState(Lex(b).state, |a|), |a + b|)
  {
    Extend(a, b, 0, INIT);
    ScanConcat(React, a, b, INIT);
  }

  lemma {:induction false} TilesWithin(t: string, p: nat, comment: bool, spans: seq<Span>)
    requires p <= |t| && Tiles(t, p, comment, spans)
    ensures Within(t, spans)
    ensures forall k | 0 <= k < |spans| :: p <= spans[k].start < spans[k].end
    decreases |spans|
  {
    if spans != [] {
      TilesWithin(t, spans[0].end, false, spans[1..]);
      forall k | 0 <= k < |spans| ensures p <= spans[k].start < spans[k].end <= |t| {
        if k > 0 { assert spans[k] == spans[1..][k - 1]; }
      }
    }
  }

  lemma SpansWithin(t: string)
    ensures Within(t, Spans(t))
  {
    SpansTile(t);
    TilesWithin(t, 0, false, Spans(t));
  }

  /** The statements of a document, as texts: the meaning that every edit is measured by. */
  function Statements(t: string): seq<string> {
    SpansWithin(t);
    Texts(t, Spans(t))
  }

  lemma SpansConcat(a: string, b: string)
    requires Settled(a) && !CutsCrlf(a, Lex(a).spans, b)
    ensures Spans(a + b) == Spans(a) + MoveSpans(Spans(b), |a|)
  {
    hide React, ScanTo, CutsCrlf;
    LexConcat(a, b);
    var p, q, s := Lex(a).spans, Lex(b).spans, Lex(b).state;
    assert Spans(a) == p;
    assert Spans(a + b) == (p + MoveSpans(q, |a|)) + if s.start.Some? then [Span(s.start.value + |a|, |a + b|)] else [];
    MoveSpansConcat(q, if s.start.Some? then [Span(s.start.value, |b|)] else [], |a|);
    assert Spans(b) == q + if s.start.Some? then [Span(s.start.value, |b|)] else [];
  }

  /** Statement lists concatenate when texts do. */
  lemma StatementsConcat(a: string, b: string)
    requires Settled(a) && !CutsCrlf(a, Lex(a).spans, b)
    ensures Statements(a + b) == Statements(a) + Statements(b)
    ensures Settled(a + b) == Settled(b) && Closed(a + b) == Closed(b)
  {
    LexConcat(a, b);
    SpansConcat(a, b);
    SpansWithin(a);
    SpansWithin(b);
    TextsConcat(a, Spans(a), b, Spans(b));
  }

  /** ... and only when no CR LF is cut: that always changes where statements end. */
  lemma ConcatExactly(a: string, b: string)
    requires Settled(a)
    ensures Spans(a + b) == Spans(a) + MoveSpans(Spans(b), |a|) <==> !CutsCrlf(a, Lex(a).spans, b)
  {
    if !CutsCrlf(a, Lex(a).spans, b) {
      SpansConcat(a, b);
    } else if Spans(a + b) == Spans(a) + MoveSpans(Spans(b), |a|) {
      var n := |Spans(a)| - 1;
      assert Spans(a + b)[n].end == |a|;
      SpanAligned(a + b, n);
      assert false;
    }
  }

  /** No statement ends between the CR and the LF of one line ending. */
  lemma SpanAligned(t: string, n: nat)
    requires n < |Spans(t)|
    ensures var e := Spans(t)[n].end; 0 < e <= |t| && !(e < |t| && t[e - 1] == '\r' && t[e] == '\n')
  {
    if n < |Lex(t).spans| {
      AlignedFrom(t, 0, INIT, n);
    } else {
      ScanValid(t, 0, INIT, |t|);
    }
  }

  lemma StepAligned(t: string, i: nat, s: State<Mode>)
    requires i < |t|
    ensures var m := Step(React, t, i, s);
            m.span.Some? ==> var e := m.span.value.end;
                             0 < e <= |t| && !(e < |t| && t[e - 1] == '\r' && t[e] == '\n')
  {
  }

  lemma AlignedFrom(t: string, i: nat, s: State<Mode>, n: nat)
    requires i <= |t| && n < |ScanTo(React, t, i, s, |t|).spans|
    ensures var e := ScanTo(React, t, i, s, |t|).spans[n].end;
            0 < e <= |t| && !(e < |t| && t[e - 1] == '\r' && t[e] == '\n')
  {
    var j, r := EmittedBy(React, t, i, s, n);
    StepAligned(t, j, r);
  }
}
