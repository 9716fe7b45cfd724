/**
 A left-to-right scanner that cuts a text into spans.

 The decisions are a parameter: a reactor sees one character, the two after it,
 the current mode and whether a span is open.  Everything here holds for every
 reactor, so proofs about composition never look at what a language decides.
 */
module Scanner {
  import opened Wrappers

  datatype Span = Span(start: nat, end: nat)

  /** New mode, distance to move, whether a span is open afterwards, whether one was closed. */
  datatype Reaction<M> = Reaction(mode: M, width: nat, open: bool, closes: bool)

  type Reactor<!M> = (char, Option<char>, Option<char>, M, bool) -> Reaction<M>

  datatype State<M> = State(start: Option<nat>, mode: M)

  /** One iteration: new state, new index and the span it closes, if any. */
  datatype Move<M> = Move(state: State<M>, next: nat, span: Option<Span>)

  /** A stretch of iterations: spans closed, last state and the index reached. */
  datatype Scan<M> = Scan(spans: seq<Span>, state: State<M>, at: nat)

  function Peek(t: string, i: nat): Option<char> { if i < |t| then Some(t[i]) else None }

  function Step<M>(f: Reactor<M>, t: string, i: nat, s: State<M>): (m: Move<M>)
    requires i < |t|
    ensures i < m.next <= |t|
  {
    var r := f(t[i], Peek(t, i + 1), Peek(t, i + 2), s.mode, s.start.Some?);
    // A reactor that honours Fits never needs the second case.
    var next := if 1 <= r.width && i + r.width <= |t| then i + r.width else i + 1;
    var start := if s.start.Some? then s.start.value else i;
    Move(State(if r.open then Some(start) else None, r.mode), next,
         if r.closes then Some(Span(start, next)) else None)
  }

  /** The reactor moves on, and never past the characters it has seen. */
  ghost predicate Fits<M(!new)>(f: Reactor<M>) {
    forall c, c1, c2, m, open ::
      var r := f(c, c1, c2, m, open);
      1 <= r.width <= 3 && (r.width >= 2 ==> c1.Some?) && (r.width == 3 ==> c2.Some?)
  }

  function Emitted(span: Option<Span>): seq<Span> {
    if span.Some? then [span.value] else []
  }

  /** Iterate from index i in state s until index n is reached or passed. */
  function ScanTo<M>(f: Reactor<M>, t: string, i: nat, s: State<M>, n: nat): (r: Scan<M>)
    requires i <= |t| && n <= |t|
    ensures i >= n ==> r == Scan([], s, i)
    ensures i <= n ==> n <= r.at <= |t|
    decreases |t| - i
  {
    if i >= n then Scan([], s, i)
    else
      var m := Step(f, t, i, s);
      var r := ScanTo(f, t, m.next, m.state, n);
      Scan(Emitted(m.span) + r.spans, r.state, r.at)
  }

  /** The step that closes the n-th span. */
  lemma {:induction false} EmittedBy<M>(f: Reactor<M>, t: string, i: nat, s: State<M>, n: nat)
      returns (j: nat, r: State<M>)
    requires i <= |t| && n < |ScanTo(f, t, i, s, |t|).spans|
    ensures j < |t| && Step(f, t, j, r).span == Some(ScanTo(f, t, i, s, |t|).spans[n])
    decreases |t| - i
  {
    var m := Step(f, t, i, s);
    if m.span.None? {
      j, r := EmittedBy(f, t, m.next, m.state, n);
    } else if n > 0 {
      j, r := EmittedBy(f, t, m.next, m.state, n - 1);
    } else {
      j, r := i, s;
    }
  }

  /** Closed spans, then the one still open at the end of the text, if any. */
  function SpansFrom<M>(f: Reactor<M>, t: string, i: nat, s: State<M>): seq<Span>
    requires i <= |t|
  {
    var r := ScanTo(f, t, i, s, |t|);
    r.spans + if r.state.start.Some? then [Span(r.state.start.value, |t|)] else []
  }

  /** Scanning to m passes through n whenever scanning to n stops exactly there. */
  lemma {:induction false} ScanSplit<M>(f: Reactor<M>, t: string, i: nat, s: State<M>, n: nat, m: nat)
    requires i <= n <= m <= |t|
    requires ScanTo(f, t, i, s, n).at == n
    ensures var a := ScanTo(f, t, i, s, n);
            var b := ScanTo(f, t, n, a.state, m);
            ScanTo(f, t, i, s, m) == Scan(a.spans + b.spans, b.state, b.at)
    decreases |t| - i
  {
    if i < n {
      var k := Step(f, t, i, s);
      ScanSplit(f, t, k.next, k.state, n, m);
      var a := ScanTo(f, t, k.next, k.state, n);
      Regrouped(Emitted(k.span), a.spans, ScanTo(f, t, n, a.state, m).spans);
    }
  }

  // ---- cutting at a span ----

  /** A scan stops in this state where the k-th span starts, having found the spans before it. */
  ghost predicate CutsBefore<M>(f: Reactor<M>, t: string, i: nat, s: State<M>, k: nat, cut: State<M>) {
    i <= |t| && var spans := SpansFrom(f, t, i, s);
    && k < |spans| && i <= spans[k].start <= |t|
    && ScanTo(f, t, i, s, spans[k].start) == Scan(spans[..k], cut, spans[k].start)
  }

  /** A scan stops in this state where the k-th closed span ends, having found the spans up to it. */
  ghost predicate CutsAfter<M>(f: Reactor<M>, t: string, i: nat, s: State<M>, k: nat, cut: State<M>) {
    i <= |t| && var spans := ScanTo(f, t, i, s, |t|).spans;
    && k < |spans| && i <= spans[k].end <= |t|
    && ScanTo(f, t, i, s, spans[k].end) == Scan(spans[..k + 1], cut, spans[k].end)
  }

  lemma FrontOf(x: Option<Span>, rest: seq<Span>, all: seq<Span>, k: nat)
    requires all == Emitted(x) + rest && k <= |rest|
    ensures k < |rest| ==> all[k + |Emitted(x)|] == rest[k]
    ensures all[..k + |Emitted(x)|] == Emitted(x) + rest[..k]
  {
  }

  lemma SpansStep<M>(f: Reactor<M>, t: string, i: nat, s: State<M>)
    requires i < |t|
    ensures var m := Step(f, t, i, s); SpansFrom(f, t, i, s) == Emitted(m.span) + SpansFrom(f, t, m.next, m.state)
  {
    var m := Step(f, t, i, s);
    var r := ScanTo(f, t, m.next, m.state, |t|);
    Regrouped(Emitted(m.span), r.spans, if r.state.start.Some? then [Span(r.state.start.value, |t|)] else []);
  }

  lemma ClosedStep<M>(f: Reactor<M>, t: string, i: nat, s: State<M>)
    requires i < |t|
    ensures var m := Step(f, t, i, s);
            |ScanTo(f, t, i, s, |t|).spans| == |Emitted(m.span)| + |ScanTo(f, t, m.next, m.state, |t|).spans|
  {
  }

  /** One step earlier, one span more if the step closes one. */
  lemma CutsBeforeStep<M>(f: Reactor<M>, t: string, i: nat, s: State<M>, k: nat, cut: State<M>)
    requires i < |t| && var m := Step(f, t, i, s); CutsBefore(f, t, m.next, m.state, k, cut)
    ensures CutsBefore(f, t, i, s, k + |Emitted(Step(f, t, i, s).span)|, cut)
  {
    var m := Step(f, t, i, s);
    SpansStep(f, t, i, s);
    FrontOf(m.span, SpansFrom(f, t, m.next, m.state), SpansFrom(f, t, i, s), k);
  }

  lemma CutsAfterStep<M>(f: Reactor<M>, t: string, i: nat, s: State<M>, k: nat, cut: State<M>)
    requires i < |t| && var m := Step(f, t, i, s); CutsAfter(f, t, m.next, m.state, k, cut)
    ensures CutsAfter(f, t, i, s, k + |Emitted(Step(f, t, i, s).span)|, cut)
  {
    var m := Step(f, t, i, s);
    var rest := ScanTo(f, t, m.next, m.state, |t|).spans;
    FrontOf(m.span, rest, ScanTo(f, t, i, s, |t|).spans, k);
    FrontOf(m.span, rest, ScanTo(f, t, i, s, |t|).spans, k + 1);
  }

  /** The span that the first step closes ends where the step does. */
  lemma CutsAfterFirst<M>(f: Reactor<M>, t: string, i: nat, s: State<M>)
    requires i < |t| && Step(f, t, i, s).span.Some?
    ensures CutsAfter(f, t, i, s, 0, Step(f, t, i, s).state)
  {
    var m := Step(f, t, i, s);
    FrontOf(m.span, ScanTo(f, t, m.next, m.state, |t|).spans, ScanTo(f, t, i, s, |t|).spans, 0);
    assert ScanTo(f, t, m.next, m.state, m.next) == Scan([], m.state, m.next);
  }

  /** A loop that has found these spans and stands at i in state s will end as the scan from s0 does. */
  ghost predicate Resumes<M>(f: Reactor<M>, t: string, s0: State<M>, found: seq<Span>, i: nat, s: State<M>) {
    i <= |t| && var r := ScanTo(f, t, i, s, |t|); ScanTo(f, t, 0, s0, |t|) == Scan(found + r.spans, r.state, r.at)
  }

  lemma ResumesStep<M>(f: Reactor<M>, t: string, s0: State<M>, found: seq<Span>, i: nat, s: State<M>)
    requires i < |t| && Resumes(f, t, s0, found, i, s)
    ensures var m := Step(f, t, i, s); Resumes(f, t, s0, found + Emitted(m.span), m.next, m.state)
  {
    var m := Step(f, t, i, s);
    var r := ScanTo(f, t, m.next, m.state, |t|);
    assert found + (Emitted(m.span) + r.spans) == (found + Emitted(m.span)) + r.spans;
  }

  // ---- the same text at another place ----

  function MoveSpan(s: Span, d: nat): Span { Span(s.start + d, s.end + d) }

  function MoveSpans(spans: seq<Span>, d: nat): seq<Span> {
    seq(|spans|, k requires 0 <= k < |spans| => MoveSpan(spans[k], d))
  }

  function MoveState<M>(s: State<M>, d: nat): State<M> {
    State(if s.start.Some? then Some(s.start.value + d) else None, s.mode)
  }

  function MoveScan<M>(r: Scan<M>, d: nat): Scan<M> {
    Scan(MoveSpans(r.spans, d), MoveState(r.state, d), r.at + d)
  }

  lemma TranslateStep<M>(f: Reactor<M>, t: string, d: nat, b: string, i: nat, s: State<M>)
    requires d <= |t| && b == t[d..] && i < |b|
    ensures var m := Step(f, b, i, s);
            var span := if m.span.Some? then Some(MoveSpan(m.span.value, d)) else None;
            Step(f, t, d + i, MoveState(s, d)) == Move(MoveState(m.state, d), d + m.next, span)
  {
    assert t[d + i] == b[i];
    assert Peek(t, d + i + 1) == Peek(b, i + 1);
    assert Peek(t, d + i + 2) == Peek(b, i + 2);
  }

  lemma MoveSpansConcat(p: seq<Span>, q: seq<Span>, d: nat)
    ensures MoveSpans(p + q, d) == MoveSpans(p, d) + MoveSpans(q, d)
  {}

  lemma MoveEmitted(span: Option<Span>, d: nat)
    ensures MoveSpans(Emitted(span), d) == Emitted(if span.Some? then Some(MoveSpan(span.value, d)) else None)
  {}

  lemma MoveJoined(x: Option<Span>, y: Option<Span>, rest: seq<Span>, d: nat)
    requires y == if x.Some? then Some(MoveSpan(x.value, d)) else None
    ensures MoveSpans(Emitted(x) + rest, d) == Emitted(y) + MoveSpans(rest, d)
  {
    MoveSpansConcat(Emitted(x), rest, d);
    MoveEmitted(x, d);
  }

  lemma {:induction false} Translate<M>(f: Reactor<M>, t: string, d: nat, b: string, i: nat, s: State<M>, n: nat)
    requires d <= |t| && b == t[d..] && i <= |b| && n <= |b|
    ensures ScanTo(f, t, d + i, MoveState(s, d), d + n) == MoveScan(ScanTo(f, b, i, s, n), d)
    decreases |b| - i
  {
    hide Step, Emitted, MoveSpan;
    if i < n {
      var m := Step(f, b, i, s);
      var moved := Step(f, t, d + i, MoveState(s, d));
      TranslateStep(f, t, d, b, i, s);
      Translate(f, t, d, b, m.next, m.state, n);
      var r := ScanTo(f, b, m.next, m.state, n);
      var r' := ScanTo(f, t, moved.next, moved.state, d + n);
      assert r' == MoveScan(r, d);
      MoveJoined(m.span, moved.span, r.spans, d);
    } else {
      assert MoveSpans([], d) == [];
    }
  }

  // ---- a text cut in two ----

  /** Characters the reactor did not move over had no influence on it. */
  ghost predicate Frugal<M(!new)>(f: Reactor<M>) {
    forall c, c1, c2, m, open ::
      var r := f(c, c1, c2, m, open);
      && (r.width == 1 ==> f(c, None, None, m, open) == r)
      && (r.width <= 2 ==> f(c, c1, None, m, open) == r)
  }

  lemma TruncateStep<M(!new)>(f: Reactor<M>, a: string, b: string, i: nat, s: State<M>)
    requires Fits(f) && Frugal(f) && i < |a| && Step(f, a + b, i, s).next <= |a|
    ensures Step(f, a, i, s) == Step(f, a + b, i, s)
  {
    var t := a + b;
    var c1, c2, d1, d2 := Peek(t, i + 1), Peek(t, i + 2), Peek(a, i + 1), Peek(a, i + 2);
    assert d1 == c1 || d1 == None;
    assert d2 == c2 || d2 == None;
    var r := f(t[i], c1, c2, s.mode, s.start.Some?);
    assert t[i] == a[i];
    assert f(a[i], d1, d2, s.mode, s.start.Some?) == r;
  }

  /** A scan of a + b that stops exactly at |a| is the scan of a alone. */
  lemma {:induction false} Truncate<M(!new)>(f: Reactor<M>, a: string, b: string, i: nat, s: State<M>)
    requires Fits(f) && Frugal(f)
    requires i <= |a| && ScanTo(f, a + b, i, s, |a|).at == |a|
    ensures ScanTo(f, a, i, s, |a|) == ScanTo(f, a + b, i, s, |a|)
    decreases |a| - i
  {
    if i < |a| {
      var m := Step(f, a + b, i, s);
      TruncateStep(f, a, b, i, s);
      Truncate(f, a, b, m.next, m.state);
    }
  }

  /** If the scan of a + b agrees with that of a up to |a|, the rest is the scan of b, moved. */
  lemma ScanConcat<M>(f: Reactor<M>, a: string, b: string, s: State<M>)
    requires ScanTo(f, a + b, 0, s, |a|) == ScanTo(f, a, 0, s, |a|)
    ensures var l := ScanTo(f, a, 0, s, |a|);
            l.state.start.None? ==>
              var r := ScanTo(f, b, 0, l.state, |b|);
              ScanTo(f, a + b, 0, s, |a + b|)
              == Scan(l.spans + MoveSpans(r.spans, |a|), MoveState(r.state, |a|), |a + b|)
  {
    var t, n := a + b, |a|;
    var l := ScanTo(f, a, 0, s, n);
    ScanSplit(f, t, 0, s, n, |t|);
    assert t[n..] == b;
    Translate(f, t, n, b, 0, l.state, |b|);
  }

  // ---- a text whose last span grows by the character put behind it ----

  ghost predicate GrowsAtEnd<M(!new)>(f: Reactor<M>, t: string, u: string)
    requires |u| == |t| + 1
  {
    && (forall k, s: State<M> {:trigger Step(f, t, k, s)} | 0 <= k < |t| - 1 ::
          Step(f, u, k, s) == Step(f, t, k, s) && Step(f, t, k, s).next < |t|)
    && (forall k, s: State<M> {:trigger Step(f, t, k, s)} | 0 <= k == |t| - 1 ::
          var m := Step(f, t, k, s);
          m.span.Some? ==> Step(f, u, k, s) == Move(m.state, |u|, Some(Span(m.span.value.start, |u|))))
  }

  lemma {:induction false} LastSpanGrows<M(!new)>(f: Reactor<M>, t: string, u: string, i: nat, s: State<M>)
    requires |u| == |t| + 1 && GrowsAtEnd(f, t, u) && i < |t|
    requires var spans := ScanTo(f, t, i, s, |t|).spans; spans != [] && spans[|spans| - 1].end == |t|
    ensures var r := ScanTo(f, t, i, s, |t|);
            var n := |r.spans| - 1;
            ScanTo(f, u, i, s, |u|) == Scan(r.spans[n := Span(r.spans[n].start, |u|)], r.state, |u|)
    decreases |t| - i
  {
    var m := Step(f, t, i, s);
    var r := ScanTo(f, t, i, s, |t|);
    var rest := ScanTo(f, t, m.next, m.state, |t|);
    if i + 1 == |t| {
      assert rest == Scan([], m.state, |t|);
      assert ScanTo(f, u, |u|, m.state, |u|) == Scan([], m.state, |u|);
    } else {
      assert r.spans == Emitted(m.span) + rest.spans && rest.spans != [];
      LastSpanGrows(f, t, u, m.next, m.state);
      ChangedLast(m.span, rest.spans, Span(rest.spans[|rest.spans| - 1].start, |u|));
    }
  }

  lemma ChangedLast(x: Option<Span>, rest: seq<Span>, last: Span)
    requires rest != []
    ensures var all := Emitted(x) + rest;
            all[|all| - 1 := last] == Emitted(x) + rest[|rest| - 1 := last] && all[|all| - 1] == rest[|rest| - 1]
  {
  }

  // ---- stretches that close nothing ----

  datatype Config<M> = Config(at: nat, state: State<M>)

  /** The k-th configuration of the path leads to the next in one step that closes no span. */
  predicate Linked<M(==)>(f: Reactor<M>, t: string, path: seq<Config<M>>, k: nat)
    requires k + 1 < |path|
  {
    var a, b := path[k], path[k + 1];
    a.at < |t| && Step(f, t, a.at, a.state) == Move(b.state, b.at, None)
  }

  ghost predicate Trace<M>(f: Reactor<M>, t: string, path: seq<Config<M>>, from: Config<M>, to: Config<M>) {
    && path != [] && path[0] == from && path[|path| - 1] == to && to.at <= |t|
    && forall k {:trigger Linked(f, t, path, k)} :: 0 <= k < |path| - 1 ==> Linked(f, t, path, k)
  }

  /** From i in state s the scanner arrives at j in state s', closing nothing. */
  ghost predicate Passes<M(!new)>(f: Reactor<M>, t: string, i: nat, s: State<M>, j: nat, s': State<M>) {
    exists path :: Trace(f, t, path, Config(i, s), Config(j, s'))
  }

  lemma PassNothing<M(!new)>(f: Reactor<M>, t: string, i: nat, s: State<M>)
    requires i <= |t|
    ensures Passes(f, t, i, s, i, s)
  {
    assert Trace(f, t, [Config(i, s)], Config(i, s), Config(i, s));
  }

  lemma PassStep<M(!new)>(f: Reactor<M>, t: string, i: nat, s: State<M>)
    requires i < |t| && Step(f, t, i, s).span.None?
    ensures var m := Step(f, t, i, s); Passes(f, t, i, s, m.next, m.state)
  {
    var m := Step(f, t, i, s);
    assert Trace(f, t, [Config(i, s), Config(m.next, m.state)], Config(i, s), Config(m.next, m.state));
  }

  lemma PassThen<M(!new)>(f: Reactor<M>, t: string, i: nat, s: State<M>, j: nat, s1: State<M>, k: nat, s2: State<M>)
    requires Passes(f, t, i, s, j, s1) && Passes(f, t, j, s1, k, s2)
    ensures Passes(f, t, i, s, k, s2)
  {
    var p :| Trace(f, t, p, Config(i, s), Config(j, s1));
    var q :| Trace(f, t, q, Config(j, s1), Config(k, s2));
    var path := p + q[1..];
    forall n | 0 <= n < |path| - 1 ensures Linked(f, t, path, n) {
      if n < |p| - 1 { assert Linked(f, t, p, n); } else { assert Linked(f, t, q, n - (|p| - 1)); }
    }
    assert Trace(f, t, path, Config(i, s), Config(k, s2));
  }

  lemma PassThree<M(!new)>(f: Reactor<M>, t: string, i: nat, s: State<M>, j: nat, s1: State<M>,
                           k: nat, s2: State<M>, n: nat, s3: State<M>)
    requires Passes(f, t, i, s, j, s1) && Passes(f, t, j, s1, k, s2) && Passes(f, t, k, s2, n, s3)
    ensures Passes(f, t, i, s, n, s3)
  {
    PassThen(f, t, j, s1, k, s2, n, s3);
    PassThen(f, t, i, s, j, s1, n, s3);
  }

  lemma {:induction false} TraceScan<M>(f: Reactor<M>, t: string, path: seq<Config<M>>, from: Config<M>, to: Config<M>)
    requires Trace(f, t, path, from, to)
    ensures from.at <= to.at && ScanTo(f, t, from.at, from.state, to.at) == Scan([], to.state, to.at)
    decreases |path|
  {
    if |path| > 1 {
      assert Linked(f, t, path, 0);
      forall k | 0 <= k < |path[1..]| - 1 ensures Linked(f, t, path[1..], k) { assert Linked(f, t, path, k + 1); }
      TraceScan(f, t, path[1..], path[1], to);
    }
  }

  lemma PassScan<M(!new)>(f: Reactor<M>, t: string, i: nat, s: State<M>, j: nat, s': State<M>)
    requires Passes(f, t, i, s, j, s')
    ensures i <= j <= |t| && ScanTo(f, t, i, s, j) == Scan([], s', j)
  {
    var path :| Trace(f, t, path, Config(i, s), Config(j, s'));
    TraceScan(f, t, path, Config(i, s), Config(j, s'));
  }

  // ---- the texts between the span ends ----

  predicate Within(t: string, spans: seq<Span>) {
    forall k | 0 <= k < |spans| :: spans[k].start <= spans[k].end <= |t|
  }

  function Texts(t: string, spans: seq<Span>): seq<string>
    requires Within(t, spans)
  {
    seq(|spans|, k requires 0 <= k < |spans| => t[spans[k].start..spans[k].end])
  }

  lemma TextsConcat(a: string, p: seq<Span>, b: string, q: seq<Span>)
    requires Within(a, p) && Within(b, q)
    ensures var all := p + MoveSpans(q, |a|);
            Within(a + b, all) && Texts(a + b, all) == Texts(a, p) + Texts(b, q)
  {
    var t, all := a + b, p + MoveSpans(q, |a|);
    assert Within(t, all);
    forall k | 0 <= k < |all| ensures Texts(t, all)[k] == (Texts(a, p) + Texts(b, q))[k] {
      if k < |p| {
        assert t[p[k].start..p[k].end] == a[p[k].start..p[k].end];
      } else {
        var s := q[k - |p|];
        assert t[s.start + |a|..s.end + |a|] == b[s.start..s.end];
      }
    }
  }
}
