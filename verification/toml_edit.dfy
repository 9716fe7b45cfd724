/**
 The source-preserving edits.  Each one is a change to the text; each main lemma
 says what the statement list of the changed text is, as the lexer reads it.
 */
module TomlEdit {
  import opened Wrappers
  import opened Scanner
  import opened TomlLexer
  import opened TomlComposition
  import opened TomlBoundaries
  import opened TomlKeys
  import opened PythonText
  import opened TomlValues

  // ---- the edits, as the source makes them ----

  function NewlineFor(statement: string): string {
    if |statement| >= 2 && statement[|statement| - 2..] == "\r\n" then "\r\n" else "\n"
  }

  /** The k-th statement's text; spans and statements have the same indices. */
  function StatementAt(t: string, k: nat): string
    requires k < |Spans(t)|
  {
    Statements(t)[k]
  }

  /** The first header among the statements from k on, or the number of statements. */
  function NextHeader(ss: seq<string>, k: nat): (n: nat)
    requires k <= |ss|
    ensures k <= n <= |ss|
    decreases |ss| - k
  {
    if k == |ss| || IsAnyHeader(ss[k]) then k else NextHeader(ss, k + 1)
  }

  /** Where statement k starts; the end of the text when there is none. */
  function StartOf(t: string, k: nat): nat { if k < |Spans(t)| then Spans(t)[k].start else |t| }

  function FirstTableStart(t: string): nat { StartOf(t, NextHeader(Statements(t), 0)) }

  /** The first statement from k on that starts in lo..hi and assigns the key. */
  function FirstFrom(spans: seq<Span>, ss: seq<string>, k: nat, lo: nat, hi: nat, key: string): (r: Option<nat>)
    requires |spans| == |ss|
    ensures r.Some? ==> k <= r.value < |ss|
    decreases |ss| - k
  {
    if k >= |ss| then None
    else if lo <= spans[k].start < hi && SimpleKey(ss[k]) == Some(key) then Some(k)
    else FirstFrom(spans, ss, k + 1, lo, hi, key)
  }

  function FirstAssignment(t: string, lo: nat, hi: nat, key: string): (r: Option<nat>)
    ensures r.Some? ==> r.value < |Spans(t)|
  {
    FirstFrom(Spans(t), Statements(t), 0, lo, hi, key)
  }

  function ReplaceStatement(t: string, k: nat, replacement: string): string
    requires k < |Spans(t)|
  {
    SpansWithin(t);
    t[..Spans(t)[k].start] + replacement + t[Spans(t)[k].end..]
  }

  /** A newline, unless the text already ends a line. */
  function LineBreak(t: string): string { if t == "" || EndsWithNewline(t) then "" else "\n" }

  /** A line written at index n, on a line of its own. */
  function Inserted(t: string, n: nat, line: string, gap: string): string
    requires n <= |t|
  {
    t[..n] + LineBreak(t[..n]) + line + gap + t[n..]
  }

  /** A line in place of the first assignment to the key in lo..hi, or behind them. */
  function Written(t: string, lo: nat, hi: nat, key: string, line: string, gap: string): string
    requires hi <= |t|
  {
    var k := FirstAssignment(t, lo, hi, key);
    if k.Some? then ReplaceStatement(t, k.value, line + NewlineFor(StatementAt(t, k.value)))
    else Inserted(t, hi, line + "\n", gap)
  }

  function SetTopLevelValue(t: string, key: string, v: Value): Result<string> {
    var value := Render(v);
    if value.Failure? then Failure
    else
      var limit := FirstTableStart(t);
      PositionsWithin(t, NextHeader(Statements(t), 0));
      Success(Written(t, 0, limit, key, Assignment(key, value.value), if limit < |t| then "\n" else ""))
  }

  /** The first header with this path among the statements from k on. */
  function FindTable(ss: seq<string>, k: nat, path: seq<string>): (r: Option<nat>)
    requires k <= |ss|
    ensures r.Some? ==> k <= r.value < |ss| && IsAnyHeader(ss[r.value]) && HeaderPath(ss[r.value]) == Some(path)
    ensures r.None? ==> (forall j | k <= j < |ss| :: HeaderPath(ss[j]) != Some(path))
    decreases |ss| - k
  {
    if k == |ss| then None
    else if HeaderPath(ss[k]) == Some(path) then Some(k)
    else FindTable(ss, k + 1, path)
  }

  predicate TopLevelAssignmentExists(t: string, key: string) {
    FirstAssignment(t, 0, FirstTableStart(t), key).Some?
  }

  /** Failure is the source's refusal: an unsupported value, or a parent written as an inline table. */
  function SetTableValue(t: string, path: seq<string>, key: string, v: Value): Result<string> {
    var value, header := Render(v), FindTable(Statements(t), 0, path);
    if header.None? then
      if path != [] && TopLevelAssignmentExists(t, path[0]) then Failure
      else if value.Failure? then Failure
      else
        Success(t + LineBreak(t) + (if AllSpace(t) then "" else "\n")
                + (TableHeader(path) + "\n") + (Assignment(key, value.value) + "\n"))
    else if value.Failure? then Failure
    else
      var p := header.value;
      var q := NextHeader(Statements(t), p + 1);
      var bodyStart, bodyEnd := Spans(t)[p].end, StartOf(t, q);
      PositionsWithin(t, q);
      Success(Written(t, bodyStart, bodyEnd, key, Assignment(key, value.value), ""))
  }

  // ---- positions and indices ----

  lemma PositionsWithin(t: string, k: nat)
    ensures StartOf(t, k) <= |t|
  {
    SpansWithin(t);
  }

  lemma {:induction false} TilesOrdered(t: string, p: nat, comment: bool, spans: seq<Span>, j: nat, k: nat)
    requires p <= |t| && Tiles(t, p, comment, spans) && j < k < |spans|
    ensures spans[j].end <= spans[k].start
    decreases |spans|
  {
    TilesWithin(t, spans[0].end, false, spans[1..]);
    if j > 0 {
      TilesOrdered(t, spans[0].end, false, spans[1..], j - 1, k - 1);
    } else {
      assert spans[k] == spans[1..][k - 1];
    }
  }

  /** Comparing start positions is comparing indices. */
  lemma StartsOrdered(t: string, k: nat, n: nat)
    requires k < |Spans(t)| && n <= |Spans(t)|
    ensures Spans(t)[k].start < StartOf(t, n) <==> k < n
    ensures n < |Spans(t)| ==> (Spans(t)[n].end <= Spans(t)[k].start <==> n < k)
  {
    SpansTile(t);
    TilesWithin(t, 0, false, Spans(t));
    if k < n && n < |Spans(t)| { TilesOrdered(t, 0, false, Spans(t), k, n); }
    if n < k { TilesOrdered(t, 0, false, Spans(t), n, k); }
  }

  /** The first statement in from..to that assigns the key; to when there is none. */
  function FindKey(ss: seq<string>, from: nat, to: nat, key: string): (n: nat)
    requires from <= to <= |ss|
    ensures from <= n <= to
    ensures n < to ==> SimpleKey(ss[n]) == Some(key)
    ensures (forall j | from <= j < n :: SimpleKey(ss[j]) != Some(key))
    decreases |ss| - from
  {
    if from == to || SimpleKey(ss[from]) == Some(key) then from else FindKey(ss, from + 1, to, key)
  }

  /** The search by position finds what a search by index finds. */
  lemma {:induction false} SearchByIndex(spans: seq<Span>, ss: seq<string>, k: nat, from: nat, to: nat,
                                         lo: nat, hi: nat, key: string)
    requires |spans| == |ss| && k <= |ss| && from <= to <= |ss|
    requires forall j | 0 <= j < |ss| :: (lo <= spans[j].start < hi <==> from <= j < to)
    ensures FirstFrom(spans, ss, k, lo, hi, key)
         == if k > to then None
            else var n := FindKey(ss, if k > from then k else from, to, key); if n < to then Some(n) else None
    decreases |ss| - k
  {
    if k < |ss| {
      assert lo <= spans[k].start < hi <==> from <= k < to;
      SearchByIndex(spans, ss, k + 1, from, to, lo, hi, key);
    }
  }

  lemma TopLevelSearch(t: string, key: string)
    ensures var n := NextHeader(Statements(t), 0);
            var i := FindKey(Statements(t), 0, n, key);
            FirstAssignment(t, 0, FirstTableStart(t), key) == if i < n then Some(i) else None
  {
    var n := NextHeader(Statements(t), 0);
    forall j | 0 <= j < |Spans(t)| ensures 0 <= Spans(t)[j].start < StartOf(t, n) <==> 0 <= j < n {
      StartsOrdered(t, j, n);
    }
    SearchByIndex(Spans(t), Statements(t), 0, 0, n, 0, StartOf(t, n), key);
  }

  lemma TableSearch(t: string, p: nat, key: string)
    requires p < |Statements(t)|
    ensures var q := NextHeader(Statements(t), p + 1);
            var i := FindKey(Statements(t), p + 1, q, key);
            FirstAssignment(t, Spans(t)[p].end, StartOf(t, q), key) == if i < q then Some(i) else None
  {
    var q := NextHeader(Statements(t), p + 1);
    var lo, hi := Spans(t)[p].end, StartOf(t, q);
    forall j | 0 <= j < |Spans(t)| ensures lo <= Spans(t)[j].start < hi <==> p + 1 <= j < q {
      StartsOrdered(t, j, q);
      StartsOrdered(t, j, p);
    }
    SearchByIndex(Spans(t), Statements(t), 0, p + 1, q, lo, hi, key);
  }

  // ---- splicing one statement in ----

  lemma SingleStatement(r: string)
    requires OneStatement(r)
    ensures Settled(r) && Statements(r) == [r] && Closed(r)
  {
    SpansWithin(r);
    assert Spans(r) == [Span(0, |r|)];
    assert r[0..|r|] == r;
  }

  predicate IsLine(r: string) { OneStatement(r) && r != "" && !IsNewline(r[0]) && r[|r| - 1] == '\n' }

  /** A whole line put at a settled boundary is one more statement there. */
  lemma Splice(a: string, r: string, b: string)
    requires Settled(a) && IsLine(r)
    ensures Statements(a + r + b) == Statements(a) + [r] + Statements(b)
    ensures Closed(a + r + b) == Closed(b) && Settled(a + r + b) == Settled(b)
  {
    SingleStatement(r);
    StatementsConcat(a, r);
    assert (a + r)[|a + r| - 1] == '\n';
    StatementsConcat(a + r, b);
  }

  lemma AssignmentIsLine(k: string, v: Value, nl: string)
    requires Render(v).Success? && IsLineEnd(nl)
    ensures IsLine(Assignment(k, Render(v).value) + nl)
  {
    AssignmentIsOneStatement(k, v, nl);
    FirstOfKey(k);
    assert (Assignment(k, Render(v).value) + nl)[0] == TomlKey(k)[0];
  }

  lemma BlankLine()
    ensures Settled("\n") && Statements("\n") == [] && Closed("\n")
  {
    var t := "\n";
    assert Step(React, t, 0, INIT) == Move(INIT, 1, None);
    assert ScanTo(React, t, 1, INIT, 1) == Scan([], INIT, 1);
    assert Lex(t) == Scan([], INIT, 1);
    assert Spans(t) == [];
  }

  /** Nothing but a line break separates the text from what is written behind it. */
  lemma Break(t: string)
    requires Closed(t)
    ensures Settled(t + LineBreak(t)) && Statements(t + LineBreak(t)) == Terminated(t)
    ensures t + LineBreak(t) == "" || EndsWithNewline(t + LineBreak(t))
  {
    if t == "" || EndsWithNewline(t) {
      ClosedSettles(t);
      assert t + "" == t;
    } else {
      Terminate(t);
    }
  }

  lemma ReplaceAt(t: string, k: nat, r: string)
    requires Closed(t) && k < |Spans(t)| && IsLine(r)
    ensures k < |Statements(t)| && Statements(ReplaceStatement(t, k, r)) == Statements(t)[k := r]
    ensures Closed(ReplaceStatement(t, k, r))
  {
    Surround(t, k);
    var Span(b, e) := Spans(t)[k];
    Splice(t[..b], r, t[e..]);
    if k >= |Lex(t).spans| { assert t[e..] == ""; }
    OneChanged(Statements(t), k, r);
  }

  lemma OneChanged(ss: seq<string>, k: nat, r: string)
    requires k < |ss|
    ensures ss[..k] + [r] + ss[k + 1..] == ss[k := r]
  {
  }

  lemma CutStatements(t: string, k: nat)
    requires k < |Spans(t)|
    ensures var b := Spans(t)[k].start;
            && b < |t| && Settled(t[..b]) && Statements(t[..b]) == Statements(t)[..k]
            && Statements(t[b..]) == Statements(t)[k..] && Closed(t[b..]) == Closed(t)
  {
    Surround(t, k);
    var b := Spans(t)[k].start;
    assert t == t[..b] + t[b..];
    StatementsConcat(t[..b], t[b..]);
  }

  lemma BlankBefore(b: string)
    ensures Statements("\n" + b) == Statements(b) && Closed("\n" + b) == Closed(b)
  {
    BlankLine();
    StatementsConcat("\n", b);
  }

  /** A line put between two texts, on a line of its own, with a blank line behind it or not. */
  lemma InsertBetween(a: string, r: string, gap: string, b: string)
    requires Closed(a) && Closed(b) && IsLine(r) && (gap == "" || gap == "\n")
    ensures var u := a + LineBreak(a) + r + gap + b;
            Closed(u) && Statements(u) == Terminated(a) + [r] + Statements(b)
  {
    Break(a);
    Splice(a + LineBreak(a), r, gap + b);
    if gap == "\n" { BlankBefore(b); } else { assert gap + b == b; }
    Regrouped(a + LineBreak(a) + r, gap, b);
  }

  lemma TerminatedSettled(a: string)
    requires Settled(a)
    ensures Terminated(a) == Statements(a) && Closed(a)
  {}

  lemma EmptyText()
    ensures Settled("") && Statements("") == []
  {
    assert Lex("") == Scan([], INIT, 0);
    assert Spans("") == [];
  }
}
