/** What edits do to the text itself: all outside the edited statements stays, comments and line ends included. */
module TomlTexts {
  import opened Wrappers
  import opened Scanner
  import opened TomlLexer
  import opened TomlComposition
  import opened TomlBoundaries
  import opened PythonText
  import opened TomlKeys
  import opened TomlValues
  import opened TomlEdit
  import opened TomlSetResults
  import opened TomlRemove

  // ---- a document as statements and what stands between them ----

  /** Texts with gaps around them, from the k-th gap on. */
  function Laid(gaps: seq<string>, texts: seq<string>, k: nat): string
    requires |gaps| == |texts| + 1 && k <= |texts|
    decreases |texts| - k
  {
    if k == |texts| then gaps[k] else gaps[k] + texts[k] + Laid(gaps, texts, k + 1)
  }

  function GapAt(t: string, k: nat): string
    requires k <= |Spans(t)|
  {
    AscendingAt(t, k);
    PositionsWithin(t, k);
    if Behind(t, k) <= StartOf(t, k) then t[Behind(t, k)..StartOf(t, k)] else ""
  }

  /** The gaps of a document. */
  function Gaps(t: string): seq<string> { seq(|Spans(t)| + 1, k requires 0 <= k <= |Spans(t)| => GapAt(t, k)) }

  /** The statements without those dropped. */
  function Blanked(ss: seq<string>, drop: seq<bool>): seq<string>
    requires |drop| == |ss|
  {
    seq(|ss|, k requires 0 <= k < |ss| => if drop[k] then "" else ss[k])
  }

  lemma PlaceOf(t: string, k: nat)
    requires k < |Spans(t)|
    ensures |Statements(t)| == |Spans(t)|
    ensures var p, Span(b, e) := Behind(t, k), Spans(t)[k];
            p <= b <= e <= |t| && GapAt(t, k) == t[p..b] && Statements(t)[k] == t[b..e] && Behind(t, k + 1) == e
  {
    hide Spans, Lex;
    AscendingAt(t, k);
    AscendingStep(Spans(t), k, Behind(t, k), |t|);
    SpansWithin(t);
  }

  lemma {:induction false} LaidKept(t: string, drop: seq<bool>, k: nat)
    requires |drop| == |Spans(t)| == |Statements(t)| && k <= |drop|
    ensures Laid(Gaps(t), Blanked(Statements(t), drop), k) == KeptText(t, drop, k)
    decreases |drop| - k
  {
    hide Spans, Statements, Lex;
    AscendingAt(t, k);
    if k < |drop| {
      PlaceOf(t, k);
      KeptUnfold(t, drop, k);
      LaidKept(t, drop, k + 1);
    } else {
      assert GapAt(t, k) == t[Behind(t, k)..];
    }
  }

  /** A document is its statements with gaps around them; a removal leaves the gaps and the other statements. */
  lemma RemovedText(t: string, drop: seq<bool>)
    requires |drop| == |Spans(t)|
    ensures |Statements(t)| == |drop| && t == Laid(Gaps(t), Statements(t), 0)
    ensures CutRanges(t, Dropped(Spans(t), drop, 0)) == Laid(Gaps(t), Blanked(Statements(t), drop), 0)
  {
    var none := seq(|drop|, k => false);
    SpansWithin(t);
    SpansAscending(t);
    LaidKept(t, drop, 0);
    LaidKept(t, none, 0);
    CutIsKept(t, Spans(t), drop, 0, 0);
    CutIsKept(t, Spans(t), none, 0, 0);
    NoneDropped(Spans(t), none, 0);
    assert Blanked(Statements(t), none) == Statements(t);
    assert t[..0] + KeptText(t, drop, 0) == KeptText(t, drop, 0) && t[..0] + KeptText(t, none, 0) == KeptText(t, none, 0);
  }

  lemma {:induction false} NoneDropped(spans: seq<Span>, drop: seq<bool>, k: nat)
    requires |drop| == |spans| && k <= |spans| && forall j | 0 <= j < |drop| :: !drop[j]
    ensures Dropped(spans, drop, k) == []
    decreases |spans| - k
  {
    if k < |spans| { NoneDropped(spans, drop, k + 1); }
  }

  /** No statement stands in a gap. */
  lemma GapsAreEmpty(t: string, k: nat)
    requires k < |Spans(t)|
    ensures Statements(Gaps(t)[k]) == []
  {
    GapAlone(t, k);
    PlaceOf(t, k);
  }

  // ---- replacing and inserting ----

  predicate EndsInCrlf(s: string) { |s| >= 2 && s[|s| - 2] == '\r' && s[|s| - 1] == '\n' }

  predicate EndsLine(s: string) { s != "" && (s[|s| - 1] == '\n' || s[|s| - 1] == '\r') }

  /** Statement i is replaced, nothing in front of it or behind it changes, and the new line ends as it did. */
  ghost predicate Replaces(t: string, u: string, i: nat, line: string) {
    exists a: string, b: string ::
      && i < |Statements(t)| && t == a + Statements(t)[i] + b && Settled(a)
      && Statements(a) == Statements(t)[..i] && Statements(b) == Statements(t)[i + 1..]
      && u == a + line + (if EndsInCrlf(Statements(t)[i]) then "\r\n" else "\n") + b
  }

  /** A line is put in front of statement i, or at the end, on a line of its own. */
  ghost predicate Inserts(t: string, u: string, i: nat, line: string, gap: string) {
    exists a: string, b: string ::
      && i <= |Statements(t)| && t == a + b && (if i == |Statements(t)| then b == "" else Statements(t)[i] <= b)
      && (i < |Statements(t)| ==> Settled(a) && Statements(a) == Statements(t)[..i])
      && u == a + (if a == "" || EndsLine(a) then "" else "\n") + line + "\n" + gap + b
  }

  lemma ReplacedText(t: string, i: nat, line: string)
    requires i < |Spans(t)|
    ensures |Statements(t)| == |Spans(t)|
    ensures Replaces(t, ReplaceStatement(t, i, line + NewlineFor(Statements(t)[i])), i, line)
  {
    hide Statements, Spans, Lex, NewlineFor, EndsInCrlf;
    Surround(t, i);
    BehindStatement(t, i);
    var Span(b, e) := Spans(t)[i];
    Around(t, b, e);
    LastTwo(Statements(t)[i], "\r\n");
    Grouped(t[..b], line, NewlineFor(Statements(t)[i]), t[e..]);
  }

  lemma BehindStatement(t: string, k: nat)
    requires k < |Spans(t)|
    ensures |Statements(t)| == |Spans(t)| && Spans(t)[k].end <= |t|
    ensures Statements(t[Spans(t)[k].end..]) == Statements(t)[k + 1..]
  {
    Surround(t, k);
    if k >= |Lex(t).spans| {
      EmptyText();
      assert t[Spans(t)[k].end..] == "";
    }
  }

  lemma LastTwo(s: string, ending: string)
    requires ending == "\r\n"
    ensures NewlineFor(s) == if EndsInCrlf(s) then ending else "\n"
  {
    if |s| >= 2 { assert s[|s| - 2..] == [s[|s| - 2], s[|s| - 1]]; }
  }

  lemma InsertedText(t: string, i: nat, line: string, gap: string)
    requires i <= |Spans(t)|
    ensures |Statements(t)| == |Spans(t)| && StartOf(t, i) <= |t|
    ensures Inserts(t, Inserted(t, StartOf(t, i), line + "\n", gap), i, line, gap)
  {
    hide Statements, Spans, Inserted;
    TextsCount(t);
    PositionsWithin(t, i);
    CutAt(t, i);
    InsertedParts(t, StartOf(t, i), line, gap);
  }

  lemma InsertedParts(t: string, n: nat, line: string, gap: string)
    requires n <= |t|
    ensures var a, b := t[..n], t[n..];
            t == a + b && Inserted(t, n, line + "\n", gap)
                          == a + (if a == "" || EndsLine(a) then "" else "\n") + line + "\n" + gap + b
  {
    Grouped(t[..n] + LineBreak(t[..n]), line, "\n", gap + t[n..]);
    Grouped(t[..n] + LineBreak(t[..n]) + line + "\n", gap, t[n..], "");
  }

  lemma Grouped(a: string, b: string, c: string, d: string)
    ensures a + (b + c) + d == a + b + c + d && a + (b + c) == a + b + c
  {
  }

  /** The text cut in front of statement k. */
  lemma CutAt(t: string, k: nat)
    requires k <= |Spans(t)|
    ensures |Statements(t)| == |Spans(t)| && StartOf(t, k) <= |t|
    ensures var a, b := t[..StartOf(t, k)], t[StartOf(t, k)..];
            && t == a + b && (if k == |Statements(t)| then b == "" else Statements(t)[k] <= b)
            && (k < |Statements(t)| ==> Settled(a) && Statements(a) == Statements(t)[..k])
  {
    hide Statements, Spans;
    TextsCount(t);
    PositionsWithin(t, k);
    if k < |Spans(t)| {
      CutStatements(t, k);
      PlaceOf(t, k);
      assert t[StartOf(t, k)..][..|Statements(t)[k]|] == Statements(t)[k];
    }
  }

  /** Setting a top-level key replaces its statement, or adds a line and a blank one in front of the first table. */
  lemma SetTopLevelText(t: string, key: string, v: Value)
    requires Render(v).Success?
    ensures var ss, r, line := Statements(t), SetTopLevelValue(t, key, v), TomlKey(key) + " = " + Render(v).value;
            var n := NextHeader(ss, 0);
            var i := FindKey(ss, 0, n, key);
            r.Success? && if i < n then Replaces(t, r.value, i, line)
                          else Inserts(t, r.value, n, line, if n < |ss| then "\n" else "")
  {
    hide Render, FindKey, NextHeader, ReplaceStatement, Inserted, NewlineFor, Replaces, Inserts, SetTopLevelValue;
    SetOnTopText(t, key, v);
    var n := NextHeader(Statements(t), 0);
    var i := FindKey(Statements(t), 0, n, key);
    var line := Assignment(key, Render(v).value);
    if i < n { ReplacedText(t, i, line); } else { InsertedText(t, n, line, if n < |Statements(t)| then "\n" else ""); }
  }

  lemma SetOnTopText(t: string, key: string, v: Value)
    requires Render(v).Success?
    ensures var ss, line := Statements(t), Assignment(key, Render(v).value);
            var n := NextHeader(ss, 0);
            var i := FindKey(ss, 0, n, key);
            StartOf(t, n) <= |t| && |ss| == |Spans(t)| &&
            SetTopLevelValue(t, key, v)
            == Success(if i < n then ReplaceStatement(t, i, line + NewlineFor(ss[i]))
                       else Inserted(t, StartOf(t, n), line + "\n", if n < |ss| then "\n" else ""))
  {
    hide Render, Assignment, FindKey, NextHeader, ReplaceStatement, Inserted, NewlineFor, Statements;
    TextsCount(t);
    TopLevelSearch(t, key);
    var n := NextHeader(Statements(t), 0);
    PositionsWithin(t, n);
    if n < |Spans(t)| { CutStatements(t, n); }
  }

  /** Setting a key in a table replaces its statement, or adds a line in front of the next header. */
  lemma SetTableText(t: string, p: nat, path: seq<string>, key: string, v: Value)
    requires Render(v).Success? && FindTable(Statements(t), 0, path) == Some(p)
    ensures var ss, r, line := Statements(t), SetTableValue(t, path, key, v), TomlKey(key) + " = " + Render(v).value;
            var q := NextHeader(ss, p + 1);
            var i := FindKey(ss, p + 1, q, key);
            r.Success? && if i < q then Replaces(t, r.value, i, line) else Inserts(t, r.value, q, line, "")
  {
    hide Render, FindKey, NextHeader, ReplaceStatement, Inserted, NewlineFor, Replaces, Inserts, SetTableValue;
    SetInTableText(t, p, path, key, v);
    var q := NextHeader(Statements(t), p + 1);
    var i := FindKey(Statements(t), p + 1, q, key);
    var line := Assignment(key, Render(v).value);
    if i < q { ReplacedText(t, i, line); } else { InsertedText(t, q, line, ""); }
  }

  /** A new table is written behind all there was, a blank line in front of it unless all was white space. */
  lemma NewTableText(t: string, path: seq<string>, key: string, v: Value)
    requires Render(v).Success? && FindTable(Statements(t), 0, path).None?
    requires path == [] || !TopLevelAssignmentExists(t, path[0])
    ensures var r := SetTableValue(t, path, key, v);
            && r.Success?
            && r.value == t + (if t == "" || EndsLine(t) then "" else "\n")
                          + (if forall k | 0 <= k < |t| :: IsSpace(t[k]) then "" else "\n")
                          + ("[" + DottedKey(path) + "]" + "\n") + (TomlKey(key) + " = " + Render(v).value + "\n")
  {
    hide Render, SetTableValue, DottedKey, TomlKey;
    SetNewTableText(t, path, key, v);
  }

  /** The statements from p to q go, nothing in front of them or behind them changes. */
  ghost predicate Cuts(t: string, u: string, p: nat, q: nat) {
    exists a: string, cut: string, b: string ::
      && p < q <= |Statements(t)| && t == a + cut + b && u == a + b && Settled(a)
      && (q < |Statements(t)| ==> Settled(a + cut) && Statements(a + cut) == Statements(t)[..q])
      && Statements(a) == Statements(t)[..p] && (if q == |Statements(t)| then b == "" else Statements(t)[q] <= b)
  }

  /** The first header behind p that is not nested in the table, or the end. */
  ghost predicate IsTableEnd(ss: seq<string>, p: nat, path: seq<string>, q: nat) {
    && p < q <= |ss|
    && (forall j | p < j < q :: IsAnyHeader(ss[j]) ==> IsNested(ss[j], path))
    && (q < |ss| ==> IsAnyHeader(ss[q]) && !IsNested(ss[q], path))
  }

  /** A table goes from its header to the first header that is not nested in it, and all else stays. */
  lemma RemovedTableText(t: string, path: seq<string>, p: nat)
    requires FindTable(Statements(t), 0, path) == Some(p)
    ensures exists q: nat :: IsTableEnd(Statements(t), p, path, q) && Cuts(t, RemoveTable(t, path), p, q)
  {
    hide FindTable, HeaderPath, IsAnyHeader, Statements, Cuts, Spans;
    TextsCount(t);
    var q := TableEnd(Statements(t), p + 1, path);
    TableEndMeans(Statements(t), p + 1, path);
    PositionsWithin(t, p);
    PositionsWithin(t, q);
    StartsOrdered(t, p, q);
    CutBetween(t, p, q);
    assert IsTableEnd(Statements(t), p, path, q);
  }

  lemma CutBetween(t: string, p: nat, q: nat)
    requires p < q <= |Statements(t)|
    ensures |Statements(t)| == |Spans(t)| && StartOf(t, p) <= StartOf(t, q) <= |t|
    ensures Cuts(t, t[..StartOf(t, p)] + t[StartOf(t, q)..], p, q)
  {
    hide Statements, Spans;
    TextsCount(t);
    PositionsWithin(t, q);
    StartsOrdered(t, p, q);
    CutAt(t, p);
    CutAt(t, q);
    Around(t, StartOf(t, p), StartOf(t, q));
  }

  lemma Around(t: string, i: nat, j: nat)
    requires i <= j <= |t|
    ensures t == t[..i] + t[i..j] + t[j..] && t[..j] == t[..i] + t[i..j]
  {
  }

  lemma TextsCount(t: string)
    ensures |Statements(t)| == |Spans(t)|
  {
    SpansWithin(t);
  }

  /** A header whose path begins with the table's. */
  predicate IsNested(statement: string, path: seq<string>) {
    HeaderPath(statement).Some? && path <= HeaderPath(statement).value
  }

  lemma {:induction false} TableEndMeans(ss: seq<string>, k: nat, path: seq<string>)
    requires k <= |ss|
    ensures var n := TableEnd(ss, k, path);
            && (forall j | k <= j < n :: IsAnyHeader(ss[j]) ==> IsNested(ss[j], path))
            && (n < |ss| ==> IsAnyHeader(ss[n]) && !IsNested(ss[n], path))
    decreases |ss| - k
  {
    hide HeaderPath, IsAnyHeader;
    if k < |ss| && !(IsAnyHeader(ss[k]) && !IsNested(ss[k], path)) { TableEndMeans(ss, k + 1, path); }
  }
}
