/** What setting a key does to the statements of a document, and when setting it again changes nothing. */
module TomlSetResults {
  import opened Wrappers
  import opened Scanner
  import opened TomlLexer
  import opened TomlComposition
  import opened TomlBoundaries
  import opened TomlKeys
  import opened PythonText
  import opened TomlValues
  import opened TomlEdit

  /** One statement of ss between from and to replaced by the line, or the line put in front of statement to. */
  function WithLine(ss: seq<string>, end: seq<string>, from: nat, to: nat, key: string, line: string): seq<string>
    requires from <= to <= |ss|
  {
    var i := FindKey(ss, from, to, key);
    if i < to then ss[i := line + NewlineFor(ss[i])]
    else if to < |ss| then ss[..to] + [line + "\n"] + ss[to..]
    else end + [line + "\n"]
  }

  /**
   Setting a top-level key is a one-statement edit.  Every other statement keeps
   its text, except that an unterminated last line gets its newline.
   */
  lemma SetTopLevelEdits(t: string, key: string, v: Value)
    requires Closed(t) && Render(v).Success?
    ensures var ss := Statements(t);
            var r := SetTopLevelValue(t, key, v);
            r.Success? && Closed(r.value) &&
            Statements(r.value)
            == WithLine(ss, Terminated(t), 0, NextHeader(ss, 0), key, Assignment(key, Render(v).value))
  {
    hide Render, Assignment, FindKey, NextHeader, ReplaceStatement, Inserted, NewlineFor, WithLine;
    var n := NextHeader(Statements(t), 0);
    TopLevelSearch(t, key);
    PositionsWithin(t, n);
    WriteLine(t, 0, n, key, v, if n < |Spans(t)| then "\n" else "");
    InsertLine(t, n, key, v, "");
  }

  /** The line put in front of statement n, or behind the last one. */
  lemma InsertLine(t: string, n: nat, key: string, v: Value, gap: string)
    requires Closed(t) && n <= |Spans(t)| && Render(v).Success? && (gap == "" || gap == "\n")
    ensures var limit := StartOf(t, n);
            var line := Assignment(key, Render(v).value) + "\n";
            limit <= |t| && |Statements(t)| == |Spans(t)| && (limit < |t| <==> n < |Spans(t)|) &&
            var u := Inserted(t, limit, line, gap);
            Closed(u) && Statements(u)
            == if n < |Spans(t)| then Statements(t)[..n] + [line] + Statements(t)[n..] else Terminated(t) + [line]
  {
    PositionsWithin(t, n);
    var limit := StartOf(t, n);
    AssignmentIsLine(key, v, "\n");
    if n < |Spans(t)| {
      CutStatements(t, n);
      TerminatedSettled(t[..limit]);
    } else {
      EmptyText();
      assert t[..limit] == t && t[limit..] == "";
    }
    InsertBetween(t[..limit], Assignment(key, Render(v).value) + "\n", gap, t[limit..]);
  }

  // ---- the statements behind a blank line ----

  lemma JoinStep(t: string, u: string, i: nat, s: State<Mode>)
    requires u == t + "\n" && i + 1 < |t| && t[|t| - 1] == '\r'
    ensures Step(React, u, i, s) == Step(React, t, i, s) && Step(React, t, i, s).next < |t|
  {
    assert u[i] == t[i] && Peek(u, i + 1) == Peek(t, i + 1);
    assert i + 2 < |t| ==> Peek(u, i + 2) == Peek(t, i + 2);
    assert i + 2 == |t| ==> Peek(t, i + 1) == Some('\r');
    assert i + 3 == |t| ==> Peek(t, i + 2) == Some('\r');
  }

  lemma JoinEnd(t: string, u: string, i: nat, s: State<Mode>)
    requires u == t + "\n" && i + 1 == |t| && t[i] == '\r' && Step(React, t, i, s).span.Some?
    ensures var m := Step(React, t, i, s);
            Step(React, u, i, s) == Move(m.state, |u|, Some(Span(m.span.value.start, |u|)))
  {
    assert u[i] == t[i] && Peek(u, i + 1) == Some('\n');
  }

  /** A newline behind a statement that ends in a lone CR joins that line ending. */
  lemma JoinGrows(t: string, u: string)
    requires u == t + "\n" && t != "" && t[|t| - 1] == '\r'
    ensures GrowsAtEnd(React, t, u)
  {
    forall k: nat, s: State<Mode> | k < |t| - 1
      ensures Step(React, u, k, s) == Step(React, t, k, s) && Step(React, t, k, s).next < |t|
    {
      JoinStep(t, u, k, s);
    }
    forall k: nat, s: State<Mode> | k == |t| - 1 && Step(React, t, k, s).span.Some?
      ensures var m := Step(React, t, k, s);
              Step(React, u, k, s) == Move(m.state, |u|, Some(Span(m.span.value.start, |u|)))
    {
      JoinEnd(t, u, k, s);
    }
  }

  lemma JoinLex(t: string)
    requires CutsCrlf(t, Lex(t).spans, "\n")
    ensures var r := Lex(t);
            var n := |r.spans| - 1;
            Lex(t + "\n") == Scan(r.spans[n := Span(r.spans[n].start, |t| + 1)], r.state, |t| + 1)
  {
    JoinGrows(t, t + "\n");
    LastSpanGrows(React, t, t + "\n", 0, INIT);
  }

  /** The statements once a blank line is written behind a text that ends its last line. */
  function Parted(t: string): seq<string> {
    var ss := Statements(t);
    if ss != [] && CutsCrlf(t, Lex(t).spans, "\n") then ss[|ss| - 1 := ss[|ss| - 1] + "\n"] else ss
  }

  lemma TextsGrow(t: string, p: seq<Span>, u: string, n: nat)
    requires Within(t, p) && u == t + "\n" && n + 1 == |p| && p[n].end == |t|
    ensures var q := p[n := Span(p[n].start, |u|)];
            Within(u, q) && Texts(u, q) == Texts(t, p)[n := Texts(t, p)[n] + "\n"]
  {
    var q := p[n := Span(p[n].start, |u|)];
    forall j | 0 <= j < |q| ensures Texts(u, q)[j] == Texts(t, p)[n := Texts(t, p)[n] + "\n"][j] {
      assert u[p[j].start..p[j].end] == t[p[j].start..p[j].end];
      if j == n { assert u[p[n].start..|u|] == t[p[n].start..|t|] + "\n"; }
    }
  }

  lemma Part(t: string)
    requires Settled(t)
    ensures Settled(t + "\n") && Statements(t + "\n") == Parted(t)
  {
    if CutsCrlf(t, Lex(t).spans, "\n") {
      JoinLex(t);
      SpansWithin(t);
      TextsGrow(t, Spans(t), t + "\n", |Spans(t)| - 1);
    } else {
      BlankLine();
      StatementsConcat(t, "\n");
    }
  }

  /** The statements of t as they stand in front of a table appended to it. */
  function BeforeTable(t: string): seq<string> {
    if AllSpace(t) || !(t == "" || EndsWithNewline(t)) then Terminated(t) else Parted(t)
  }

  lemma AppendTable(t: string, path: seq<string>, key: string, v: Value)
    requires Closed(t) && Render(v).Success?
    ensures var line := Assignment(key, Render(v).value) + "\n";
            var u := t + LineBreak(t) + (if AllSpace(t) then "" else "\n") + (TableHeader(path) + "\n") + line;
            Closed(u) && Statements(u) == BeforeTable(t) + [TableHeader(path) + "\n", line]
  {
    GapBeforeTable(t);
    HeaderIsOneStatement(path);
    AssignmentIsLine(key, v, "\n");
    AppendTwo(t + LineBreak(t) + (if AllSpace(t) then "" else "\n"), TableHeader(path) + "\n",
              Assignment(key, Render(v).value) + "\n");
  }

  lemma AppendTwo(a: string, r: string, r': string)
    requires Settled(a) && IsLine(r) && IsLine(r')
    ensures Statements(a + r + r') == Statements(a) + [r, r'] && Closed(a + r + r')
  {
    EmptyText();
    Splice(a, r, "");
    assert a + r + "" == a + r && Statements(a) + [r] + [] == Statements(a) + [r];
    Splice(a + r, r', "");
    assert a + r + r' + "" == a + r + r';
    assert Statements(a) + [r] + [r'] + [] == Statements(a) + [r, r'];
  }

  lemma GapBeforeTable(t: string)
    requires Closed(t)
    ensures var a := t + LineBreak(t) + if AllSpace(t) then "" else "\n";
            Settled(a) && Statements(a) == BeforeTable(t)
  {
    var b := t + LineBreak(t);
    Break(t);
    if AllSpace(t) {
      assert b + "" == b;
      if t == "" || EndsWithNewline(t) { ClosedSettles(t); TerminatedSettled(t); }
    } else {
      Part(b);
      if t == "" || EndsWithNewline(t) {
        assert b == t;
      } else {
        assert b[|b| - 1] == '\n';
        assert Parted(b) == Statements(b);
      }
    }
  }

  /**
   Setting a key in a table is a one-statement edit inside that table, or appends
   the table.  It is refused when the parent is a top-level assignment.
   */
  lemma SetTableEdits(t: string, path: seq<string>, key: string, v: Value)
    requires Closed(t) && Render(v).Success?
    ensures var r, line := SetTableValue(t, path, key, v), Assignment(key, Render(v).value);
            match FindTable(Statements(t), 0, path)
            case Some(p) => WritesLine(t, p, key, line, r)
            case None => AddsTable(t, path, line, r)
  {
    var p := FindTable(Statements(t), 0, path);
    if p.None? { SetNewTable(t, path, key, v); } else { SetInTable(t, p.value, path, key, v); }
  }

  /** A line replaces the one with the key in the table whose header is statement p, or is put at the table's end. */
  predicate WritesLine(t: string, p: nat, key: string, line: string, r: Result<string>) {
    var ss := Statements(t);
    && p < |ss| && r.Success? && Closed(r.value)
    && Statements(r.value) == WithLine(ss, Terminated(t), p + 1, NextHeader(ss, p + 1), key, line)
  }

  /** A table with a line is added at the end, unless its parent is assigned at the top. */
  predicate AddsTable(t: string, path: seq<string>, line: string, r: Result<string>) {
    var ss := Statements(t);
    if path != [] && FindKey(ss, 0, NextHeader(ss, 0), path[0]) < NextHeader(ss, 0) then r.Failure?
    else
      r.Success? && Closed(r.value) && Statements(r.value) == BeforeTable(t) + [TableHeader(path) + "\n", line + "\n"]
  }

  lemma SetNewTable(t: string, path: seq<string>, key: string, v: Value)
    requires Closed(t) && Render(v).Success? && FindTable(Statements(t), 0, path).None?
    ensures AddsTable(t, path, Assignment(key, Render(v).value), SetTableValue(t, path, key, v))
  {
    if path != [] { TopLevelSearch(t, path[0]); }
    if path == [] || !TopLevelAssignmentExists(t, path[0]) {
      SetNewTableText(t, path, key, v);
      AppendTable(t, path, key, v);
    }
  }

  lemma SetNewTableText(t: string, path: seq<string>, key: string, v: Value)
    requires Render(v).Success? && FindTable(Statements(t), 0, path).None?
    requires path == [] || !TopLevelAssignmentExists(t, path[0])
    ensures SetTableValue(t, path, key, v)
            == Success(t + LineBreak(t) + (if AllSpace(t) then "" else "\n") + (TableHeader(path) + "\n")
                       + (Assignment(key, Render(v).value) + "\n"))
  {
  }

  lemma SetInTableText(t: string, p: nat, path: seq<string>, key: string, v: Value)
    requires Render(v).Success? && FindTable(Statements(t), 0, path) == Some(p)
    ensures var ss, line := Statements(t), Assignment(key, Render(v).value);
            var q := NextHeader(ss, p + 1);
            var i := FindKey(ss, p + 1, q, key);
            StartOf(t, q) <= |t| && |ss| == |Spans(t)| &&
            SetTableValue(t, path, key, v)
            == Success(if i < q then ReplaceStatement(t, i, line + NewlineFor(ss[i]))
                       else Inserted(t, StartOf(t, q), line + "\n", ""))
  {
    hide Render, Assignment, FindKey, NextHeader, ReplaceStatement, Inserted, NewlineFor, TableHeader;
    TableSearch(t, p, key);
    PositionsWithin(t, NextHeader(Statements(t), p + 1));
  }

  lemma SetInTable(t: string, p: nat, path: seq<string>, key: string, v: Value)
    requires Closed(t) && Render(v).Success? && FindTable(Statements(t), 0, path) == Some(p)
    ensures WritesLine(t, p, key, Assignment(key, Render(v).value), SetTableValue(t, path, key, v))
  {
    SetInTableText(t, p, path, key, v);
    var q := NextHeader(Statements(t), p + 1);
    WriteLine(t, p + 1, q, key, v, "");
  }

  /** Replacing the first statement in from..to with that key, or inserting in front of statement to. */
  lemma WriteLine(t: string, from: nat, to: nat, key: string, v: Value, gap: string)
    requires Closed(t) && Render(v).Success? && from <= to <= |Statements(t)| && (gap == "" || gap == "\n")
    ensures var ss, line := Statements(t), Assignment(key, Render(v).value);
            var i := FindKey(ss, from, to, key);
            |ss| == |Spans(t)| && StartOf(t, to) <= |t| &&
            var u := if i < to then ReplaceStatement(t, i, line + NewlineFor(ss[i]))
                     else Inserted(t, StartOf(t, to), line + "\n", gap);
            Closed(u) && Statements(u) == WithLine(ss, Terminated(t), from, to, key, line)
  {
    var ss, line := Statements(t), Assignment(key, Render(v).value);
    var i := FindKey(ss, from, to, key);
    PositionsWithin(t, to);
    if i < to {
      AssignmentIsLine(key, v, NewlineFor(ss[i]));
      ReplaceAt(t, i, line + NewlineFor(ss[i]));
    } else {
      InsertLine(t, to, key, v, gap);
    }
  }
}
