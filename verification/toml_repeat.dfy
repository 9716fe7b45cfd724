/** Setting a key twice: exactly when the second time changes nothing. */
module TomlRepeat {
  import opened Wrappers
  import opened Scanner
  import opened TomlLexer
  import opened TomlComposition
  import opened TomlBoundaries
  import opened TomlKeys
  import opened PythonText
  import opened TomlValues
  import opened TomlEdit
  import opened TomlSetResults

  lemma ValueEnd(v: Value)
    requires Render(v).Success?
    ensures var r := Render(v).value; r != "" && r[|r| - 1] != '\r'
  {
    match v
    case Integer(n) => NumeralEnd(if n < 0 then -n else n);
    case _ =>
  }

  lemma NumeralEnd(n: nat)
    ensures var r := Decimal(n); r != "" && r[|r| - 1] != '\r'
  {}

  lemma LineEnding(key: string, v: Value, nl: string)
    requires Render(v).Success? && IsLineEnd(nl)
    ensures NewlineFor(Assignment(key, Render(v).value) + nl) == nl
  {
    ValueEnd(v);
    var line := Assignment(key, Render(v).value);
    var s := line + nl;
    assert line[|line| - 1] == Render(v).value[|Render(v).value| - 1];
    if nl == "\r\n" {
      assert s[|s| - 2..] == nl;
    } else {
      assert s[|s| - 2..][0] == line[|line| - 1];
    }
  }

  lemma ReplaceWithItself(t: string, k: nat)
    requires k < |Spans(t)|
    ensures k < |Statements(t)| && ReplaceStatement(t, k, Statements(t)[k]) == t
  {
    SpansWithin(t);
    SpansTile(t);
    TilesWithin(t, 0, false, Spans(t));
    var Span(b, e) := Spans(t)[k];
    assert Statements(t)[k] == t[b..e];
    assert t == t[..b] + t[b..e] + t[e..];
  }

  /** ends is ss, some of whose statements gained a newline. */
  predicate Ends(ends: seq<string>, ss: seq<string>) {
    |ends| == |ss| && forall j | 0 <= j < |ss| :: ends[j] == ss[j] || ends[j] == ss[j] + "\n"
  }

  lemma EndsRead(ends: seq<string>, ss: seq<string>, j: nat)
    requires Ends(ends, ss) && j < |ss|
    ensures SimpleKey(ends[j]) == SimpleKey(ss[j]) && IsAnyHeader(ends[j]) == IsAnyHeader(ss[j])
    ensures HeaderPath(ends[j]) == HeaderPath(ss[j])
  {
    SimpleKeyNewline(ss[j]);
    HeaderNewline(ss[j]);
  }

  lemma {:induction false} NextHeaderIs(ss: seq<string>, k: nat, n: nat)
    requires k <= n <= |ss| && (forall j | k <= j < n :: !IsAnyHeader(ss[j])) && (n < |ss| ==> IsAnyHeader(ss[n]))
    ensures NextHeader(ss, k) == n
    decreases n - k
  {
    if k < n { NextHeaderIs(ss, k + 1, n); }
  }

  lemma {:induction false} NextHeaderMeans(ss: seq<string>, k: nat)
    requires k <= |ss|
    ensures forall j | k <= j < NextHeader(ss, k) :: !IsAnyHeader(ss[j])
    ensures NextHeader(ss, k) < |ss| ==> IsAnyHeader(ss[NextHeader(ss, k)])
    decreases |ss| - k
  {
    if k < |ss| && !IsAnyHeader(ss[k]) { NextHeaderMeans(ss, k + 1); }
  }

  lemma {:induction false} FindKeyIs(ss: seq<string>, from: nat, to: nat, key: string, n: nat)
    requires from <= n < to <= |ss| && SimpleKey(ss[n]) == Some(key)
    requires forall j | from <= j < n :: SimpleKey(ss[j]) != Some(key)
    ensures FindKey(ss, from, to, key) == n
    decreases n - from
  {
    if from < n { FindKeyIs(ss, from + 1, to, key, n); }
  }

  /** Where the line is, after writing it: the same place a second search looks. */
  lemma FoundAgain(ss: seq<string>, ends: seq<string>, from: nat, key: string, value: string) returns (nl: string)
    requires from <= |ss| && Ends(ends, ss) && DELETE !in key
    ensures IsLineEnd(nl)
    ensures var us := WithLine(ss, ends, from, NextHeader(ss, from), key, Assignment(key, value));
            from <= |us| &&
            var i := FindKey(us, from, NextHeader(us, from), key);
            i < NextHeader(us, from) && us[i] == Assignment(key, value) + nl
  {
    hide SimpleKey, IsAnyHeader, HeaderPath, Assignment;
    var to := NextHeader(ss, from);
    var i := FindKey(ss, from, to, key);
    var line := Assignment(key, value);
    var us := WithLine(ss, ends, from, to, key, line);
    NextHeaderMeans(ss, from);
    nl := if i < to then NewlineFor(ss[i]) else "\n";
    AssignmentRead(key, value, nl);
    var n := if i < to then to else to + 1;
    forall j | from <= j < n ensures !IsAnyHeader(us[j]) {
      if j != i && j < |ss| { EndsRead(ends, ss, j); }
    }
    NextHeaderIs(us, from, n);
    FoundFirst(ss, ends, us, from, n, key, i);
  }

  /** Statements before i that stand as they stood, bar line endings, do not hold a key they did not hold. */
  lemma FoundFirst(ss: seq<string>, ends: seq<string>, us: seq<string>, from: nat, n: nat, key: string, i: nat)
    requires Ends(ends, ss) && from <= i < n <= |us| && i <= |ss| && SimpleKey(us[i]) == Some(key)
    requires forall j | from <= j < i :: us[j] == ss[j] || us[j] == ends[j]
    requires forall j | from <= j < i :: SimpleKey(ss[j]) != Some(key)
    ensures FindKey(us, from, n, key) == i
  {
    forall j | from <= j < i ensures SimpleKey(us[j]) != Some(key) {
      EndsRead(ends, ss, j);
    }
    FindKeyIs(us, from, n, key, i);
  }

  /** A line that cannot be read back always makes the second edit a change. */
  lemma NeverFoundAgain(us: seq<string>, ends: seq<string>, from: nat, to: nat, key: string, value: string)
    requires from <= to <= |us| && |ends| == |us| && DELETE in key
    ensures WithLine(us, ends, from, to, key, Assignment(key, value)) != us
  {
    var i := FindKey(us, from, to, key);
    if i < to {
      var nl := NewlineFor(us[i]);
      AssignmentRead(key, value, nl);
      assert SimpleKey(Assignment(key, value) + nl) != SimpleKey(us[i]);
    }
  }

  lemma TerminatedEnds(t: string)
    ensures Ends(Terminated(t), Statements(t))
  {}

  /** Setting a top-level key a second time changes nothing exactly when the key holds no DEL. */
  lemma SetTopLevelTwice(t: string, key: string, v: Value)
    requires Closed(t) && Render(v).Success?
    ensures var u := SetTopLevelValue(t, key, v);
            u.Success? && (SetTopLevelValue(u.value, key, v) == u <==> DELETE !in key)
  {
    SetTopLevelEdits(t, key, v);
    var ss, value, u := Statements(t), Render(v).value, SetTopLevelValue(t, key, v).value;
    TerminatedEnds(t);
    if DELETE in key {
      SetTopLevelEdits(u, key, v);
      NeverFoundAgain(Statements(u), Terminated(u), 0, NextHeader(Statements(u), 0), key, value);
    } else {
      var nl := FoundAgain(ss, Terminated(t), 0, key, value);
      SameLineAgain(u, FindKey(Statements(u), 0, NextHeader(Statements(u), 0), key), key, v, nl);
      TopLevelSearch(u, key);
    }
  }

  /** Replacing the line by itself leaves the text alone. */
  lemma SameLineAgain(u: string, i: nat, key: string, v: Value, nl: string)
    requires Render(v).Success? && i < |Statements(u)| && IsLineEnd(nl)
    requires Statements(u)[i] == Assignment(key, Render(v).value) + nl
    ensures i < |Spans(u)|
    ensures ReplaceStatement(u, i, Assignment(key, Render(v).value) + NewlineFor(Statements(u)[i])) == u
  {
    LineEnding(key, v, nl);
    ReplaceWithItself(u, i);
  }

  // ---- tables ----

  lemma {:induction false} FindTableIs(ss: seq<string>, k: nat, path: seq<string>, n: nat)
    requires k <= n <= |ss| && (forall j | k <= j < n :: HeaderPath(ss[j]) != Some(path))
    requires n < |ss| ==> HeaderPath(ss[n]) == Some(path)
    ensures FindTable(ss, k, path) == if n < |ss| then Some(n) else None
    decreases n - k
  {
    if k < n { FindTableIs(ss, k + 1, path, n); }
  }

  lemma {:induction false} FindTableMeans(ss: seq<string>, k: nat, path: seq<string>)
    requires k <= |ss|
    ensures var p := FindTable(ss, k, path);
            forall j | k <= j < (if p.Some? then p.value else |ss|) :: HeaderPath(ss[j]) != Some(path)
    decreases |ss| - k
  {
    hide HeaderPath;
    if k < |ss| && HeaderPath(ss[k]) != Some(path) { FindTableMeans(ss, k + 1, path); }
  }

  lemma BeforeTableEnds(t: string)
    ensures Ends(BeforeTable(t), Statements(t))
  {}

  /** A line written into a table leaves the table where it was. */
  lemma TableFoundAgain(ss: seq<string>, ends: seq<string>, p: nat, path: seq<string>, key: string, line: string)
    requires Ends(ends, ss) && FindTable(ss, 0, path) == Some(p)
    ensures var us := WithLine(ss, ends, p + 1, NextHeader(ss, p + 1), key, line);
            p < |us| && FindTable(us, 0, path) == Some(p)
  {
    var us := WithLine(ss, ends, p + 1, NextHeader(ss, p + 1), key, line);
    FindTableMeans(ss, 0, path);
    forall j | 0 <= j <= p ensures HeaderPath(us[j]) == HeaderPath(ss[j]) {
      EndsRead(ends, ss, j);
    }
    FindTableIs(us, 0, path, p);
  }

  /** Whether a table that was just appended is found depends on its own header alone. */
  lemma AppendedFound(ss: seq<string>, ends: seq<string>, path: seq<string>, key: string, value: string)
    requires Ends(ends, ss) && FindTable(ss, 0, path).None?
    ensures var line := Assignment(key, value) + "\n";
            var us := ends + [TableHeader(path) + "\n", line];
            && FindTable(us, 0, path) == (if path == [] || HoldsDelete(path) then None else Some(|ss|))
            && NextHeader(us, |ss| + 1) == |us|
            && (DELETE !in key ==> FindKey(us, |ss| + 1, |us|, key) == |ss| + 1)
  {
    var line := Assignment(key, value) + "\n";
    var us := ends + [TableHeader(path) + "\n", line];
    HeaderReadback(path, "\n");
    AssignmentRead(key, value, "\n");
    FindTableMeans(ss, 0, path);
    forall j | 0 <= j < |ss| ensures HeaderPath(us[j]) != Some(path) {
      EndsRead(ends, ss, j);
    }
    FindTableIs(us, 0, path, if path == [] || HoldsDelete(path) then |us| else |ss|);
    NextHeaderIs(us, |ss| + 1, |us|);
    if DELETE !in key { FindKeyIs(us, |ss| + 1, |us|, key, |ss| + 1); }
  }

  /**
   Setting a key in a table a second time changes nothing exactly when the key
   holds no DEL and the table was there, or has a header that can be read back.
   */
  lemma SetTableTwice(t: string, path: seq<string>, key: string, v: Value)
    requires Closed(t) && Render(v).Success? && SetTableValue(t, path, key, v).Success?
    ensures var u := SetTableValue(t, path, key, v);
            SetTableValue(u.value, path, key, v) == u <==>
            DELETE !in key && (FindTable(Statements(t), 0, path).Some? || (path != [] && !HoldsDelete(path)))
  {
    var u := SetTableValue(t, path, key, v).value;
    if FindTable(Statements(t), 0, path).Some? {
      TwiceInTable(t, u, path, key, v);
    } else {
      TwiceAppended(t, u, path, key, v);
    }
  }

  lemma TwiceInTable(t: string, u: string, path: seq<string>, key: string, v: Value)
    requires Closed(t) && Render(v).Success? && SetTableValue(t, path, key, v) == Success(u)
    requires FindTable(Statements(t), 0, path).Some?
    ensures SetTableValue(u, path, key, v) == Success(u) <==> DELETE !in key
  {
    var p := FindTable(Statements(t), 0, path).value;
    SetInTable(t, p, path, key, v);
    TwiceFrom(Statements(t), Terminated(t), u, p, path, key, v);
  }

  lemma TwiceFrom(ss: seq<string>, ends: seq<string>, u: string, p: nat, path: seq<string>, key: string, v: Value)
    requires Closed(u) && Render(v).Success? && Ends(ends, ss) && FindTable(ss, 0, path) == Some(p)
    requires Statements(u) == WithLine(ss, ends, p + 1, NextHeader(ss, p + 1), key, Assignment(key, Render(v).value))
    ensures SetTableValue(u, path, key, v) == Success(u) <==> DELETE !in key
  {
    TableFoundAgain(ss, ends, p, path, key, Assignment(key, Render(v).value));
    if DELETE in key {
      NeverInTable(u, p, path, key, v);
    } else {
      var nl := FoundAgain(ss, ends, p + 1, key, Render(v).value);
      AgainInTable(u, p, path, key, v, nl);
    }
  }

  lemma NeverInTable(u: string, p: nat, path: seq<string>, key: string, v: Value)
    requires Closed(u) && Render(v).Success? && FindTable(Statements(u), 0, path) == Some(p) && DELETE in key
    ensures SetTableValue(u, path, key, v) != Success(u)
  {
    SetInTable(u, p, path, key, v);
    NeverFoundAgain(Statements(u), Terminated(u), p + 1, NextHeader(Statements(u), p + 1), key, Render(v).value);
  }

  lemma AgainInTable(u: string, p: nat, path: seq<string>, key: string, v: Value, nl: string)
    requires Render(v).Success? && IsLineEnd(nl) && FindTable(Statements(u), 0, path) == Some(p)
    requires var q := NextHeader(Statements(u), p + 1);
             var i := FindKey(Statements(u), p + 1, q, key);
             i < q && Statements(u)[i] == Assignment(key, Render(v).value) + nl
    ensures SetTableValue(u, path, key, v) == Success(u)
  {
    SameLineAgain(u, FindKey(Statements(u), p + 1, NextHeader(Statements(u), p + 1), key), key, v, nl);
    SetInTableText(u, p, path, key, v);
  }

  lemma TwiceAppended(t: string, u: string, path: seq<string>, key: string, v: Value)
    requires Closed(t) && Render(v).Success? && SetTableValue(t, path, key, v) == Success(u)
    requires FindTable(Statements(t), 0, path).None?
    ensures SetTableValue(u, path, key, v) == Success(u) <==> DELETE !in key && path != [] && !HoldsDelete(path)
  {
    var ss, value := Statements(t), Render(v).value;
    var p := |ss|;
    SetTableEdits(t, path, key, v);
    BeforeTableEnds(t);
    AppendedFound(ss, BeforeTable(t), path, key, value);
    if path == [] || HoldsDelete(path) {
      SetTableEdits(u, path, key, v);
      assert |Statements(u)| == p + 2;
    } else if DELETE in key {
      NeverInTable(u, p, path, key, v);
    } else {
      AgainInTable(u, p, path, key, v, "\n");
    }
  }
}
