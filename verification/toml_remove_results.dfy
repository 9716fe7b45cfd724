/** What removing a key or a table does to the statements of a document. */
module TomlRemoveResults {
  import opened Wrappers
  import opened Scanner
  import opened TomlLexer
  import opened TomlComposition
  import opened TomlBoundaries
  import opened TomlKeys
  import opened TomlValues
  import opened TomlEdit
  import opened TomlRepeat
  import opened TomlRemove

  /** No statement before the first header assigns the key. */
  predicate Clean(ss: seq<string>, key: string) {
    ss == [] || IsAnyHeader(ss[0]) || (SimpleKey(ss[0]) != Some(key) && Clean(ss[1..], key))
  }

  /** In the statements from..to, exactly those that assign the key are flagged, and nowhere else any. */
  predicate Flags(ss: seq<string>, drop: seq<bool>, from: nat, to: nat, key: string) {
    |drop| == |ss| && from <= to <= |ss|
    && forall k | 0 <= k < |ss| :: drop[k] <==> from <= k < to && SimpleKey(ss[k]) == Some(key)
  }

  /** The statement kept at a place, if it is kept. */
  lemma KeptOne(t: string, drop: seq<bool>, k: nat) returns (s: string)
    requires k < |drop| == |Spans(t)| == |Statements(t)|
    ensures s == Statements(t)[k] || s == Statements(t)[k] + "\n"
    ensures KeptStatements(t, drop, k)
            == if drop[k] then KeptStatements(t, drop, k + 1) else [s] + KeptStatements(t, drop, k + 1)
  {
    s := Statements(t)[k] + if Joins(t, drop, k) then "\n" else "";
    assert Statements(t)[k] + "" == Statements(t)[k];
  }

  /** A newline put behind a statement does not make it a hit or a head. */
  predicate SameEnded(s: string, hit: string -> bool, head: string -> bool) {
    hit(s + "\n") == hit(s) && head(s + "\n") == head(s)
  }

  /** No statement before the first that is a head is a hit, whatever these are. */
  predicate CleanOf(ss: seq<string>, hit: string -> bool, head: string -> bool) {
    ss == [] || head(ss[0]) || (!hit(ss[0]) && CleanOf(ss[1..], hit, head))
  }

  lemma {:induction false} CleanIs(ss: seq<string>, hit: string -> bool, head: string -> bool, key: string)
    requires forall s :: hit(s) == (SimpleKey(s) == Some(key)) && head(s) == IsAnyHeader(s)
    ensures Clean(ss, key) <==> CleanOf(ss, hit, head)
  {
    if ss != [] { CleanIs(ss[1..], hit, head, key); }
  }

  lemma {:induction false} KeptCleanOf(t: string, drop: seq<bool>, n: nat, k: nat, hit: string -> bool, head: string -> bool)
    requires |drop| == |Spans(t)| == |Statements(t)| && k <= n <= |drop|
    requires forall j | k <= j < n :: drop[j] == hit(Statements(t)[j])
    requires n < |drop| ==> !drop[n] && head(Statements(t)[n])
    requires forall j | 0 <= j < |drop| :: SameEnded(Statements(t)[j], hit, head)
    ensures CleanOf(KeptStatements(t, drop, k), hit, head)
    decreases n - k
  {
    if k < |drop| {
      var s := KeptOne(t, drop, k);
      if k < n { KeptCleanOf(t, drop, n, k + 1, hit, head); }
      if !drop[k] { assert ([s] + KeptStatements(t, drop, k + 1))[1..] == KeptStatements(t, drop, k + 1); }
    }
  }

  lemma KeptClean(t: string, drop: seq<bool>, from: nat, key: string)
    requires from <= |drop| == |Spans(t)| == |Statements(t)|
    requires Flags(Statements(t), drop, from, NextHeader(Statements(t), from), key)
    ensures Clean(KeptStatements(t, drop, from), key)
  {
    NextHeaderMeans(Statements(t), from);
    var hit, head := s => SimpleKey(s) == Some(key), s => IsAnyHeader(s);
    forall j | 0 <= j < |drop| ensures SameEnded(Statements(t)[j], hit, head) {
      SimpleKeyNewline(Statements(t)[j]);
      HeaderNewline(Statements(t)[j]);
    }
    KeptCleanOf(t, drop, NextHeader(Statements(t), from), from, hit, head);
    CleanIs(KeptStatements(t, drop, from), hit, head, key);
  }

  /** The front of us are the statements k..m, bar a joined line ending, and the rest follow them. */
  predicate FrontKept(us: seq<string>, rest: seq<string>, ss: seq<string>, k: nat, m: nat) {
    && k <= m <= |ss| && m - k <= |us|
    && us[m - k..] == rest && Ends(us[..m - k], ss[k..m])
  }

  lemma FrontKeptOne(s: string, us: seq<string>, rest: seq<string>, ss: seq<string>, k: nat, m: nat)
    requires k < m && FrontKept(us, rest, ss, k + 1, m) && (s == ss[k] || s == ss[k] + "\n")
    ensures FrontKept([s] + us, rest, ss, k, m)
  {
    var front := us[..m - k - 1];
    assert ([s] + us)[..m - k] == [s] + front;
    assert ss[k..m] == [ss[k]] + ss[k + 1..m];
  }

  /** Statements in front of the flagged ones stay where they are, bar a joined line ending. */
  lemma {:induction false} KeptPrefix(t: string, drop: seq<bool>, k: nat, m: nat)
    requires |drop| == |Spans(t)| == |Statements(t)| && k <= m <= |drop|
    requires forall j | k <= j < m :: !drop[j]
    ensures FrontKept(KeptStatements(t, drop, k), KeptStatements(t, drop, m), Statements(t), k, m)
    decreases m - k
  {
    if k < m {
      KeptPrefix(t, drop, k + 1, m);
      var s := KeptOne(t, drop, k);
      FrontKeptOne(s, KeptStatements(t, drop, k + 1), KeptStatements(t, drop, m), Statements(t), k, m);
    }
  }

  /**
   Removing a top-level key leaves no such assignment in front of the first
   header.  The other statements are untouched exactly when none of them joins a
   newline.
   */
  lemma RemoveTopLevelEdits(t: string, key: string)
    requires Closed(t)
    ensures var ss, u := Statements(t), RemoveTopLevelValue(t, key);
            var drop := Matching(t, 0, FirstTableStart(t), key);
            && Flags(ss, drop, 0, NextHeader(ss, 0), key)
            && Closed(u) && Clean(Statements(u), key)
            && (Statements(u) == Filter(ss, drop, 0) <==> forall j | 0 <= j < |drop| :: drop[j] || !Joins(t, drop, j))
  {
    var n := NextHeader(Statements(t), 0);
    var drop := Matching(t, 0, FirstTableStart(t), key);
    forall k | 0 <= k < |drop| ensures drop[k] <==> 0 <= k < n && SimpleKey(Statements(t)[k]) == Some(key) {
      StartsOrdered(t, k, n);
    }
    RemoveStatements(t, drop);
    KeptClean(t, drop, 0, key);
    KeptUnchanged(t, drop, 0);
  }

  /** Removing a key from a table: the table stays in its place and no longer assigns the key. */
  lemma RemoveTableValueEdits(t: string, path: seq<string>, key: string, p: nat)
    requires Closed(t) && FindTable(Statements(t), 0, path) == Some(p)
    ensures var ss, u := Statements(t), RemoveTableValue(t, path, key);
            var q := NextHeader(ss, p + 1);
            var drop := Matching(t, Spans(t)[p].end, StartOf(t, q), key);
            var us := Statements(u);
            && Flags(ss, drop, p + 1, q, key) && Closed(u)
            && p < |us| && FindTable(us, 0, path) == Some(p) && Clean(us[p + 1..], key)
            && (us == Filter(ss, drop, 0) <==> forall j | 0 <= j < |drop| :: drop[j] || !Joins(t, drop, j))
  {
    var drop := Matching(t, Spans(t)[p].end, StartOf(t, NextHeader(Statements(t), p + 1)), key);
    TableFlags(t, key, p, drop);
    RemoveTableText(t, path, key, p, drop);
    RemoveFromTable(t, drop, path, key, p);
    KeptUnchanged(t, drop, 0);
  }

  lemma RemoveTableText(t: string, path: seq<string>, key: string, p: nat, drop: seq<bool>)
    requires Closed(t) && FindTable(Statements(t), 0, path) == Some(p)
    requires drop == Matching(t, Spans(t)[p].end, StartOf(t, NextHeader(Statements(t), p + 1)), key)
    ensures var u := RemoveTableValue(t, path, key); Statements(u) == KeptStatements(t, drop, 0) && Closed(u)
  {
    hide KeptStatements, HeaderPath, SimpleKey, Statements, Closed;
    RemoveStatements(t, drop);
  }

  lemma TableFlags(t: string, key: string, p: nat, drop: seq<bool>)
    requires p < |Statements(t)|
    requires drop == Matching(t, Spans(t)[p].end, StartOf(t, NextHeader(Statements(t), p + 1)), key)
    ensures Flags(Statements(t), drop, p + 1, NextHeader(Statements(t), p + 1), key)
  {
    var q := NextHeader(Statements(t), p + 1);
    forall k | 0 <= k < |drop| ensures drop[k] <==> p + 1 <= k < q && SimpleKey(Statements(t)[k]) == Some(key) {
      StartsOrdered(t, k, q);
      StartsOrdered(t, k, p);
    }
  }

  lemma RemoveFromTable(t: string, drop: seq<bool>, path: seq<string>, key: string, p: nat)
    requires FindTable(Statements(t), 0, path) == Some(p) && |drop| == |Spans(t)|
    requires Flags(Statements(t), drop, p + 1, NextHeader(Statements(t), p + 1), key)
    ensures var us := KeptStatements(t, drop, 0);
            p < |us| && FindTable(us, 0, path) == Some(p) && Clean(us[p + 1..], key)
  {
    KeptClean(t, drop, p + 1, key);
    KeptPrefix(t, drop, 0, p + 1);
    TableStays(Statements(t), KeptStatements(t, drop, 0), p, path);
  }

  lemma TableStays(ss: seq<string>, us: seq<string>, p: nat, path: seq<string>)
    requires FindTable(ss, 0, path) == Some(p) && p < |us| && Ends(us[..p + 1], ss[0..p + 1])
    ensures FindTable(us, 0, path) == Some(p)
  {
    FindTableMeans(ss, 0, path);
    forall j | 0 <= j <= p ensures HeaderPath(us[j]) == HeaderPath(ss[j]) {
      EndsRead(us[..p + 1], ss[0..p + 1], j);
    }
    FindTableIs(us, 0, path, p);
  }

  /** Removing a table removes a run of statements: its header up to the next header outside it. */
  lemma RemoveTableEdits(t: string, path: seq<string>, p: nat)
    requires Closed(t) && FindTable(Statements(t), 0, path) == Some(p)
    ensures var ss, u := Statements(t), RemoveTable(t, path);
            Closed(u) && Statements(u) == ss[..p] + ss[TableEnd(ss, p + 1, path)..]
  {
    var ss := Statements(t);
    var q := TableEnd(ss, p + 1, path);
    CutStatements(t, p);
    var a := t[..StartOf(t, p)];
    if q < |ss| {
      CutStatements(t, q);
      Surround(t, q);
      JoinAtStatement(a, t[StartOf(t, q)..]);
    } else {
      EmptyText();
      JoinAtStatement(a, "");
      assert t[StartOf(t, q)..] == "";
    }
  }

  lemma JoinAtStatement(a: string, b: string)
    requires Settled(a) && (b == "" || !IsNewline(b[0]))
    ensures Statements(a + b) == Statements(a) + Statements(b) && Closed(a + b) == Closed(b)
  {
    StatementsConcat(a, b);
  }

  lemma TwoThenBlank(a: string, b: string)
    requires OneStatement(a) && OneStatement(b) && a != "" && b != "" && !IsNewline(b[0]) && b[|b| - 1] == '\n'
    ensures var t := a + b + "\n";
            Spans(t) == [Span(0, |a|), Span(|a|, |a| + |b|)] && Statements(t) == [a, b] && Closed(t)
  {
    SingleStatement(a);
    SingleStatement(b);
    BlankLine();
    StatementsConcat(a, b);
    SpansConcat(a, b);
    assert Spans(a) == [Span(0, |a|)] && Spans(b) == [Span(0, |b|)] && Spans("\n") == [];
    assert Spans(a + b) == [Span(0, |a|), Span(|a|, |a| + |b|)];
    assert (a + b)[|a + b| - 1] == '\n';
    StatementsConcat(a + b, "\n");
    SpansConcat(a + b, "\n");
  }

  /**
   The joined line ending: a line that ends in a lone CR, a line to be removed and
   a blank line.  The first line is kept, but not unchanged.
   */
  lemma RemovalJoins(a: string, b: string, key: string)
    requires OneStatement(a) && EndsInCr(a) && SimpleKey(a) != Some(key) && !IsAnyHeader(a)
    requires OneStatement(b) && b != "" && !IsNewline(b[0]) && b[|b| - 1] == '\n'
    requires SimpleKey(b) == Some(key) && !IsAnyHeader(b)
    ensures Statements(a + b + "\n") == [a, b]
    ensures Statements(RemoveTopLevelValue(a + b + "\n", key)) == [a + "\n"]
  {
    var t := a + b + "\n";
    TwoThenBlank(a, b);
    NextHeaderIs(Statements(t), 0, 2);
    var drop := Matching(t, 0, FirstTableStart(t), key);
    assert drop == [false, true];
    RemoveStatements(t, drop);
    JoinedKept(t, a, b, drop);
  }

  lemma JoinedKept(t: string, a: string, b: string, drop: seq<bool>)
    requires t == a + b + "\n" && Spans(t) == [Span(0, |a|), Span(|a|, |a| + |b|)] && Statements(t) == [a, b]
    requires EndsInCr(a) && drop == [false, true]
    ensures KeptStatements(t, drop, 0) == [a + "\n"]
  {
    KeptUnfold(t, drop, 1);
    assert t[|a|..|a|] == "" && t[|a| + |b|..] == "\n";
    assert KeptText(t, drop, 1) == "" + "" + "\n";
    assert KeptStatements(t, drop, 1) == [] + KeptStatements(t, drop, 2);
  }

  /** Such a document exists. */
  lemma RemovalJoinsWitness(x: string, y: string)
    requires x == "a = 1" && y == "b = 2"
    ensures Statements(x + "\r" + (y + "\n") + "\n") == [x + "\r", y + "\n"]
    ensures Statements(RemoveTopLevelValue(x + "\r" + (y + "\n") + "\n", "b")) == [x + "\r" + "\n"]
  {
    PlainLine(x, "a", "1", "\r");
    PlainLine(y, "b", "2", "\n");
    RemovalJoins(x + "\r", y + "\n", "b");
  }

  lemma PlainLine(x: string, k: string, value: string, nl: string)
    requires x == Assignment(k, value) && AllBare(k) && DELETE !in k
    requires (forall i | 0 <= i < |x| :: Plain(x[i])) && nl in {"\r", "\n"}
    ensures OneStatement(x + nl) && SimpleKey(x + nl) == Some(k) && !IsAnyHeader(x + nl)
  {
    NeutralPlain(x);
    FirstOfKey(k);
    assert x[0] == TomlKey(k)[0];
    NeutralLine(x, nl);
    AssignmentRead(k, value, nl);
  }
}
