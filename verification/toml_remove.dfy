/**
 Removing keys and tables.  Cutting statements out of the text removes exactly
 those statements, with one exception the code has: when a kept statement ends in
 a lone CR and the text behind it now starts with a newline, the two join into one
 line ending and the kept statement gains that newline.
 */
module TomlRemove {
  import opened Wrappers
  import opened Scanner
  import opened TomlLexer
  import opened TomlComposition
  import opened TomlBoundaries
  import opened TomlKeys
  import opened TomlEdit
  import opened TomlSetResults

  // ---- the edits, as the source makes them ----

  /** Ranges in ascending order that do not overlap. */
  predicate Ascending(ranges: seq<Span>, lo: nat, hi: nat) {
    if ranges == [] then lo <= hi
    else lo <= ranges[0].start <= ranges[0].end && Ascending(ranges[1..], ranges[0].end, hi)
  }

  /** Cut the ranges out of the text, the last one first. */
  function CutRanges(t: string, ranges: seq<Span>): string
    decreases |ranges|
  {
    if ranges == [] then t
    else
      var r := ranges[|ranges| - 1];
      if r.start <= r.end <= |t| then CutRanges(t[..r.start] + t[r.end..], ranges[..|ranges| - 1])
      else t
  }

  /** The statements from k on that the flags say to drop. */
  function Dropped(spans: seq<Span>, drop: seq<bool>, k: nat): seq<Span>
    requires |drop| == |spans| && k <= |spans|
    decreases |spans| - k
  {
    if k == |spans| then []
    else (if drop[k] then [spans[k]] else []) + Dropped(spans, drop, k + 1)
  }

  /** Which statements start in lo..hi and assign the key. */
  function Matching(t: string, lo: nat, hi: nat, key: string): (drop: seq<bool>)
    ensures |drop| == |Spans(t)| == |Statements(t)|
  {
    seq(|Spans(t)|, k requires 0 <= k < |Spans(t)| =>
      lo <= Spans(t)[k].start < hi && SimpleKey(Statements(t)[k]) == Some(key))
  }

  function RemoveTopLevelValue(t: string, key: string): string {
    CutRanges(t, Dropped(Spans(t), Matching(t, 0, FirstTableStart(t), key), 0))
  }

  function RemoveTableValue(t: string, path: seq<string>, key: string): string {
    var p := FindTable(Statements(t), 0, path);
    if p.None? then t
    else
      var bodyEnd := StartOf(t, NextHeader(Statements(t), p.value + 1));
      CutRanges(t, Dropped(Spans(t), Matching(t, Spans(t)[p.value].end, bodyEnd, key), 0))
  }

  /** The first header from k on that is not the path or nested in it. */
  function TableEnd(ss: seq<string>, k: nat, path: seq<string>): (n: nat)
    requires k <= |ss|
    ensures k <= n <= |ss|
    decreases |ss| - k
  {
    if k == |ss| then k
    else if IsAnyHeader(ss[k]) && !(HeaderPath(ss[k]).Some? && path <= HeaderPath(ss[k]).value) then k
    else TableEnd(ss, k + 1, path)
  }

  function RemoveTable(t: string, path: seq<string>): string {
    var p := FindTable(Statements(t), 0, path);
    if p.None? then t
    else
      var q := TableEnd(Statements(t), p.value + 1, path);
      PositionsWithin(t, q);
      PositionsWithin(t, p.value);
      t[..StartOf(t, p.value)] + t[StartOf(t, q)..]
  }

  // ---- cutting from the right is keeping from the left ----

  /** The text from p on, without the statements from k on that are dropped. */
  function Kept(t: string, spans: seq<Span>, drop: seq<bool>, k: nat, p: nat): string
    requires |drop| == |spans| && k <= |spans| && p <= |t| && Ascending(spans[k..], p, |t|)
    decreases |spans| - k
  {
    if k == |spans| then t[p..]
    else
      var Span(b, e) := spans[k];
      AscendingStep(spans, k, p, |t|);
      t[p..b] + (if drop[k] then "" else t[b..e]) + Kept(t, spans, drop, k + 1, e)
  }

  lemma {:induction false} AscendingBounds(ranges: seq<Span>, lo: nat, hi: nat)
    requires Ascending(ranges, lo, hi)
    ensures lo <= hi && (ranges != [] ==> ranges[0].end <= hi)
    decreases |ranges|
  {
    if ranges != [] { AscendingBounds(ranges[1..], ranges[0].end, hi); }
  }

  lemma AscendingStep(spans: seq<Span>, k: nat, p: nat, hi: nat)
    requires k < |spans| && Ascending(spans[k..], p, hi)
    ensures p <= spans[k].start <= spans[k].end <= hi && Ascending(spans[k + 1..], spans[k].end, hi)
  {
    assert spans[k..][1..] == spans[k + 1..];
    AscendingBounds(spans[k..], p, hi);
  }

  lemma {:induction false} TilesAscending(t: string, p: nat, comment: bool, spans: seq<Span>)
    requires p <= |t| && Tiles(t, p, comment, spans)
    ensures Ascending(spans, p, |t|)
    decreases |spans|
  {
    if spans != [] { TilesAscending(t, spans[0].end, false, spans[1..]); }
  }

  lemma SpansAscending(t: string)
    ensures Ascending(Spans(t)[0..], 0, |t|)
  {
    SpansTile(t);
    TilesAscending(t, 0, false, Spans(t));
    assert Spans(t)[0..] == Spans(t);
  }

  /** One more range in front: it is cut out last. */
  lemma {:induction false} CutFirst(t: string, r: Span, ranges: seq<Span>, a: string, b: string)
    requires r.start <= r.end <= |a| && CutRanges(t, ranges) == a + b && Ascending(ranges, r.end, |t|)
    ensures CutRanges(t, [r] + ranges) == a[..r.start] + a[r.end..] + b
    decreases |ranges|
  {
    var all := [r] + ranges;
    if ranges == [] {
      assert all[..0] == [] && t == a + b;
      assert t[..r.start] == a[..r.start] && t[r.end..] == a[r.end..] + b;
      assert CutRanges(t, all) == CutRanges(t[..r.start] + t[r.end..], all[..0]);
    } else {
      var n := |ranges| - 1;
      var l := ranges[n];
      LastAscending(ranges, r.end, |t|);
      assert all[|all| - 1] == l && all[..|all| - 1] == [r] + ranges[..n];
      var u := t[..l.start] + t[l.end..];
      ShorterAscending(ranges[..n], r.end, l.start, |u|);
      CutFirst(u, r, ranges[..n], a, b);
    }
  }

  lemma {:induction false} LastAscending(ranges: seq<Span>, lo: nat, hi: nat)
    requires ranges != [] && Ascending(ranges, lo, hi)
    ensures var n := |ranges| - 1;
            lo <= ranges[n].start <= ranges[n].end <= hi && Ascending(ranges[..n], lo, ranges[n].start)
    decreases |ranges|
  {
    var n := |ranges| - 1;
    AscendingBounds(ranges, lo, hi);
    if n > 0 {
      LastAscending(ranges[1..], ranges[0].end, hi);
      assert ranges[1..][..n - 1] == ranges[..n][1..];
    }
  }

  lemma {:induction false} ShorterAscending(ranges: seq<Span>, lo: nat, hi: nat, hi': nat)
    requires Ascending(ranges, lo, hi) && hi <= hi'
    ensures Ascending(ranges, lo, hi')
    decreases |ranges|
  {
    if ranges != [] { ShorterAscending(ranges[1..], ranges[0].end, hi, hi'); }
  }

  lemma {:induction false} DroppedAscending(t: string, spans: seq<Span>, drop: seq<bool>, k: nat, p: nat)
    requires |drop| == |spans| && k <= |spans| && p <= |t| && Ascending(spans[k..], p, |t|)
    ensures Ascending(Dropped(spans, drop, k), p, |t|)
    decreases |spans| - k
  {
    if k < |spans| {
      AscendingStep(spans, k, p, |t|);
      DroppedAscending(t, spans, drop, k + 1, spans[k].end);
      var rest := Dropped(spans, drop, k + 1);
      if drop[k] {
        assert Dropped(spans, drop, k)[1..] == rest;
      } else {
        assert Dropped(spans, drop, k) == rest;
        WiderAscending(rest, p, spans[k].end, |t|);
      }
    }
  }

  lemma WiderAscending(ranges: seq<Span>, lo: nat, lo': nat, hi: nat)
    requires Ascending(ranges, lo', hi) && lo <= lo'
    ensures Ascending(ranges, lo, hi)
  {}

  lemma Glue(t: string, p: nat, b: nat, e: nat, tail: string)
    requires p <= b <= e <= |t|
    ensures t[..e][..b] + t[..e][e..] + tail == t[..p] + (t[p..b] + "" + tail)
    ensures t[..e] + tail == t[..p] + (t[p..b] + t[b..e] + tail)
  {
    assert t[..e][..b] == t[..p] + t[p..b] && t[..e][e..] == "";
    assert t[..e] == t[..p] + t[p..b] + t[b..e];
  }

  /** Removing ranges from the right leaves what keeping statements from the left collects. */
  lemma {:induction false} CutIsKept(t: string, spans: seq<Span>, drop: seq<bool>, k: nat, p: nat)
    requires |drop| == |spans| && k <= |spans| && p <= |t| && Ascending(spans[k..], p, |t|)
    ensures CutRanges(t, Dropped(spans, drop, k)) == t[..p] + Kept(t, spans, drop, k, p)
    decreases |spans| - k
  {
    if k < |spans| {
      var Span(b, e) := spans[k];
      AscendingStep(spans, k, p, |t|);
      CutIsKept(t, spans, drop, k + 1, e);
      var rest, tail := Dropped(spans, drop, k + 1), Kept(t, spans, drop, k + 1, e);
      if drop[k] {
        DroppedAscending(t, spans, drop, k + 1, e);
        CutFirst(t, spans[k], rest, t[..e], tail);
        Glue(t, p, b, e, tail);
      } else {
        assert Dropped(spans, drop, k) == rest;
        Glue(t, p, b, e, tail);
      }
    }
  }

  // ---- lexing what is kept ----

  predicate EndsInCr(s: string) { s != "" && s[|s| - 1] == '\r' }

  predicate StartsWithLf(s: string) { s != "" && s[0] == '\n' }

  /** The text kept from statement k on, behind the statement before it. */
  function KeptText(t: string, drop: seq<bool>, k: nat): string
    requires |drop| == |Spans(t)| && k <= |drop|
  {
    SpansAscending(t);
    AscendingAt(t, k);
    Kept(t, Spans(t), drop, k, Behind(t, k))
  }

  /** The index behind the k-th statement's predecessor. */
  function Behind(t: string, k: nat): nat
    requires k <= |Spans(t)|
  {
    if k == 0 then 0 else Spans(t)[k - 1].end
  }

  lemma {:induction false} AscendingAt(t: string, k: nat)
    requires k <= |Spans(t)|
    ensures Behind(t, k) <= |t| && Ascending(Spans(t)[k..], Behind(t, k), |t|)
    decreases k
  {
    if k == 0 {
      SpansAscending(t);
    } else {
      AscendingAt(t, k - 1);
      AscendingStep(Spans(t), k - 1, Behind(t, k - 1), |t|);
    }
  }

  /** A kept statement that ends in a lone CR meets a newline, because what stood between was dropped. */
  predicate Joins(t: string, drop: seq<bool>, k: nat)
    requires |drop| == |Spans(t)| && k < |drop|
  {
    EndsInCr(Statements(t)[k]) && StartsWithLf(KeptText(t, drop, k + 1))
  }

  function KeptStatements(t: string, drop: seq<bool>, k: nat): seq<string>
    requires |drop| == |Spans(t)| && k <= |drop|
    decreases |drop| - k
  {
    if k == |drop| then []
    else
      (if drop[k] then [] else [Statements(t)[k] + if Joins(t, drop, k) then "\n" else ""])
      + KeptStatements(t, drop, k + 1)
  }

  /** The gap in front of a statement holds no statement. */
  lemma GapAlone(t: string, k: nat)
    requires k < |Spans(t)|
    ensures var p, b := Behind(t, k), Spans(t)[k].start;
            p <= b <= |t| && Settled(t[p..b]) && Statements(t[p..b]) == [] && Lex(t[p..b]).spans == []
  {
    hide Spans, Statements, Lex, Settled, Closed;
    var p, b := Behind(t, k), Spans(t)[k].start;
    AscendingAt(t, k);
    AscendingStep(Spans(t), k, p, |t|);
    Surround(t, k);
    if k > 0 {
      Surround(t, k - 1);
      GapBehind(t[..p], t[p..b], t[p..]);
      assert t[..b] == t[..p] + t[p..b];
      NothingMore(Statements(t)[..k], Statements(t[p..b]));
    } else {
      assert t[..b] == t[p..b] && Statements(t)[..0] == [];
    }
    NoTexts(t[p..b]);
  }

  lemma NothingMore(some: seq<string>, more: seq<string>)
    requires some == some + more
    ensures more == []
  {
    assert |some| == |some| + |more|;
  }

  lemma NoTexts(t: string)
    requires Statements(t) == []
    ensures Lex(t).spans == []
  {
    SpansWithin(t);
  }

  lemma GapBehind(a: string, gap: string, rest: string)
    requires Settled(a) && !CutsCrlf(a, Lex(a).spans, rest) && gap <= rest
    ensures Statements(a + gap) == Statements(a) + Statements(gap) && Settled(a + gap) == Settled(gap)
  {
    StatementsConcat(a, gap);
  }

  lemma StatementBehind(a: string, s: string)
    requires Settled(a) && s != "" && !IsNewline(s[0])
    ensures Statements(a + s) == Statements(a) + Statements(s)
    ensures Settled(a + s) == Settled(s) && Closed(a + s) == Closed(s)
  {
    StatementsConcat(a, s);
  }

  /** The text of a statement, lexed alone, is that statement. */
  lemma StatementAlone(t: string, k: nat)
    requires k < |Spans(t)| && Closed(t)
    ensures var Span(b, e) := Spans(t)[k];
            && b < e <= |t| && Statements(t)[k] == t[b..e] && Statements(t[b..e]) == [t[b..e]]
            && (k < |Lex(t).spans| ==> Settled(t[b..e])) && (k >= |Lex(t).spans| ==> e == |t| && Closed(t[b..e]))
  {
    var Span(b, e) := Spans(t)[k];
    Surround(t, k);
    assert t[..e] == t[..b] + t[b..e];
    StatementBehind(t[..b], t[b..e]);
    if k >= |Lex(t).spans| { assert t[..e] == t; }
    OneBehind(Statements(t), k, Statements(t[..b]), Statements(t[b..e]), t[b..e]);
  }

  lemma OneBehind(ss: seq<string>, k: nat, before: seq<string>, more: seq<string>, one: string)
    requires k < |ss| && ss[k] == one && before == ss[..k] && before + more == ss[..k + 1]
    ensures more == [one]
  {
    assert (before + more)[k..] == more;
  }

  lemma RestIsEmpty(t: string)
    requires Closed(t)
    ensures var n := |Spans(t)|; Behind(t, n) <= |t| && Statements(t[Behind(t, n)..]) == [] && Closed(t[Behind(t, n)..])
  {
    var n := |Spans(t)|;
    AscendingAt(t, n);
    if n == 0 {
      assert t[0..] == t;
    } else {
      Surround(t, n - 1);
      if n - 1 >= |Lex(t).spans| {
        EmptyText();
        assert t[Behind(t, n)..] == "";
      }
    }
  }

  lemma WholeSpan(s: string)
    requires Settled(s) && Statements(s) == [s]
    ensures Lex(s).spans == [Span(0, |s|)]
  {
    SpansWithin(s);
    assert |Spans(s)| == 1;
    var x := Spans(s)[0];
    assert Statements(s)[0] == s[x.start..x.end];
    assert |s[x.start..x.end]| == |s|;
  }

  /** A kept statement, then the text behind it. */
  lemma KeepJoined(s: string, rest: string, more: string)
    requires Settled(s) && Lex(s).spans == [Span(0, |s|)] && Statements(s) == [s] && s != ""
    requires EndsInCr(s) && rest == "\n" + more
    ensures Statements(s + rest) == [s + "\n"] + Statements(rest) && Closed(s + rest) == Closed(rest)
  {
    Regrouped(s, "\n", more);
    BlankBefore(more);
    Part(s);
    StatementsConcat(s + "\n", more);
  }

  lemma KeepOne(s: string, rest: string)
    requires Settled(s) && Statements(s) == [s] && s != ""
    ensures Statements(s + rest)
         == [s + if EndsInCr(s) && StartsWithLf(rest) then "\n" else ""] + Statements(rest)
    ensures Closed(s + rest) == Closed(rest)
  {
    WholeSpan(s);
    if EndsInCr(s) && StartsWithLf(rest) {
      KeepJoined(s, rest, rest[1..]);
    } else {
      StatementsConcat(s, rest);
      assert s + "" == s;
    }
  }

  lemma {:induction false} LexKept(t: string, drop: seq<bool>, k: nat)
    requires |drop| == |Spans(t)| && k <= |drop| && Closed(t)
    ensures Statements(KeptText(t, drop, k)) == KeptStatements(t, drop, k) && Closed(KeptText(t, drop, k))
    decreases |drop| - k
  {
    if k == |drop| {
      RestIsEmpty(t);
    } else {
      LexKept(t, drop, k + 1);
      LexKeptStep(t, drop, k);
    }
  }

  lemma LexKeptStep(t: string, drop: seq<bool>, k: nat)
    requires |drop| == |Spans(t)| && k < |drop| && Closed(t)
    requires var rest := KeptText(t, drop, k + 1);
             Statements(rest) == KeptStatements(t, drop, k + 1) && Closed(rest)
    ensures Statements(KeptText(t, drop, k)) == KeptStatements(t, drop, k) && Closed(KeptText(t, drop, k))
  {
    GapAlone(t, k);
    KeptUnfold(t, drop, k);
    var p := Behind(t, k);
    var Span(b, e) := Spans(t)[k];
    var gap, s, rest := t[p..b], t[b..e], KeptText(t, drop, k + 1);
    if drop[k] {
      DropThen(gap, rest, KeptText(t, drop, k));
    } else {
      KeepLexed(t, drop, k);
      HoldThen(gap, s, rest, KeptText(t, drop, k));
    }
  }

  lemma DropThen(gap: string, rest: string, all: string)
    requires Settled(gap) && Statements(gap) == [] && Lex(gap).spans == [] && all == gap + "" + rest
    ensures Statements(all) == Statements(rest) && Closed(all) == Closed(rest)
  {
    assert gap + "" == gap;
    GapThen(gap, rest);
  }

  lemma HoldThen(gap: string, s: string, rest: string, all: string)
    requires Settled(gap) && Statements(gap) == [] && Lex(gap).spans == [] && all == gap + s + rest
    ensures Statements(all) == Statements(s + rest) && Closed(all) == Closed(s + rest)
  {
    GapThen(gap, s + rest);
    assert all == gap + (s + rest);
  }

  lemma GapThen(gap: string, rest: string)
    requires Settled(gap) && Statements(gap) == [] && Lex(gap).spans == []
    ensures Statements(gap + rest) == Statements(rest) && Closed(gap + rest) == Closed(rest)
  {
    StatementsConcat(gap, rest);
  }

  lemma KeepLexed(t: string, drop: seq<bool>, k: nat)
    requires |drop| == |Spans(t)| && k < |drop| && Closed(t) && !drop[k]
    requires var rest := KeptText(t, drop, k + 1);
             Statements(rest) == KeptStatements(t, drop, k + 1) && Closed(rest)
    ensures var Span(b, e), rest := Spans(t)[k], KeptText(t, drop, k + 1);
            b <= e <= |t| && Statements(t[b..e] + rest) == KeptStatements(t, drop, k) && Closed(t[b..e] + rest)
  {
    StatementAlone(t, k);
    var Span(b, e) := Spans(t)[k];
    var s, rest := t[b..e], KeptText(t, drop, k + 1);
    if k < |Lex(t).spans| {
      KeepOne(s, rest);
    } else {
      LastIsAll(t, drop, k);
      assert s + rest == s && s + "" == s;
    }
  }

  lemma KeptUnfold(t: string, drop: seq<bool>, k: nat)
    requires |drop| == |Spans(t)| && k < |drop|
    ensures var p, Span(b, e) := Behind(t, k), Spans(t)[k];
            p <= b <= e <= |t| &&
            KeptText(t, drop, k) == t[p..b] + (if drop[k] then "" else t[b..e]) + KeptText(t, drop, k + 1)
  {
    AscendingAt(t, k);
    AscendingStep(Spans(t), k, Behind(t, k), |t|);
  }

  lemma LastIsAll(t: string, drop: seq<bool>, k: nat)
    requires |drop| == |Spans(t)| && k < |drop| && k >= |Lex(t).spans|
    ensures KeptText(t, drop, k + 1) == "" && k + 1 == |drop|
  {
    Surround(t, k);
    AscendingAt(t, k + 1);
  }

  /** Cutting statements out leaves the others, bar the joined line endings. */
  lemma RemoveStatements(t: string, drop: seq<bool>)
    requires |drop| == |Spans(t)| && Closed(t)
    ensures var u := CutRanges(t, Dropped(Spans(t), drop, 0));
            Statements(u) == KeptStatements(t, drop, 0) && Closed(u)
  {
    SpansAscending(t);
    CutIsKept(t, Spans(t), drop, 0, 0);
    LexKept(t, drop, 0);
    assert t[..0] + KeptText(t, drop, 0) == KeptText(t, drop, 0);
  }

  /** The statements that are not dropped. */
  function Filter(ss: seq<string>, drop: seq<bool>, k: nat): seq<string>
    requires |drop| == |ss| && k <= |ss|
    decreases |ss| - k
  {
    if k == |ss| then [] else (if drop[k] then [] else [ss[k]]) + Filter(ss, drop, k + 1)
  }

  /** What is kept is kept unchanged exactly when no kept statement joins a newline. */
  lemma {:induction false} KeptUnchanged(t: string, drop: seq<bool>, k: nat)
    requires |drop| == |Spans(t)| == |Statements(t)| && k <= |drop|
    ensures |KeptStatements(t, drop, k)| == |Filter(Statements(t), drop, k)|
    ensures KeptStatements(t, drop, k) == Filter(Statements(t), drop, k)
       <==> forall j | k <= j < |drop| :: drop[j] || !Joins(t, drop, j)
    decreases |drop| - k
  {
    if k < |drop| {
      KeptUnchanged(t, drop, k + 1);
      var a, b := KeptStatements(t, drop, k), Filter(Statements(t), drop, k);
      if !drop[k] {
        assert a[1..] == KeptStatements(t, drop, k + 1) && b[1..] == Filter(Statements(t), drop, k + 1);
        assert a == b <==> a[0] == b[0] && a[1..] == b[1..];
        assert |a[0]| == |b[0]| <==> !Joins(t, drop, k);
      } else {
        assert a == KeptStatements(t, drop, k + 1) && b == Filter(Statements(t), drop, k + 1);
      }
    }
  }
}
