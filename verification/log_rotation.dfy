/**
 The bounded log: a current file and up to N numbered backups, number 1 the newest.
 A record that does not fit moves the current text to backup 1 and every backup one up.
 */
module LogRotation {
  import opened Wrappers

  type Text = seq<Byte>

  /** The files of one log; backups are numbered from 1. */
  datatype Files = Files(current: Text, backups: map<nat, Text>)

  const Empty := Files([], map[])

  function Backup(f: Files, k: nat): Text { if k in f.backups then f.backups[k] else [] }

  /** Backups k..1, oldest first. */
  function BackupText(f: Files, k: nat): Text {
    if k == 0 then [] else Backup(f, k) + BackupText(f, k - 1)
  }

  function Retained(f: Files, segments: nat): Text { BackupText(f, segments) + f.current }

  // ---- one append ----

  /** The number a backup has after the shift has come down to index, if it is still there. */
  function Origin(k: nat, segments: nat, index: nat): Option<nat> {
    if k <= index || k > segments then Some(k)
    else if k == index + 1 then None
    else Some(k - 1)
  }

  /** Backups above index have moved up by one, the last was dropped. */
  ghost predicate ShiftedDownTo(before: map<nat, Text>, after: map<nat, Text>, segments: nat, index: nat) {
    forall k: nat :: MovedFrom(before, after, k, Origin(k, segments, index))
  }

  predicate MovedFrom(before: map<nat, Text>, after: map<nat, Text>, k: nat, origin: Option<nat>) {
    if origin.Some? && origin.value in before then k in after && after[k] == before[origin.value]
    else k !in after
  }

  /** Every backup below the last moves up by one; the last is dropped, number 1 is free. */
  ghost predicate Shifted(before: map<nat, Text>, after: map<nat, Text>, segments: nat) {
    ShiftedDownTo(before, after, segments, 0)
  }

  function Tail(t: Text, maximum: nat): Text { if |t| <= maximum then t else t[|t| - maximum..] }

  /** The files before and after one append. */
  ghost predicate Appended(before: Files, after: Files, data: Text, segments: nat, maximum: nat) {
    if |before.current| + |data| > maximum then
      && after.current == data
      && 1 in after.backups && after.backups[1] == Tail(before.current, maximum)
      && Shifted(before.backups, after.backups - {1}, segments)
    else
      after == Files(before.current + data, before.backups)
  }

  class RotatingLog {
    var current: Text
    var backups: map<nat, Text>
    const segments: nat
    const maximum: nat

    constructor (segments: nat, maximum: nat)
      ensures this.segments == segments && this.maximum == maximum && Contents() == Empty
    {
      this.segments, this.maximum := segments, maximum;
      current, backups := [], map[];
    }

    function Contents(): Files
      reads this
    {
      Files(current, backups)
    }

    method ShiftBackups()
      requires segments >= 1
      modifies this`backups
      ensures Shifted(old(backups), backups, segments)
    {
      var index := segments;
      while index > 0
        invariant 0 <= index <= segments
        invariant ShiftedDownTo(old(backups), backups, segments, index)
      {
        ghost var was := backups;
        assert MovedFrom(old(backups), was, index, Origin(index, segments, index));
        if index >= segments {
          backups := backups - {index};
        } else if index in backups {
          backups := backups[index + 1 := backups[index]] - {index};
        }
        index := index - 1;
        forall k: nat ensures MovedFrom(old(backups), backups, k, Origin(k, segments, index)) {
          assert MovedFrom(old(backups), was, k, Origin(k, segments, index + 1));
        }
      }
    }

    method WriteBackup()
      requires segments >= 1
      modifies this`backups
      ensures 1 in backups && backups[1] == Tail(current, maximum)
      ensures Shifted(old(backups), backups - {1}, segments)
    {
      var tail := Tail(current, maximum);
      ShiftBackups();
      backups := backups[1 := tail];
    }

    method Append(data: Text)
      requires segments >= 1
      modifies this
      ensures Appended(old(Contents()), Contents(), data, segments, maximum)
    {
      if |current| + |data| > maximum {
        WriteBackup();
        current := [];
      }
      current := current + data;
    }
  }

  // ---- what a log retains ----

  ghost predicate Suffix(part: Text, whole: Text) { exists dropped: Text :: whole == dropped + part }

  /** Every file is within the maximum. */
  ghost predicate Bounded(f: Files, segments: nat, maximum: nat) {
    |f.current| <= maximum && forall k: nat | 1 <= k <= segments :: |Backup(f, k)| <= maximum
  }

  /** Backups are numbered without a gap, and two neighbouring files would not fit in one. */
  ghost predicate Packed(f: Files, segments: nat, maximum: nat) {
    && (1 in f.backups ==> |Backup(f, 1)| + |f.current| > maximum)
    && forall k: nat | 2 <= k <= segments && k in f.backups ::
         k - 1 in f.backups && |Backup(f, k)| + |Backup(f, k - 1)| > maximum
  }

  /** What a log that has been given history keeps of it. */
  ghost predicate Keeps(f: Files, history: Text, segments: nat, maximum: nat) {
    && Bounded(f, segments, maximum)
    && Packed(f, segments, maximum)
    && Suffix(Retained(f, segments), history)
    && (segments !in f.backups ==> Retained(f, segments) == history)
  }

  lemma {:induction false} ShiftedText(f: Files, g: Files, segments: nat, k: nat)
    requires 1 <= k <= segments && 1 in g.backups
    requires Shifted(f.backups, g.backups - {1}, segments)
    ensures BackupText(g, k) == BackupText(f, k - 1) + Backup(g, 1)
  {
    if k > 1 {
      ShiftedText(f, g, segments, k - 1);
      ShiftedBackup(f, g, segments, k);
    } else {
      assert BackupText(g, 1) == Backup(g, 1) + BackupText(g, 0);
    }
  }

  lemma ShiftedBackup(f: Files, g: Files, segments: nat, k: nat)
    requires 2 <= k <= segments
    requires Shifted(f.backups, g.backups - {1}, segments)
    ensures Backup(g, k) == Backup(f, k - 1) && (k in g.backups <==> k - 1 in f.backups)
  {
    assert MovedFrom(f.backups, g.backups - {1}, k, Origin(k, segments, 0));
  }

  /** One append of a record that fits in a file keeps a suffix of the longer history. */
  lemma AppendKeeps(f: Files, g: Files, history: Text, data: Text, segments: nat, maximum: nat)
    requires segments >= 1 && Keeps(f, history, segments, maximum)
    requires Appended(f, g, data, segments, maximum) && |data| <= maximum
    ensures Keeps(g, history + data, segments, maximum)
  {
    if |f.current| + |data| > maximum {
      RotatedText(f, g, data, segments, maximum);
      RotatedPacked(f, g, data, segments, maximum);
      SuffixGrows(Retained(f, segments), Retained(g, segments), history, data, Backup(f, segments));
    } else {
      SameBackups(f, g, segments);
      Joined(BackupText(f, segments), f.current, data);
      NothingLost(Retained(f, segments), data);
      SuffixGrows(Retained(f, segments), Retained(g, segments), history, data, []);
      SamePacked(f, g, segments, maximum);
    }
  }

  lemma NothingLost(t: Text, data: Text)
    ensures t + data == [] + (t + data)
  {
  }

  lemma SamePacked(f: Files, g: Files, segments: nat, maximum: nat)
    requires f.backups == g.backups && |f.current| <= |g.current| <= maximum
    requires Bounded(f, segments, maximum) && Packed(f, segments, maximum)
    ensures Bounded(g, segments, maximum) && Packed(g, segments, maximum)
  {
    forall k: nat ensures Backup(g, k) == Backup(f, k) { }
  }

  lemma SuffixGrows(kept: Text, next: Text, history: Text, data: Text, lost: Text)
    requires Suffix(kept, history) && kept + data == lost + next
    ensures Suffix(next, history + data)
    ensures kept == history && lost == [] ==> next == history + data
  {
    var dropped :| history == dropped + kept;
    Joined(dropped, kept, data);
    Joined(dropped, lost, next);
  }

  lemma Joined(a: Text, b: Text, c: Text)
    ensures (a + b) + c == a + (b + c)
  {
  }

  lemma RotatedText(f: Files, g: Files, data: Text, segments: nat, maximum: nat)
    requires segments >= 1 && |f.current| <= maximum < |f.current| + |data|
    requires Appended(f, g, data, segments, maximum)
    ensures Retained(f, segments) + data == Backup(f, segments) + Retained(g, segments)
  {
    ShiftedText(f, g, segments, segments);
    assert Backup(g, 1) == f.current;
    Joined(Backup(f, segments), BackupText(f, segments - 1), f.current);
    Joined(Backup(f, segments), BackupText(f, segments - 1) + f.current, data);
  }

  lemma RotatedPacked(f: Files, g: Files, data: Text, segments: nat, maximum: nat)
    requires segments >= 1 && Bounded(f, segments, maximum) && Packed(f, segments, maximum)
    requires Appended(f, g, data, segments, maximum)
    requires |data| <= maximum < |f.current| + |data|
    ensures Bounded(g, segments, maximum) && Packed(g, segments, maximum)
    ensures segments in f.backups ==> segments in g.backups
  {
    assert Backup(g, 1) == f.current;
    forall k: nat | 2 <= k <= segments
      ensures |Backup(g, k)| <= maximum
      ensures k in g.backups ==> k - 1 in g.backups && |Backup(g, k)| + |Backup(g, k - 1)| > maximum
    {
      ShiftedBackup(f, g, segments, k);
      assert |Backup(f, k - 1)| <= maximum;
      if k >= 3 { ShiftedBackup(f, g, segments, k - 1); }
    }
    if segments >= 2 { ShiftedBackup(f, g, segments, segments); }
  }

  lemma {:induction false} SameBackups(f: Files, g: Files, k: nat)
    requires f.backups == g.backups
    ensures BackupText(f, k) == BackupText(g, k)
  {
    if k > 0 { SameBackups(f, g, k - 1); }
  }

  // ---- whole runs ----

  /** The files after each record appended to a new log. */
  ghost predicate IsRun(trace: seq<Files>, records: seq<Text>, segments: nat, maximum: nat) {
    && |trace| == |records| + 1 && trace[0] == Empty
    && forall i | 0 <= i < |records| :: Appended(trace[i], trace[i + 1], records[i], segments, maximum)
  }

  function History(records: seq<Text>): Text {
    if records == [] then [] else History(records[..|records| - 1]) + records[|records| - 1]
  }

  lemma {:induction false} RunKeeps(trace: seq<Files>, records: seq<Text>, segments: nat, maximum: nat)
    requires segments >= 1 && IsRun(trace, records, segments, maximum)
    requires forall i | 0 <= i < |records| :: |records[i]| <= maximum
    ensures Keeps(trace[|records|], History(records), segments, maximum)
  {
    var n := |records|;
    if n == 0 {
      EmptyText(segments);
      assert [] == [] + Retained(Empty, segments);
    } else {
      RunKeeps(trace[..n], records[..n - 1], segments, maximum);
      AppendKeeps(trace[n - 1], trace[n], History(records[..n - 1]), records[n - 1], segments, maximum);
    }
  }

  lemma {:induction false} EmptyText(k: nat)
    ensures BackupText(Empty, k) == []
  {
    if k > 0 { EmptyText(k - 1); }
  }

  /** Neighbouring files pair up, so a full log retains more than half of what its files could hold. */
  lemma {:induction false} PairsExceed(f: Files, k: nat, segments: nat, maximum: nat)
    requires k <= segments && Packed(f, segments, maximum)
    requires k > 0 ==> k in f.backups
    ensures |BackupText(f, k)| + |f.current| >= (k + 1) / 2 * (maximum + 1)
    decreases k
  {
    if k >= 2 {
      assert k - 1 in f.backups;
      PairsExceed(f, k - 2, segments, maximum);
      OneMore((k - 1) / 2, maximum + 1);
      assert BackupText(f, k) == Backup(f, k) + (Backup(f, k - 1) + BackupText(f, k - 2));
    }
  }

  lemma OneMore(a: nat, b: nat)
    ensures (a + 1) * b == a * b + b
  {
  }

  lemma {:induction false} FilesFit(f: Files, k: nat, segments: nat, maximum: nat)
    requires k <= segments && Bounded(f, segments, maximum)
    ensures |BackupText(f, k)| <= k * maximum
  {
    if k > 0 { FilesFit(f, k - 1, segments, maximum); }
  }

  /**
   A log holds a suffix of all it was given: everything, or more than
   (N + 1) / 2 times the maximum, and never more than N + 1 times the maximum.
   */
  lemma RunRetains(trace: seq<Files>, records: seq<Text>, segments: nat, maximum: nat)
    requires segments >= 1 && IsRun(trace, records, segments, maximum)
    requires forall i | 0 <= i < |records| :: |records[i]| <= maximum
    ensures var kept := Retained(trace[|records|], segments);
            && Suffix(kept, History(records)) && |kept| <= (segments + 1) * maximum
            && (kept == History(records) || |kept| > (segments + 1) / 2 * maximum)
  {
    RunKeeps(trace, records, segments, maximum);
    var last := trace[|records|];
    FilesFit(last, segments, segments, maximum);
    if segments in last.backups {
      PairsExceed(last, segments, segments, maximum);
    }
  }

  // ---- records that are too long ----

  /** The current file stays within the maximum exactly when the record does. */
  lemma CurrentBounded(f: Files, g: Files, data: Text, segments: nat, maximum: nat)
    requires Appended(f, g, data, segments, maximum)
    ensures |g.current| <= maximum <==> |data| <= maximum
  {
  }

  /**
   When a rotation cuts a current text that is too long, what it held is dropped from
   between the older backups and its tail.  The log is then a suffix of the history
   exactly when the older backups are one of the text in front of that tail.
   */
  lemma CutKeepsSuffix(f: Files, g: Files, data: Text, segments: nat, maximum: nat)
    requires segments >= 1 && Appended(f, g, data, segments, maximum) && |f.current| > maximum
    ensures Suffix(Retained(g, segments), Retained(f, segments) + data)
       <==> Suffix(BackupText(f, segments - 1),
                   Backup(f, segments) + BackupText(f, segments - 1) + f.current[..|f.current| - maximum])
  {
    ShiftedText(f, g, segments, segments);
    var older, cut := BackupText(f, segments - 1), |f.current| - maximum;
    var head, tail := Backup(f, segments) + older + f.current[..cut], f.current[cut..] + data;
    assert Retained(g, segments) == older + tail;
    assert Retained(f, segments) + data == head + tail;
    SuffixBefore(older, head, tail);
  }

  /** A common end decides nothing. */
  lemma SuffixBefore(part: Text, whole: Text, tail: Text)
    ensures Suffix(part + tail, whole + tail) <==> Suffix(part, whole)
  {
    if Suffix(part, whole) {
      var dropped :| whole == dropped + part;
      Joined(dropped, part, tail);
    }
    if Suffix(part + tail, whole + tail) {
      var dropped :| whole + tail == dropped + (part + tail);
      Joined(dropped, part, tail);
      assert (whole + tail)[..|whole|] == whole && ((dropped + part) + tail)[..|whole|] == dropped + part;
    }
  }

  const NEWLINE: Byte := 10

  /** A record as the callers write it: a line. */
  predicate IsLine(record: Text) {
    record != [] && record[|record| - 1] == NEWLINE && forall i | 0 <= i < |record| - 1 :: record[i] != NEWLINE
  }

  /** When a line that is too long is cut, the log is no suffix of what it was given unless no older backup is kept. */
  lemma CutLineLosesText(f: Files, g: Files, data: Text, segments: nat, maximum: nat)
    requires segments >= 1 && Appended(f, g, data, segments, maximum)
    requires IsLine(f.current) && 1 <= maximum < |f.current|
    requires var older := BackupText(f, segments - 1); older == [] || older[|older| - 1] == NEWLINE
    ensures Suffix(Retained(g, segments), Retained(f, segments) + data) <==> BackupText(f, segments - 1) == []
  {
    CutKeepsSuffix(f, g, data, segments, maximum);
    PartOfLine(Backup(f, segments), BackupText(f, segments - 1), f.current, |f.current| - maximum);
  }

  /** A part of a line does not end the text that whole lines end. */
  lemma PartOfLine(before: Text, older: Text, line: Text, cut: nat)
    requires IsLine(line) && 0 < cut < |line| && (older == [] || older[|older| - 1] == NEWLINE)
    ensures Suffix(older, before + older + line[..cut]) <==> older == []
  {
    var whole := before + older + line[..cut];
    LastOf(before + older, line[..cut], whole);
    if older == [] {
      assert whole == whole + [];
    } else if Suffix(older, whole) {
      SameLast(older, whole);
    }
  }

  lemma LastOf(front: Text, back: Text, whole: Text)
    requires back != [] && whole == front + back
    ensures whole != [] && whole[|whole| - 1] == back[|back| - 1]
  {
  }

  lemma SameLast(part: Text, whole: Text)
    requires Suffix(part, whole) && part != []
    ensures whole != [] && whole[|whole| - 1] == part[|part| - 1]
  {
    var dropped :| whole == dropped + part;
  }

  /** A line that is too long is alone in the current file, and the next record cuts it. */
  lemma LongLineIsAlone(f: Files, g: Files, data: Text, segments: nat, maximum: nat)
    requires segments >= 1 && Appended(f, g, data, segments, maximum) && |data| > maximum
    ensures g.current == data
    ensures forall h: Files, more: Text ::
              Appended(g, h, more, segments, maximum) ==> h.current == more && Backup(h, 1) == data[|data| - maximum..]
  {
    forall h: Files, more: Text | Appended(g, h, more, segments, maximum)
      ensures h.current == more && Backup(h, 1) == data[|data| - maximum..] { }
  }
}
