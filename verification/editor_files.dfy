/**
 Applying the editor writes auth.json and config.toml one after the other, and puts
 the old files back when a write fails.  Each write may fail before or after its rename.
 */
module EditorFiles {
  import opened Wrappers

  datatype File = File(text: string, mode: nat)

  datatype Files = Files(config: Option<File>, auth: Option<File>)

  datatype Path = Config | Auth

  /** How a step ends: well, or with an exception before or after it changed the file. */
  datatype Fault = Clean | Early | Late

  datatype Faults = Faults(auth: Fault, config: Fault, restoreConfig: Fault, restoreAuth: Fault)

  datatype Outcome = Applied | RolledBack | NotRestored

  const PRIVATE: nat := 0x180

  // ---- reading with universal newlines ----

  /** Text as it is read: CRLF and CR come out as LF. */
  function Translated(t: string): string {
    if t == "" then ""
    else if t[0] != '\r' then [t[0]] + Translated(t[1..])
    else ['\n'] + Translated(if |t| > 1 && t[1] == '\n' then t[2..] else t[1..])
  }

  /** What was read is what the file held exactly when it holds no carriage return. */
  lemma {:induction false} ReadBack(t: string)
    ensures Translated(t) == t <==> '\r' !in t
    ensures '\r' !in Translated(t)
  {
    if t != "" {
      assert t == [t[0]] + t[1..];
      if t[0] != '\r' {
        ReadBack(t[1..]);
      } else {
        ReadBack(if |t| > 1 && t[1] == '\n' then t[2..] else t[1..]);
        assert Translated(t)[0] == '\n';
      }
    }
  }

  predicate OneLine(line: string) { '\r' !in line && '\n' !in line }

  /** A line end, not cut in front of its newline. */
  predicate IsEnding(ending: string, rest: string) {
    ending == "\n" || ending == "\r\n" || (ending == "\r" && !("\n" <= rest))
  }

  /** Each line end, whichever of the three it is, is read as one newline, and nothing else changes. */
  lemma {:induction false} LineRead(line: string, ending: string, rest: string)
    requires OneLine(line) && IsEnding(ending, rest)
    ensures Translated(line + ending + rest) == line + "\n" + Translated(rest) && Translated(line) == line
  {
    hide IsEnding;
    if line == "" {
      assert line + ending + rest == ending + rest && line + "\n" == "\n";
      EndRead(ending, rest, "\r\n");
    } else {
      LineRead(line[1..], ending, rest);
      Grouped(line[1..], ending, rest);
      Grouped(line, ending, rest);
      Grouped(line[1..], "\n", Translated(rest));
      Grouped(line, "\n", Translated(rest));
      OneMore(line[0], line[1..], ending + rest, "\n" + Translated(rest));
      assert line == [line[0]] + line[1..];
    }
  }

  lemma Grouped(a: string, b: string, c: string)
    ensures a + b + c == a + (b + c)
  {
  }

  lemma OneMore(c: char, line: string, rest: string, read: string)
    requires c != '\r' && Translated(line + rest) == line + read && Translated(line) == line
    ensures Translated([c] + line + rest) == [c] + line + read && Translated([c] + line) == [c] + line
  {
    assert ([c] + line + rest)[1..] == line + rest && ([c] + line)[1..] == line;
  }

  lemma EndRead(ending: string, rest: string, both: string)
    requires IsEnding(ending, rest) && both == "\r\n"
    ensures Translated(ending + rest) == "\n" + Translated(rest)
  {
    var t := ending + rest;
    if ending == both {
      assert t[0] == both[0] && t[1] == both[1] && t[2..] == rest;
    } else {
      assert t[0] == ending[0] && t[1..] == rest;
    }
  }

  // ---- what each step leaves ----

  function Get(f: Files, path: Path): Option<File> { if path == Config then f.config else f.auth }

  function Put(f: Files, path: Path, file: Option<File>): Files {
    if path == Config then f.(config := file) else f.(auth := file)
  }

  /** The original of a file as the rollback knows it. */
  function Remembered(file: Option<File>): Option<File> {
    if file.Some? then Some(File(Translated(file.value.text), file.value.mode)) else None
  }

  /** A write with its fault; a missing file is restored by removing what is there. */
  function Written(f: Files, path: Path, file: Option<File>, fault: Fault): Files {
    if fault == Early || (fault == Late && file.None?) then f else Put(f, path, file)
  }

  /** The files after each step, from the one before the first. */
  function Steps(before: Files, config: string, auth: string, faults: Faults): seq<Files> {
    var first := Written(before, Auth, Some(File(auth, PRIVATE)), faults.auth);
    if faults.auth != Clean then
      [before, first, Written(first, Config, Remembered(before.config), faults.restoreConfig)]
    else
      var second := Written(first, Config, Some(File(config, PRIVATE)), faults.config);
      if faults.config == Clean then [before, first, second]
      else
        var third := Written(second, Config, Remembered(before.config), faults.restoreConfig);
        [before, first, second, third, Written(third, Auth, Remembered(before.auth), faults.restoreAuth)]
  }

  function OutcomeOf(faults: Faults): Outcome {
    if faults.auth == Clean && faults.config == Clean then Applied
    else if faults.restoreConfig == Clean && (faults.auth != Clean || faults.restoreAuth == Clean) then RolledBack
    else NotRestored
  }

  function Last(s: seq<Files>): Files
    requires s != []
  {
    s[|s| - 1]
  }

  // ---- the code ----

  class EditorHome {
    var config: Option<File>
    var auth: Option<File>
    ghost var seen: seq<Files>

    ghost predicate Valid()
      reads this
    {
      seen != [] && seen[|seen| - 1] == Contents()
    }

    function Contents(): Files
      reads this
    {
      Files(config, auth)
    }

    function SafeRead(path: Path): (r: (string, bool, nat))
      reads this
    {
      match Get(Contents(), path)
      case None => ("", false, PRIVATE)
      case Some(f) => (Translated(f.text), true, f.mode)
    }

    method AtomicWrite(path: Path, data: string, mode: nat, fault: Fault) returns (ok: bool)
      requires Valid()
      modifies this
      ensures Valid() && ok == (fault == Clean)
      ensures Contents() == Written(old(Contents()), path, Some(File(data, mode)), fault)
      ensures seen == old(seen) + [Contents()]
    {
      if fault != Early {
        if path == Config {
          config := Some(File(data, mode));
        } else {
          auth := Some(File(data, mode));
        }
      }
      seen := seen + [Contents()];
      return fault == Clean;
    }

    method RestoreFile(path: Path, original: (bool, string, nat), fault: Fault) returns (ok: bool)
      requires Valid()
      modifies this
      ensures Valid() && ok == (fault == Clean)
      ensures Contents() ==
              Written(old(Contents()), path, if original.0 then Some(File(original.1, original.2)) else None, fault)
      ensures seen == old(seen) + [Contents()]
    {
      if original.0 {
        ok := AtomicWrite(path, original.1, original.2, fault);
        return;
      }
      if fault == Clean {
        if path == Config {
          config := None;
        } else {
          auth := None;
        }
      }
      seen := seen + [Contents()];
      return fault == Clean;
    }

    method AtomicWriteEditorFiles(configText: string, authText: string, faults: Faults) returns (outcome: Outcome)
      requires Valid() && seen == [Contents()]
      modifies this
      ensures outcome == OutcomeOf(faults)
      ensures seen == Steps(old(Contents()), configText, authText, faults)
      ensures Contents() == Last(Steps(old(Contents()), configText, authText, faults))
    {
      var (oldConfigText, configExisted, configMode) := SafeRead(Config);
      var (oldAuthText, authExisted, authMode) := SafeRead(Auth);
      var authWritten := false;
      var ok := AtomicWrite(Auth, authText, PRIVATE, faults.auth);
      if ok {
        authWritten := true;
        ok := AtomicWrite(Config, configText, PRIVATE, faults.config);
      }
      if ok {
        return Applied;
      }
      var restored := RestoreFile(Config, (configExisted, oldConfigText, configMode), faults.restoreConfig);
      if authWritten {
        var restoredAuth := RestoreFile(Auth, (authExisted, oldAuthText, authMode), faults.restoreAuth);
        restored := restored && restoredAuth;
      }
      return if restored then RolledBack else NotRestored;
    }
  }

  // ---- all or nothing ----

  predicate PlainNewlines(file: Option<File>) { file.Some? ==> '\r' !in file.value.text }

  /**
   Success leaves both files new.  A rollback leaves both as they were exactly when
   the rewritten ones hold no carriage return and the write of auth.json did not
   fail after its rename (unless it wrote what was there).
   */
  lemma AllOrNothing(before: Files, config: string, auth: string, faults: Faults)
    ensures var after := Last(Steps(before, config, auth, faults));
            && (OutcomeOf(faults) == Applied ==>
                  after == Files(Some(File(config, PRIVATE)), Some(File(auth, PRIVATE))))
            && (OutcomeOf(faults) == RolledBack ==>
                  (after == before <==>
                     && PlainNewlines(before.config)
                     && match faults.auth
                        case Early => true
                        case Late => before.auth == Some(File(auth, PRIVATE))
                        case Clean => PlainNewlines(before.auth)))
  {
    if before.config.Some? { ReadBack(before.config.value.text); }
    if before.auth.Some? { ReadBack(before.auth.value.text); }
  }

  /** A new configuration beside credentials that are not the new ones. */
  predicate Stale(f: Files, config: string, auth: string) {
    f.config == Some(File(config, PRIVATE)) && f.auth != Some(File(auth, PRIVATE))
  }

  /** The new text is neither what the file holds nor what it was read as. */
  predicate Differs(file: Option<File>, text: string) {
    file.Some? ==> text != file.value.text && text != Translated(file.value.text)
  }

  /**
   At no moment is the new configuration seen with stale credentials, except when
   the configuration was renamed before its write failed, could not be put back,
   and the credentials were.
   */
  lemma CredentialsComeFirst(before: Files, config: string, auth: string, faults: Faults)
    requires Differs(before.config, config) && Differs(before.auth, auth)
    ensures (exists i | 0 <= i < |Steps(before, config, auth, faults)| ::
               Stale(Steps(before, config, auth, faults)[i], config, auth))
            <==> && faults.auth == Clean && faults.config == Late
                 && (if before.config.Some? then faults.restoreConfig == Early else faults.restoreConfig != Clean)
                 && (if before.auth.Some? then faults.restoreAuth != Early else faults.restoreAuth == Clean)
  {
    var steps := Steps(before, config, auth, faults);
    assert !Stale(steps[0], config, auth) && !Stale(steps[1], config, auth) && !Stale(steps[2], config, auth);
    if |steps| == 5 {
      assert !Stale(steps[3], config, auth);
      assert Stale(steps[4], config, auth) <==>
             && faults.config == Late
             && (if before.config.Some? then faults.restoreConfig == Early else faults.restoreConfig != Clean)
             && (if before.auth.Some? then faults.restoreAuth != Early else faults.restoreAuth == Clean);
    }
  }
}
