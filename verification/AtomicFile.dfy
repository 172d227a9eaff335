/**
 Crash-safe replacement of a save file. Between any two file-system calls the process may stop;
 what matters is what the next start can recover: the target, or else its `.old` sibling.
 */
module AtomicFile {
  import opened Prelude

  /** The file itself, its `.tmp` sibling and its `.old` sibling. */
  datatype Name = Target | Temp | Backup

  type Bytes = seq<u8>
  type Files = map<Name, Bytes>

  /** What survives: the target, or else the copy the fallback moved aside. */
  function Recoverable(files: Files): Option<Bytes> {
    if Target in files then Some(files[Target])
    else if Backup in files then Some(files[Backup])
    else None
  }

  /** The file-system calls of one write that report an error, without effect. A probe that errs
      says the file is missing. `written` is how much of the data a failing write leaves behind. */
  datatype Faults = Faults(openTemp: bool, writeTemp: bool, written: nat, probeTarget: bool, probeBackup: bool,
                           recover: bool, replace: bool, dropBackup: bool, moveAside: bool, putNew: bool,
                           putBack: bool, reclaim: bool, removeTemp: bool)

  function Renamed(files: Files, from: Name, to: Name, fails: bool): Files
    requires from != to
  {
    if fails || from !in files then files else (files - {from})[to := files[from]]
  }

  function Removed(files: Files, name: Name, fails: bool): Files {
    if fails then files else files - {name}
  }

  /** The states after each call of a sequence of calls, and what the sequence reports. */
  datatype Outcome = Outcome(states: seq<Files>, ok: bool)

  /** Writing the temporary file. */
  function Staged(files: Files, bytes: Bytes, f: Faults): Outcome {
    if f.openTemp then Outcome([files], false)
    else
      var emptied := files[Temp := []];
      if f.writeTemp then
        var partial := files[Temp := bytes[..Min(f.written, |bytes|)]];
        Outcome([emptied, partial, Removed(partial, Temp, f.removeTemp)], false)
      else Outcome([emptied, files[Temp := bytes]], true)
  }

  predicate Exists(files: Files, name: Name, probeErrs: bool) {
    name in files && !probeErrs
  }

  /** Putting an orphaned backup in place before anything else is touched. */
  function Restored(files: Files, f: Faults): Outcome {
    if !Exists(files, Target, f.probeTarget) && Exists(files, Backup, f.probeBackup) then
      var renamed := Renamed(files, Backup, Target, f.recover);
      if f.recover || Backup !in files then Outcome([renamed, Removed(renamed, Temp, f.removeTemp)], false)
      else Outcome([renamed], true)
    else Outcome([], true)
  }

  /** The atomic replacement, or the move-aside fallback where the platform refuses it. */
  function Committed(files: Files, f: Faults): Outcome {
    var replaced := Renamed(files, Temp, Target, f.replace);
    if !f.replace && Temp in files then Outcome([replaced, Removed(replaced, Backup, f.reclaim)], true)
    else
      var fallback := MovedAside(replaced, f);
      Outcome([replaced] + fallback.states, fallback.ok)
  }

  function MovedAside(files: Files, f: Faults): Outcome {
    var dropped := Removed(files, Backup, f.dropBackup);
    var aside := Renamed(dropped, Target, Backup, f.moveAside);
    if f.moveAside || Target !in dropped then
      Outcome([dropped, aside, Removed(aside, Temp, f.removeTemp)], false)
    else
      var placed := Renamed(aside, Temp, Target, f.putNew);
      if f.putNew || Temp !in aside then
        var back := Renamed(placed, Backup, Target, f.putBack);
        Outcome([dropped, aside, placed, back, Removed(back, Temp, f.removeTemp)], false)
      else Outcome([dropped, aside, placed, Removed(placed, Backup, f.reclaim)], true)
  }

  function Last(files: Files, states: seq<Files>): Files {
    if states == [] then files else states[|states| - 1]
  }

  /** One whole write: every state it goes through, and what it returns. */
  function Attempt(files: Files, bytes: Bytes, f: Faults): Outcome {
    var staged := Staged(files, bytes, f);
    if !staged.ok then staged
    else
      var afterStage := Last(files, staged.states);
      var restored := Restored(afterStage, f);
      if !restored.ok then Outcome(staged.states + restored.states, false)
      else
        var committed := Committed(Last(afterStage, restored.states), f);
        Outcome(staged.states + restored.states + committed.states, committed.ok)
  }

  /** The write finds the target missing, or an erring probe says so, beside a backup. */
  predicate SeesOrphan(files: Files, f: Faults) {
    (Target !in files || f.probeTarget) && Backup in files && !f.probeBackup
  }

  /** Which failing calls a write survives: none that fills the temporary file, nor the recovery of an
      orphan it sees; the replacement may fail if there is a target to move aside and both renames work. */
  predicate Succeeds(files: Files, f: Faults) {
    && !f.openTemp && !f.writeTemp
    && (SeesOrphan(files, f) ==> !f.recover)
    && (!f.replace || ((Target in files || SeesOrphan(files, f)) && !f.moveAside && !f.putNew))
  }

  /** Start-up puts an orphaned backup in place before reading. */
  function AfterLoad(files: Files, f: Faults): Files {
    if !Exists(files, Target, f.probeTarget) && Exists(files, Backup, f.probeBackup)
    then Renamed(files, Backup, Target, f.recover) else files
  }

  function ReadFile(files: Files): Option<Bytes> {
    if Target in files then Some(files[Target]) else None
  }

  // ---------------------------------------------------------------- the folder

  class Folder {
    var files: Files
    /** Every state since the folder was opened, one per call. */
    ghost var history: seq<Files>

    constructor (files: Files)
      ensures this.files == files && history == []
    {
      this.files := files;
      history := [];
    }

    method Rename(from: Name, to: Name, fails: bool) returns (ok: bool)
      requires from != to
      modifies this
      ensures files == Renamed(old(files), from, to, fails) && history == old(history) + [files]
      ensures ok <==> !fails && from in old(files)
    {
      ok := !fails && from in files;
      if ok {
        files := (files - {from})[to := files[from]];
      }
      history := history + [files];
    }

    method Remove(name: Name, fails: bool)
      modifies this
      ensures files == Removed(old(files), name, fails) && history == old(history) + [files]
    {
      if !fails {
        files := files - {name};
      }
      history := history + [files];
    }

    method Write(name: Name, bytes: Bytes)
      modifies this
      ensures files == old(files)[name := bytes] && history == old(history) + [files]
    {
      files := files[name := bytes];
      history := history + [files];
    }

    /** The part of write_file_atomic that fills the temporary file. */
    method StageTemp(bytes: Bytes, f: Faults) returns (ok: bool)
      modifies this
      ensures var staged := Staged(old(files), bytes, f);
              ok == staged.ok && files == Last(old(files), staged.states) && history == old(history) + staged.states
    {
      if f.openTemp {
        history := history + [files];
        return false;
      }
      Write(Temp, []);
      if f.writeTemp {
        ghost var emptied := files;
        Write(Temp, bytes[..Min(f.written, |bytes|)]);
        ghost var partial := files;
        assert partial == old(files)[Temp := bytes[..Min(f.written, |bytes|)]];
        Remove(Temp, f.removeTemp);
        assert history == old(history) + [emptied, partial, files];
        return false;
      }
      Write(Temp, bytes);
      assert files == old(files)[Temp := bytes];
      return true;
    }

    /** The part that puts an orphaned backup back. */
    method RestoreOrphan(f: Faults) returns (ok: bool)
      modifies this
      ensures var restored := Restored(old(files), f);
              ok == restored.ok && files == Last(old(files), restored.states)
              && history == old(history) + restored.states
    {
      var targetMissing := !Exists(files, Target, f.probeTarget);
      var backupExists := Exists(files, Backup, f.probeBackup);
      ok := true;
      if targetMissing && backupExists {
        ok := Rename(Backup, Target, f.recover);
        if !ok {
          ghost var renamed := files;
          Remove(Temp, f.removeTemp);
          assert history == old(history) + [renamed, files];
        }
      }
    }

    /** The replacement itself. */
    method Commit(f: Faults) returns (ok: bool)
      modifies this
      ensures var committed := Committed(old(files), f);
              ok == committed.ok && files == Last(old(files), committed.states)
              && history == old(history) + committed.states
    {
      hide Renamed, Removed, MovedAside;
      ok := Rename(Temp, Target, f.replace);
      ghost var replaced := files;
      if ok {
        Remove(Backup, f.reclaim);
        assert history == old(history) + [replaced, files];
      } else {
        ok := MoveAside(f);
      }
    }

    /** The fallback: the old file moves aside, the new one takes its place, and the old one comes
        back if that fails. */
    method MoveAside(f: Faults) returns (ok: bool)
      modifies this
      ensures var moved := MovedAside(old(files), f);
              ok == moved.ok && files == Last(old(files), moved.states) && history == old(history) + moved.states
    {
      hide Renamed, Removed;
      Remove(Backup, f.dropBackup);
      ghost var dropped := files;
      ok := Rename(Target, Backup, f.moveAside);
      ghost var aside := files;
      if !ok {
        Remove(Temp, f.removeTemp);
        assert history == old(history) + [dropped, aside, files];
        return;
      }
      ok := Rename(Temp, Target, f.putNew);
      ghost var placed := files;
      if !ok {
        var _ := Rename(Backup, Target, f.putBack);
        ghost var restored := files;
        Remove(Temp, f.removeTemp);
        assert history == old(history) + [dropped, aside, placed, restored, files];
        return;
      }
      Remove(Backup, f.reclaim);
      assert history == old(history) + [dropped, aside, placed, files];
    }

    /** What start-up does before it reads the save. */
    method LoadSave(f: Faults) returns (contents: Option<Bytes>)
      modifies this
      ensures files == AfterLoad(old(files), f) && contents == ReadFile(files)
    {
      if !Exists(files, Target, f.probeTarget) && Exists(files, Backup, f.probeBackup) {
        var _ := Rename(Backup, Target, f.recover);
      }
      contents := if Target in files then Some(files[Target]) else None;
    }

    /** write_file_atomic */
    method WriteFileAtomic(bytes: Bytes, f: Faults) returns (ok: bool)
      modifies this
      ensures ok <==> Succeeds(old(files), f)
      ensures ok ==> Saved(old(files), bytes, f, files)
      ensures !ok ==> Refused(old(files), f, files)
      ensures var attempt := Attempt(old(files), bytes, f);
              ok == attempt.ok && history == old(history) + attempt.states && files == Last(old(files), attempt.states)
    {
      WriteSucceeds(files, bytes, f);
      hide Staged, Restored, Committed, Saved, Refused, Succeeds;
      ok := StageTemp(bytes, f);
      if ok {
        ok := RestoreOrphan(f);
      }
      if ok {
        ok := Commit(f);
      }
    }
  }

  // ---------------------------------------------------------------- one write

  /** After a successful write the target holds the bytes, the temporary file is gone, and so is the
      backup, unless its removal failed. */
  predicate Saved(files: Files, bytes: Bytes, f: Faults, after: Files) {
    && Target in after && after[Target] == bytes && Temp !in after
    && (!f.reclaim ==> Backup !in after)
    && (f.reclaim && !f.replace ==> (Backup in after <==> Backup in files && !SeesOrphan(files, f)))
  }

  /** A refused write leaves no temporary file behind, unless it could not even open or remove one. */
  predicate Refused(files: Files, f: Faults, after: Files) {
    Temp in after <==> (if f.openTemp then Temp in files else f.removeTemp)
  }

  /** A write succeeds exactly under these faults, and what it then leaves. */
  lemma WriteSucceeds(files: Files, bytes: Bytes, f: Faults)
    ensures var attempt := Attempt(files, bytes, f);
            var after := Last(files, attempt.states);
            && (attempt.ok <==> Succeeds(files, f))
            && (if attempt.ok then Saved(files, bytes, f, after) else Refused(files, f, after))
  {
  }

  /** With no failing call the write succeeds and leaves the new file alone. */
  lemma UnhinderedWrite(files: Files, bytes: Bytes, f: Faults)
    requires !f.openTemp && !f.writeTemp && !f.recover && !f.replace && !f.reclaim
    ensures var attempt := Attempt(files, bytes, f);
            attempt.ok && Last(files, attempt.states) == files[Target := bytes] - {Temp, Backup}
  {
  }

  /** Whatever happens, in every state the old or the new content can be recovered; success means
      the new one, failure the old one. */
  ghost predicate Safe(files: Files, bytes: Bytes, f: Faults) {
    var attempt := Attempt(files, bytes, f);
    && (forall s :: s in attempt.states ==> Recoverable(s) == Recoverable(files) || Recoverable(s) == Some(bytes))
    && Recoverable(Last(files, attempt.states)) == if attempt.ok then Some(bytes) else Recoverable(files)
  }

  /** Probes can only do harm in two ways: calling the target missing beside a different backup,
      or calling an orphaned backup missing. */
  predicate ProbesMislead(files: Files, probeTarget: bool, probeBackup: bool) {
    && Backup in files
    && if Target in files then probeTarget && !probeBackup && files[Target] != files[Backup] else probeBackup
  }

  lemma RecoverableStage(files: Files, bytes: Bytes, f: Faults)
    ensures var staged := Staged(files, bytes, f);
            && (forall s :: s in staged.states ==> Recoverable(s) == Recoverable(files))
            && Recoverable(Last(files, staged.states)) == Recoverable(files)
            && (staged.ok ==> Last(files, staged.states) == files[Temp := bytes])
  {
  }

  lemma RecoverableRestore(files: Files, f: Faults)
    requires Temp in files && !ProbesMislead(files, f.probeTarget, f.probeBackup)
    ensures var restored := Restored(files, f);
            && (forall s :: s in restored.states ==> Recoverable(s) == Recoverable(files))
            && (restored.ok ==> var last := Last(files, restored.states);
                  && Recoverable(last) == Recoverable(files) && Temp in last && last[Temp] == files[Temp]
                  && (Target in last || Backup !in last))
  {
  }

  lemma RecoverableCommit(files: Files, bytes: Bytes, f: Faults)
    requires Temp in files && files[Temp] == bytes && (Target in files || Backup !in files)
    ensures var committed := Committed(files, f);
            && (forall s :: s in committed.states ==> Recoverable(s) == Recoverable(files) || Recoverable(s) == Some(bytes))
            && Recoverable(Last(files, committed.states)) == if committed.ok then Some(bytes) else Recoverable(files)
  {
  }

  lemma WriteIsSafe(files: Files, bytes: Bytes, f: Faults)
    requires !ProbesMislead(files, f.probeTarget, f.probeBackup)
    ensures Safe(files, bytes, f)
  {
    hide Staged, Restored, Committed, Recoverable;
    RecoverableStage(files, bytes, f);
    var staged := Staged(files, bytes, f);
    if staged.ok {
      var s1 := Last(files, staged.states);
      RecoverableRestore(s1, f);
      var restored := Restored(s1, f);
      if restored.ok {
        RecoverableCommit(Last(s1, restored.states), bytes, f);
      }
    }
  }

  /** Otherwise some failing call loses the old content while the new one is not in place. */
  lemma MisleadingProbesLose(files: Files, bytes: Bytes, probeTarget: bool, probeBackup: bool) returns (f: Faults)
    requires ProbesMislead(files, probeTarget, probeBackup)
    ensures f.probeTarget == probeTarget && f.probeBackup == probeBackup && !Safe(files, bytes, f)
  {
    f := Faults(false, false, 0, probeTarget, probeBackup, false, true, false, true, false, false, false, false);
    var staged := Staged(files, bytes, f);
    var s1 := files[Temp := bytes];
    assert Last(files, staged.states) == s1;
    var restored := Restored(s1, f);
    var s2 := Last(s1, restored.states);
    if Target in files {
      assert s2 == (s1 - {Backup})[Target := files[Backup]];
    }
    var committed := Committed(s2, f);
    var attempt := Attempt(files, bytes, f);
    assert !attempt.ok && Last(files, attempt.states) == Last(s2, committed.states);
  }

  /** Writing is safe under every pattern of failing calls exactly when the probes do not mislead. */
  lemma SafeExactly(files: Files, bytes: Bytes, probeTarget: bool, probeBackup: bool)
    ensures (forall f: Faults :: f.probeTarget == probeTarget && f.probeBackup == probeBackup ==> Safe(files, bytes, f))
       <==> !ProbesMislead(files, probeTarget, probeBackup)
  {
    hide Safe, ProbesMislead;
    if ProbesMislead(files, probeTarget, probeBackup) {
      var f := MisleadingProbesLose(files, bytes, probeTarget, probeBackup);
    } else {
      forall f: Faults | f.probeTarget == probeTarget && f.probeBackup == probeBackup
        ensures Safe(files, bytes, f)
      {
        WriteIsSafe(files, bytes, f);
      }
    }
  }

  // ---------------------------------------------------------------- whole histories

  /** A write that may be cut short after some number of calls, or a start-up. */
  datatype Event = Save(bytes: Bytes, faults: Faults, crash: Option<nat>) | Load(faults: Faults)

  function After(files: Files, e: Event): Files {
    match e
    case Load(f) => AfterLoad(files, f)
    case Save(bytes, f, crash) =>
      var states := Attempt(files, bytes, f).states;
      if crash.Some? && crash.value <= |states| then Last(files, states[..crash.value]) else Last(files, states)
  }

  predicate Crashed(files: Files, e: Event) {
    e.Save? && e.crash.Some? && e.crash.value <= |Attempt(files, e.bytes, e.faults).states|
  }

  function Final(files: Files, events: seq<Event>): Files
    decreases |events|
  {
    if events == [] then files else Final(After(files, events[0]), events[1..])
  }

  /** No probe misleads anywhere along the history. */
  predicate Reliable(files: Files, events: seq<Event>)
    decreases |events|
  {
    events == []
    || (&& !ProbesMislead(files, events[0].faults.probeTarget, events[0].faults.probeBackup)
        && Reliable(After(files, events[0]), events[1..]))
  }

  /** An atomic cell that follows the history: a completed write decides by its return value, a
      crashed one by its entry in `committed`, and a start-up changes nothing. */
  function Cell(files: Files, value: Option<Bytes>, events: seq<Event>, committed: seq<bool>): Option<Bytes>
    requires |committed| == |events|
    decreases |events|
  {
    if events == [] then value
    else
      var e := events[0];
      var stored := e.Save? && if Crashed(files, e) then committed[0] else Attempt(files, e.bytes, e.faults).ok;
      Cell(After(files, e), if stored then Some(e.bytes) else value, events[1..], committed[1..])
  }

  lemma EventIsAtomic(files: Files, e: Event)
    requires !ProbesMislead(files, e.faults.probeTarget, e.faults.probeBackup)
    ensures e.Load? ==> Recoverable(After(files, e)) == Recoverable(files)
    ensures e.Load? && !e.faults.recover && !e.faults.probeTarget && !e.faults.probeBackup ==>
              ReadFile(After(files, e)) == Recoverable(files)
    ensures e.Save? && Crashed(files, e) ==>
              Recoverable(After(files, e)) == Recoverable(files) || Recoverable(After(files, e)) == Some(e.bytes)
    ensures e.Save? && !Crashed(files, e) ==>
              Recoverable(After(files, e))
              == if Attempt(files, e.bytes, e.faults).ok then Some(e.bytes) else Recoverable(files)
  {
    if e.Save? {
      WriteIsSafe(files, e.bytes, e.faults);
      hide Attempt, Recoverable;
      var states := Attempt(files, e.bytes, e.faults).states;
      if Crashed(files, e) && e.crash.value > 0 {
        assert states[e.crash.value - 1] in states;
      }
    }
  }

  /** Through any history of writes, failures, crashes and start-ups the save behaves as an atomic
      cell: one outcome per crashed write, fixed for good, explains what every point of the history
      can recover. */
  lemma {:induction false} SaveIsAtomic(files: Files, events: seq<Event>) returns (committed: seq<bool>)
    requires Reliable(files, events)
    ensures |committed| == |events|
    ensures forall n: nat :: n <= |events| ==>
              Recoverable(Final(files, events[..n])) == Cell(files, Recoverable(files), events[..n], committed[..n])
    decreases |events|
  {
    if events == [] {
      committed := [];
    } else {
      EventIsAtomic(files, events[0]);
      hide After, Recoverable, Attempt, Crashed, ProbesMislead;
      var e, next := events[0], After(files, events[0]);
      var rest := SaveIsAtomic(next, events[1..]);
      var stored := e.Save? && Recoverable(next) == Some(e.bytes);
      committed := [stored] + rest;
      forall n: nat | n <= |events|
        ensures Recoverable(Final(files, events[..n])) == Cell(files, Recoverable(files), events[..n], committed[..n])
      {
        if n > 0 {
          assert events[..n][1..] == events[1..][..n - 1] && committed[..n][1..] == rest[..n - 1];
          assert events[..n][0] == e && committed[..n][0] == stored;
        }
      }
    }
  }
}
