/**
 The transactional binary upgrade. Any file or service call may fail, and the process may die at any call;
 a dead process is one whose later calls all do nothing and fail. The old executable is never lost: it stays
 at the target or at the backup until the new one is in place and, if the service was running, started.
 */
module Upgrade {
  import D = Domain

  type File = D.Option<string>

  datatype Path = Target | Backup | Staged

  /** The files the upgrade touches, by their bytes. */
  datatype Disk = Disk(target: File, backup: File, staged: File) {
    function At(path: Path): File {
      match path
      case Target => target
      case Backup => backup
      case Staged => staged
    }

    function Put(path: Path, file: File): Disk {
      match path
      case Target => this.(target := file)
      case Backup => this.(backup := file)
      case Staged => this.(staged := file)
    }
  }

  datatype Service = Running | Stopped | Pending

  /** What the environment does to one call: whether it works, and what a failed call leaves behind. */
  datatype Fate = Fate(works: bool, partial: File, service: Service)

  datatype Outcome = Done | Missing | Failed

  /** How `service upgrade` ends. Only `Upgraded` is a nil error. */
  datatype Report =
    | Upgraded
    | Refused
    | StopFailed
    | SwapUndone
    | SwapUndoneNotRestarted
    | SwapBroken
    | RolledBack
    | RolledBackNotRestarted
    | RollbackFailed
    | BackupKept

  /** `process` is the executable the service was started from; it counts while the service runs. */
  datatype Machine = Machine(disk: Disk, service: Service, process: File)

  /** Of a running service, the executable it runs. */
  predicate Runs(m: Machine, executable: File) {
    m.service.Running? ==> m.process == executable
  }

  // ---------- What each ending means ----------

  ghost predicate SameButStaged(d: Disk, e: Disk) {
    d.target == e.target && d.backup == e.backup
  }

  /**
   The files and the service after each ending. A service that did not run is never started; one that ran is
   running again on the file at the target exactly when the ending says so.
   */
  ghost predicate Means(report: Report, before: Machine, candidate: string, after: Machine) {
    var d, e, old' := before.disk, after.disk, before.disk.target;
    && (!before.service.Running? ==> after.service == before.service && after.process == before.process)
    && match report
       case Refused => SameButStaged(d, e) && after.service == before.service && after.process == before.process
       case Upgraded =>
         && Ready(d) && e == Disk(D.Some(candidate), D.None, D.None)
         && after.service == before.service && Runs(after, D.Some(candidate))
       case BackupKept =>
         && Ready(d) && e == Disk(D.Some(candidate), old', D.None)
         && after.service == before.service && Runs(after, D.Some(candidate))
       case StopFailed => Ready(d) && SameButStaged(d, e) && before.service.Running? && Runs(after, before.process)
       case SwapUndone => Ready(d) && SameButStaged(d, e) && after.service == before.service && Runs(after, old')
       case SwapUndoneNotRestarted => Ready(d) && SameButStaged(d, e) && before.service.Running?
       case SwapBroken => Ready(d) && e.target == D.None && e.backup == old'
       case RolledBack =>
         && Ready(d) && e == Disk(old', D.None, D.None) && after.service == before.service == Running
         && (after.process == old' || after.process == D.Some(candidate))
       case RolledBackNotRestarted => Ready(d) && e == Disk(old', D.None, D.None) && before.service.Running?
       case RollbackFailed =>
         Ready(d) && e.backup == old' && (e.target == D.None || e.target == D.Some(candidate))
             && before.service.Running?
  }

  /** Endings that did not use the staged file; the last call removes it. */
  predicate LeavesStaged(report: Report) {
    report.StopFailed? || report.SwapUndone? || report.SwapUndoneNotRestarted? || report.SwapBroken?
  }

  /** An installed target and no backup from an earlier attempt. */
  ghost predicate Ready(d: Disk) {
    d.target.Some? && d.backup.None?
  }

  // ---------- The program ----------

  class Host {
    var disk: Disk
    var service: Service
    var process: File
    var clock: nat
    const world: nat -> Fate
    const dies: D.Option<nat>

    constructor (found: Machine, world: nat -> Fate, dies: D.Option<nat>)
      ensures Now() == found && this.world == world && this.dies == dies && clock == 0
    {
      disk, service, process := found.disk, found.service, found.process;
      this.world, this.dies, clock := world, dies, 0;
    }

    function Now(): Machine
      reads this
    {
      Machine(disk, service, process)
    }

    predicate Alive(k: nat) {
      dies.None? || k < dies.value
    }

    predicate Works(k: nat) {
      Alive(k) && world(k).works
    }

    ghost predicate AllWork(from: nat, to: nat) {
      forall k :: from <= k < to ==> Works(k)
    }

    /** If the last call worked, it left no staged file. */
    ghost predicate StagedRemoved()
      reads this
    {
      clock > 0 && (Works(clock - 1) ==> disk.staged.None?)
    }

    /** One call to the environment, and whether it works. */
    method Call() returns (works: bool, fate: Fate)
      modifies `clock
      ensures works == Works(old(clock)) && fate == world(old(clock)) && clock == old(clock) + 1
    {
      fate, works := world(clock), Works(clock);
      clock := clock + 1;
    }

    method Stat(path: Path) returns (outcome: Outcome)
      modifies `clock
      ensures outcome == Done ==> disk.At(path).Some?
      ensures outcome == Missing ==> disk.At(path).None?
      ensures clock == old(clock) + 1 && (outcome == Failed <==> !Works(old(clock)))
    {
      var works, _ := Call();
      outcome := if !works then Failed else if disk.At(path).Some? then Done else Missing;
    }

    method Remove(path: Path) returns (outcome: Outcome)
      modifies `clock, `disk
      ensures clock == old(clock) + 1 && (outcome == Failed <==> !Works(old(clock)))
      ensures outcome == Failed ==> disk == old(disk)
      ensures outcome == Done ==> old(disk).At(path).Some?
      ensures outcome == Missing ==> old(disk).At(path).None?
      ensures outcome != Failed ==> disk == old(disk).Put(path, D.None)
    {
      var works, _ := Call();
      outcome := if !works then Failed else if disk.At(path).Some? then Done else Missing;
      if works {
        disk := disk.Put(path, D.None);
      }
    }

    method Rename(from: Path, to: Path) returns (outcome: Outcome)
      requires from != to
      modifies `clock, `disk
      ensures outcome != Missing && clock == old(clock) + 1
      ensures outcome == Failed ==> disk == old(disk)
      ensures outcome == Done <==> Works(old(clock)) && old(disk).At(from).Some?
      ensures outcome == Done ==> disk == old(disk).Put(to, old(disk).At(from)).Put(from, D.None)
    {
      var works, _ := Call();
      outcome := Failed;
      if works && disk.At(from).Some? {
        disk := disk.Put(to, disk.At(from)).Put(from, D.None);
        outcome := Done;
      }
    }

    /** Creates the staged file, never over an existing one; a failed copy may leave part of it. */
    method CopyToStaged(source: string) returns (outcome: Outcome)
      modifies `clock, `disk
      ensures outcome != Missing && clock == old(clock) + 1
      ensures SameButStaged(old(disk), disk)
      ensures outcome == Done <==> Works(old(clock)) && old(disk).staged.None?
      ensures outcome == Done ==> disk.staged == D.Some(source)
    {
      var alive := Alive(clock);
      var works, fate := Call();
      outcome := Failed;
      if alive && disk.staged.None? {
        disk := disk.(staged := if works then D.Some(source) else fate.partial);
        outcome := if works then Done else Failed;
      }
    }

    /**
     A service that runs already is left alone. Another one starts from the file at the target, and cannot without
     it; a failed start may leave it in any state.
     */
    method StartService() returns (outcome: Outcome)
      modifies `clock, `service, `process
      ensures outcome != Missing && clock == old(clock) + 1
      ensures outcome == Done <==> Works(old(clock)) && (old(service).Running? || disk.target.Some?)
      ensures outcome == Done ==>
        service == Running && process == if old(service).Running? then old(process) else disk.target
      ensures outcome == Failed ==>
        && service == (if Alive(old(clock)) then world(old(clock)).service else old(service))
        && process == if !old(service).Running? && service.Running? then disk.target else old(process)
    {
      var alive := Alive(clock);
      var works, fate := Call();
      if works && service.Running? {
        return Done;
      }
      if works && disk.target.Some? {
        service, process := Running, disk.target;
        return Done;
      }
      if alive {
        process := if !service.Running? && fate.service.Running? then disk.target else process;
        service := fate.service;
      }
      return Failed;
    }

    method StopService() returns (outcome: Outcome)
      modifies `clock, `service, `process
      ensures outcome != Missing && clock == old(clock) + 1
      ensures outcome == Done <==> Works(old(clock))
      ensures outcome == Done ==> service == Stopped && process == old(process)
      ensures outcome == Failed ==>
        && service == (if Alive(old(clock)) then world(old(clock)).service else old(service))
        && process == if !old(service).Running? && service.Running? then disk.target else old(process)
    {
      var alive := Alive(clock);
      var works, fate := Call();
      if works {
        service := Stopped;
        return Done;
      }
      if alive {
        process := if !service.Running? && fate.service.Running? then disk.target else process;
        service := fate.service;
      }
      return Failed;
    }

    method Stage(source: File, sameAsTarget: bool) returns (ok: bool)
      modifies `clock, `disk
      ensures SameButStaged(old(disk), disk)
      ensures ok ==> source.Some? && !sameAsTarget && Ready(disk) && disk.staged == source && clock == old(clock) + 4
      ensures source.Some? && !sameAsTarget && Ready(old(disk)) && AllWork(old(clock), old(clock) + 4) ==> ok
    {
      if sameAsTarget || source.None? {
        return false;
      }
      var target := Stat(Target);
      if target != Done {
        return false;
      }
      var backup := Stat(Backup);
      if backup != Missing {
        return false;
      }
      var stale := Remove(Staged);
      if stale == Failed {
        return false;
      }
      var copied := CopyToStaged(source.value);
      if copied == Failed {
        var _ := Remove(Staged);
        return false;
      }
      return true;
    }

    /** One of the three calls fails, and if it is the last one the old file moves back. */
    ghost predicate SwapFailsClean(n: nat) {
      !Works(n) || !Works(n + 1) || (!Works(n + 2) && Works(n + 3))
    }

    ghost function FailedSwapCalls(n: nat): nat {
      if !Works(n) then 1 else if !Works(n + 1) then 2 else 4
    }

    /** The swap is done, or nothing changed, or the target moved to the backup and could not be moved back. */
    method Swap() returns (ok: bool)
      requires Ready(disk) && disk.staged.Some?
      modifies `clock, `disk
      ensures ok ==> disk == Disk(old(disk).staged, old(disk).target, D.None) && clock == old(clock) + 3
      ensures ok <==> AllWork(old(clock), old(clock) + 3)
      ensures SwapFailsClean(old(clock)) ==> disk == old(disk) && clock == old(clock) + FailedSwapCalls(old(clock))
      ensures !ok ==> disk == old(disk) || disk == Disk(D.None, old(disk).target, old(disk).staged)
    {
      var backup := Stat(Backup);
      if backup != Missing {
        return false;
      }
      var moved := Rename(Target, Backup);
      if moved == Failed {
        return false;
      }
      var committed := Rename(Staged, Target);
      if committed == Failed {
        var _ := Rename(Backup, Target);
        return false;
      }
      return true;
    }

    method Rollback() returns (ok: bool)
      requires disk.backup.Some?
      modifies `clock, `disk
      ensures ok ==> disk == old(disk).(target := old(disk).backup, backup := D.None) && clock == old(clock) + 2
      ensures ok <==> AllWork(old(clock), old(clock) + 2)
      ensures !ok ==> disk == old(disk) || disk == old(disk).(target := D.None)
    {
      var removed := Remove(Target);
      if removed == Failed {
        return false;
      }
      var restored := Rename(Backup, Target);
      return restored == Done;
    }

    /** What is left of the upgrade after a rollback, and which executable a service that runs again has. */
    ghost predicate RolledBackFrom(report: Report, start: Disk, after: Machine, stop: nat) {
      match report
      case RolledBack =>
        && after.disk == start.(target := start.backup, backup := D.None) && after.service.Running?
        && after.process == if Works(stop) || !world(stop).service.Running? then start.backup else start.target
      case RolledBackNotRestarted => after.disk == start.(target := start.backup, backup := D.None)
      case RollbackFailed => after.disk == start || after.disk == start.(target := D.None)
      case _ => false
    }

    /**
     The new service did not start: it is stopped, the old file moved back and started. Should the stop fail while
     the new executable runs, that one goes on running although the files are rolled back.
     */
    method ReturnToOld() returns (report: Report)
      requires disk.target.Some? && disk.backup.Some?
      requires service.Running? ==> process == disk.target
      modifies this
      ensures RolledBackFrom(report, old(disk), Now(), old(clock))
      ensures AllWork(old(clock) + 1, old(clock) + 4) ==> report == RolledBack
    {
      var _ := StopService();
      var restored := Rollback();
      var restarted := StartService();
      if !restored {
        return RollbackFailed;
      }
      return if restarted == Failed then RolledBackNotRestarted else RolledBack;
    }

    /** A running service is stopped; if that fails, the staged file is removed. */
    method Halt(wasRunning: bool) returns (ok: bool)
      requires if wasRunning then service.Running? else service.Stopped?
      modifies this
      ensures ok <==> !wasRunning || Works(old(clock))
      ensures ok ==> service.Stopped? && disk == old(disk) && process == old(process)
      ensures ok ==> clock == old(clock) + if wasRunning then 1 else 0
      ensures !ok ==> SameButStaged(old(disk), disk) && Runs(Now(), old(process)) && StagedRemoved()
    {
      if wasRunning {
        var stopped := StopService();
        if stopped == Failed {
          var _ := Remove(Staged);
          return false;
        }
      }
      return true;
    }

    /** The swap failed: an old service is started again if its file is back, and the staged file is removed. */
    method Abandon(wasRunning: bool) returns (report: Report)
      requires service.Stopped?
      modifies this
      ensures SameButStaged(old(disk), disk)
      ensures report == if disk.target.None? then SwapBroken
                        else if wasRunning && !Works(old(clock)) then SwapUndoneNotRestarted else SwapUndone
      ensures report == SwapUndone ==>
        if wasRunning then service.Running? && process == disk.target else service.Stopped? && process == old(process)
      ensures !wasRunning ==> service == old(service) && process == old(process)
      ensures StagedRemoved()
    {
      report := if disk.target.Some? then SwapUndone else SwapBroken;
      if wasRunning {
        var restarted := StartService();
        if restarted == Failed && report.SwapUndone? {
          report := SwapUndoneNotRestarted;
        }
      }
      var _ := Remove(Staged);
    }

    /** The new file is in place: an old service is started from it, or rolled back, and the backup removed. */
    method Commit(wasRunning: bool) returns (report: Report)
      requires service.Stopped? && disk.target.Some? && disk.backup.Some?
      modifies this
      ensures !wasRunning || Works(old(clock)) ==>
        && report == (if Works(old(clock) + (if wasRunning then 1 else 0)) then Upgraded else BackupKept)
        && disk == (if report == Upgraded then old(disk).(backup := D.None) else old(disk))
        && (if wasRunning then service.Running? && process == disk.target
            else service.Stopped? && process == old(process))
      ensures wasRunning && !Works(old(clock)) ==>
        && RolledBackFrom(report, old(disk), Now(), old(clock) + 1)
        && (AllWork(old(clock) + 2, old(clock) + 5) ==> report == RolledBack)
    {
      if wasRunning {
        var started := StartService();
        if started == Failed {
          report := ReturnToOld();
          return;
        }
      }
      var removed := Remove(Backup);
      return if removed == Failed then BackupKept else Upgraded;
    }

    /** With the candidate staged and the service stopped: swap, then commit or abandon. */
    method Install(wasRunning: bool, ghost before: Machine) returns (report: Report)
      requires service.Stopped? && Ready(disk) && disk.staged.Some? && SameButStaged(before.disk, disk)
      requires before.service == (if wasRunning then Running else Stopped) && before.process == process
      modifies this
      ensures report != Refused && report != StopFailed
      ensures LeavesStaged(report) ==> StagedRemoved()
      ensures Means(report, before, old(disk).staged.value, Now())
      ensures var n := old(clock);
        && (!wasRunning && AllWork(n, n + 4) ==> report == Upgraded)
        && (wasRunning && AllWork(n, n + 5) ==> report == Upgraded)
        && (wasRunning && SwapFailsClean(n) && Works(n + FailedSwapCalls(n)) ==> report == SwapUndone)
        && (wasRunning && AllWork(n, n + 3) && !Works(n + 3) && AllWork(n + 5, n + 8) ==> report == RolledBack)
        && (report == RolledBack ==>
              process == if Works(n + 4) || !world(n + 4).service.Running? then old(disk).target else old(disk).staged)
    {
      var swapped := Swap();
      if swapped {
        report := Commit(wasRunning);
      } else {
        report := Abandon(wasRunning);
      }
    }

    /**
     The command. Besides what each ending means: when every call works it ends in `Upgraded`, when the swap fails
     but the old file and the old service come back it ends in `SwapUndone`, and when the new service does not start
     but the rollback's calls work it ends in `RolledBack`.
     `preflight`: the service is installed, the candidate reports a version, config and source access are good.
     */
    method ServiceUpgrade(source: File, sameAsTarget: bool, preflight: bool) returns (report: Report)
      modifies this
      ensures Means(report, old(Now()), source.GetOr(""), Now())
      ensures report != Refused ==> source.Some? && !sameAsTarget && preflight && !old(service).Pending?
      ensures LeavesStaged(report) ==> StagedRemoved()
      ensures source.Some? && !sameAsTarget && preflight && Ready(old(disk)) ==>
                var n := old(clock);
                && (old(service).Stopped? && AllWork(n, n + 8) ==> report == Upgraded)
                && (old(service).Running? && AllWork(n, n + 10) ==> report == Upgraded)
                && (old(service).Running? && AllWork(n, n + 5) && SwapFailsClean(n + 5)
                    && Works(n + 5 + FailedSwapCalls(n + 5)) ==>
                      report == SwapUndone)
                && (old(service).Running? && AllWork(n, n + 8) && !Works(n + 8) && AllWork(n + 10, n + 13)
                    ==> report == RolledBack)
      ensures report == RolledBack ==>
                var stop := old(clock) + 9;
                var stopped := Works(stop) || !world(stop).service.Running?;
                process == if stopped then old(disk).target else D.Some(source.GetOr(""))
    {
      if !preflight || service.Pending? {
        return Refused;
      }
      ghost var before := Now();
      var staged := Stage(source, sameAsTarget);
      if !staged {
        return Refused;
      }
      var wasRunning := service.Running?;
      var stopped := Halt(wasRunning);
      if !stopped {
        return StopFailed;
      }
      report := Install(wasRunning, before);
    }
  }

  // ---------- Over repeated attempts ----------

  /** One run of the command: what it found, what it installed, how it ended, what it left. */
  datatype Attempt = Attempt(before: Machine, candidate: string, report: Report, after: Machine)

  /** Each attempt finds the files the one before left; the service may have changed meanwhile. */
  ghost predicate Follows(attempts: seq<Attempt>, start: Disk) {
    attempts != [] ==>
      var earlier, last := attempts[..|attempts| - 1], attempts[|attempts| - 1];
      && Follows(earlier, start)
      && last.before.disk == DiskAfter(earlier, start)
      && Means(last.report, last.before, last.candidate, last.after)
  }

  function DiskAfter(attempts: seq<Attempt>, start: Disk): Disk {
    if attempts == [] then start else attempts[|attempts| - 1].after.disk
  }

  /** The last executable put in service: the installed one at first, then each committed candidate. */
  function LastGood(attempts: seq<Attempt>, installed: string): string {
    if attempts == [] then installed
    else
      var last := attempts[|attempts| - 1];
      if last.report.Upgraded? || last.report.BackupKept? then last.candidate
      else LastGood(attempts[..|attempts| - 1], installed)
  }

  /** No sequence of attempts, failures and crashes loses the last good executable. */
  lemma {:induction false} NeverLosesTheGoodBinary(attempts: seq<Attempt>, start: Disk, installed: string)
    requires Follows(attempts, start)
    requires start.target == D.Some(installed) && start.backup == D.None
    ensures var d, good := DiskAfter(attempts, start), D.Some(LastGood(attempts, installed));
      d.target == good || d.backup == good
    ensures var d, good := DiskAfter(attempts, start), D.Some(LastGood(attempts, installed));
      d.backup.None? ==> d.target == good
  {
    if attempts != [] {
      NeverLosesTheGoodBinary(attempts[..|attempts| - 1], start, installed);
    }
  }

  /** A backup left by an earlier attempt stops every later one: it is not touched, nor is the target beside it. */
  lemma {:induction false} LeftoverBackupStays(attempts: seq<Attempt>, start: Disk)
    requires Follows(attempts, start) && start.backup.Some?
    ensures SameButStaged(start, DiskAfter(attempts, start))
    ensures forall a :: a in attempts ==> a.report == Refused
  {
    if attempts != [] {
      var n := |attempts| - 1;
      LeftoverBackupStays(attempts[..n], start);
      assert attempts == attempts[..n] + [attempts[n]];
    }
  }
}
