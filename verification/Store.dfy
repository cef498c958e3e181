/** The session file on disk (backends/harmony_g2/session.py, `SessionStore`). */
module Store {
  import opened Wrappers
  import opened Session
  import JsonText
  import opened Transport

  /** The file system and the interpreter during a whole run: whether the file can be read, how many levels of nesting
      can be followed, and how each save fares. */
  datatype FileSystem = FileSystem(readable: bool, limit: Depth, plans: nat -> SavePlan)

  /** The number of saves so far, the disk, and every disk state that saves passed through: what a crash could have
      left behind. */
  datatype StoreState = StoreState(saves: nat, disk: Disk, visited: seq<Disk>)

  /** What `load` returns or raises. */
  function Stored(fs: FileSystem, disk: Disk): Result<LocalSession, Error> {
    if !fs.readable then Failure(Validation)
    else if LoadCrashes(disk, fs.limit) then Failure(Uncaught)
    else
      match LoadFrom(disk, fs.limit)
      case None => Failure(Validation)
      case Some(s) => Success(s)
  }

  /** `load`, recorded in the history. */
  function Load(fs: FileSystem, store: StoreState, trace: seq<Event>): (seq<Event>, Result<LocalSession, Error>) {
    var found := Stored(fs, store.disk);
    (if found.Success? then trace + [Loaded(found.value)] else trace, found)
  }

  /** `save`, recorded in the history as soon as the new file is in place. */
  function Save(fs: FileSystem, store: StoreState, trace: seq<Event>, s: LocalSession): (StoreState, seq<Event>, bool) {
    var run := RunSave(store.disk, Encode(s), fs.plans(store.saves));
    (StoreState(store.saves + 1, Final(run.disks), store.visited + run.disks),
     if run.committed then trace + [Committed(s)] else trace, run.ok)
  }

  class SessionStore {
    const fs: FileSystem
    const journal: Journal
    var saves: nat
    var disk: Disk
    ghost var visited: seq<Disk>

    constructor (fs: FileSystem, journal: Journal, disk: Disk)
      ensures this.fs == fs && this.journal == journal
      ensures State() == StoreState(0, disk, [])
    {
      this.fs := fs;
      this.journal := journal;
      this.disk := disk;
      this.saves := 0;
      this.visited := [];
    }

    ghost function State(): StoreState
      reads this
    {
      StoreState(saves, disk, visited)
    }

    method LoadSession() returns (s: Result<LocalSession, Error>)
      modifies journal
      ensures (journal.events, s) == Load(fs, State(), old(journal.events))
    {
      if !fs.readable || disk.file.None? {
        return Failure(Validation);
      }
      if TooLarge(disk.file) {
        return Failure(Validation);
      }
      if JsonText.Load(disk.file.value, fs.limit).Crashed? {
        return Failure(Uncaught);
      }
      var found := Decode(disk.file.value, fs.limit);
      if found.None? {
        return Failure(Validation);
      }
      journal.events := journal.events + [Loaded(found.value)];
      return Success(found.value);
    }

    method SaveSession(s: LocalSession) returns (ok: bool)
      modifies this, journal
      ensures (State(), journal.events, ok) == Save(fs, old(State()), old(journal.events), s)
    {
      hide Encode;
      var plan, text := fs.plans(saves), Encode(s);
      ghost var passed := [disk];
      saves := saves + 1;
      if !plan.parentValid || !plan.fileValid || TooLarge(disk.file) || !plan.tempCreated {
        visited := visited + passed;
        return false;
      }
      ok := false;
      var before := disk;
      var committed := false;
      disk := disk.(temps := before.temps + [""]);
      passed := passed + [disk];
      if plan.modeSet {
        disk := disk.(temps := before.temps + [WrittenText(text, plan)]);
        passed := passed + [disk];
        if plan.wrote && plan.stillValid && !TooLarge(disk.file) && plan.replaced {
          disk := before.(file := Some(text));
          passed := passed + [disk];
          committed := true;
          journal.events := journal.events + [Committed(s)];
          ok := plan.directorySynced;
        }
      }
      if !committed && plan.tempRemoved {
        disk := before;
        passed := passed + [disk];
      }
      visited := visited + passed;
      assert passed == RunSave(before, text, plan).disks;
    }
  }
}
