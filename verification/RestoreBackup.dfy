/**
 * Restoring a backup over the active database
 * (src/ah_there_it_is/storage.py:1043-1199, 2060-2119, 2170-2182).  A database
 * is a main file and possibly a write-ahead log; what it says is decided by
 * both.  Every primitive may raise or be interrupted instead of happening, and
 * the disk remembers every state, so a kill at any point is covered.
 */
module RestoreBackup {
  import opened Faults
  import opened Prelude

  datatype Db = Target | Source | Safety | SafetyTemp | Replacement | Rollback

  datatype Part = Main | Wal | Shm

  datatype Path = Path(db: Db, part: Part)

  /**
   * A main file belongs to one database history (`lineage`).  A log with frames overrides the main
   * file of its own history; its frames apply to any other main file of that name too, which then
   * reads as some other text or not at all.
   */
  datatype Content =
    | Image(lineage: nat, text: string)
    | Frames(lineage: nat, text: string, elsewhere: map<string, string>)
    | Truncated

  type Files = map<Path, Content>

  function LogOf(files: Files, db: Db): Option<Content> {
    if Path(db, Wal) in files then Some(files[Path(db, Wal)]) else None
  }

  /** What a main file says with this log beside it. */
  function Reading(image: Content, log: Option<Content>): Option<string>
    requires image.Image?
  {
    match log
    case None => Some(image.text)
    case Some(Truncated) => Some(image.text)
    case Some(Image(_, _)) => None
    case Some(Frames(lineage, text, elsewhere)) =>
      if lineage == image.lineage then Some(text)
      else if image.text in elsewhere then Some(elsewhere[image.text]) else None
  }

  /** What a reader of the database sees. */
  function Logical(files: Files, db: Db): Option<string> {
    if Path(db, Main) !in files || !files[Path(db, Main)].Image? then None
    else Reading(files[Path(db, Main)], LogOf(files, db))
  }

  /** Nothing outside this database changes. */
  ghost predicate OnlyDb(db: Db, before: Files, after: Files) {
    forall path: Path :: path.db != db ==>
      (path in before <==> path in after) && (path in before ==> before[path] == after[path])
  }

  lemma OtherDbSame(db: Db, before: Files, after: Files, other: Db)
    requires OnlyDb(db, before, after) && other != db
    ensures Logical(after, other) == Logical(before, other) && LogOf(after, other) == LogOf(before, other)
  {
    assert Path(other, Main).db != db && Path(other, Wal).db != db;
  }

  /** No log with frames stands beside the main file. */
  predicate NoFrames(files: Files, db: Db) {
    Path(db, Wal) in files ==> files[Path(db, Wal)].Truncated?
  }

  predicate Scratch(db: Db) {
    db.SafetyTemp? || db.Replacement? || db.Rollback?
  }

  /** A log left over from other runs belongs to an older history than any copy made in this one. */
  predicate Old(log: Option<Content>) {
    log.None? || (log.value.Frames? ==> log.value.lineage == 0)
  }

  /** What a fresh copy of `text` says when it is published beside this log. */
  function Published(text: string, log: Option<Content>): Option<string> {
    Reading(Image(1, text), log)
  }

  lemma FreshCopyReads(lineage: nat, text: string, log: Option<Content>)
    requires lineage > 0 && Old(log)
    ensures Reading(Image(lineage, text), log) == Published(text, log)
  {
  }

  // ----- the steps of a run

  datatype Step = Removed(path: Path) | Copied(from: Db, to: Db) | Validated(db: Db) | Linked | Checkpointed | Replaced(from: Db) | Synced

  ghost function RemovedAll(db: Db): seq<Step> {
    [Removed(Path(db, Main)), Removed(Path(db, Wal)), Removed(Path(db, Shm))]
  }

  ghost function Snapshotted(from: Db, to: Db): seq<Step> {
    RemovedAll(to) + [Copied(from, to)]
  }

  ghost function SidecarsRemoved(): seq<Step> {
    [Removed(Path(Target, Wal)), Removed(Path(Target, Shm))]
  }

  ghost function SafetyStaged(): seq<Step> {
    Snapshotted(Target, SafetyTemp) + [Validated(SafetyTemp)]
  }

  ghost function SafetyPublished(): seq<Step> {
    SafetyStaged() + [Linked, Removed(Path(SafetyTemp, Main)), Synced, Synced]
  }

  ghost function SafetyCreated(): seq<Step> {
    SafetyPublished() + RemovedAll(SafetyTemp) + [Validated(Safety)]
  }

  ghost function Prepared(): seq<Step> {
    Snapshotted(Source, Replacement) + [Validated(Replacement), Checkpointed] + SidecarsRemoved()
  }

  ghost function Settled(): seq<Step> {
    [Synced, Synced, Validated(Target)]
  }

  ghost function Exchanged(): seq<Step> {
    Prepared() + ([Replaced(Replacement)] + Settled())
  }

  ghost function SafeBegun(): seq<Step> {
    [Validated(Source)] + SafetyCreated()
  }

  ghost function Restored(): seq<Step> {
    SafeBegun() + Exchanged() + RemovedAll(Replacement)
  }

  ghost function StagedBack(): seq<Step> {
    Snapshotted(Safety, Rollback) + [Validated(Rollback)]
  }

  ghost function ExchangedBack(): seq<Step> {
    SidecarsRemoved() + [Replaced(Rollback)] + Settled()
  }

  ghost function RolledBackBy(): seq<Step> {
    StagedBack() + ExchangedBack() + RemovedAll(Rollback)
  }

  /** The run ended with these steps. */
  ghost predicate EndedWith(log: seq<Step>, steps: seq<Step>) {
    |steps| <= |log| && log[|log| - |steps|..] == steps
  }

  lemma AppendedEnds(before: seq<Step>, steps: seq<Step>)
    ensures EndedWith(before + steps, steps)
  {
  }

  /** No file of this database. */
  predicate Gone(files: Files, db: Db) {
    forall part: Part :: Path(db, part) !in files
  }

  /** The scratch copy of the safety backup does not come back. */
  predicate StaysGone(before: Files, after: Files) {
    Gone(before, SafetyTemp) ==> Gone(after, SafetyTemp)
  }

  lemma OthersStayGone(db: Db, before: Files, after: Files)
    requires OnlyDb(db, before, after) && db != SafetyTemp
    ensures StaysGone(before, after)
  {
    assert forall part: Part :: Path(SafetyTemp, part).db != db;
  }

  class Disk {
    var files: Files
    var tick: nat
    const fates: Fates
    const leftovers: nat -> string  // what a half-done copy or checkpoint leaves in a main file
    const sound: string -> bool     // what `validate_database` accepts
    const original: string
    const candidate: string
    ghost const safetyLog: Option<Content> // what stands at the log path of the safety backup from the start
    ghost const backup: Option<string>     // what the safety backup says once it is published beside that log
    ghost var saved: bool           // the safety backup has been published
    ghost var savedAt: nat
    ghost var history: seq<Files>
    ghost var log: seq<Step>        // the primitives so far, as they were asked for

    ghost predicate TargetKept(files: Files) {
      || Logical(files, Target) == Some(original) || (Logical(files, Target) == Some(candidate) && sound(candidate))
      || (backup.Some? && Logical(files, Target) == backup)
    }

    /**
     * In every state so far the target says the original, the validated candidate, or what the safety
     * backup says, and once the safety backup stood it has said `backup`.
     */
    ghost predicate Valid()
      reads this
    {
      && history != [] && history[|history| - 1] == files
      && (forall k :: 0 <= k < |history| ==> TargetKept(history[k]))
      && (saved ==> savedAt < |history| && backup.Some? && sound(backup.value))
      && (saved ==> forall k :: savedAt <= k < |history| ==> Logical(history[k], Safety) == backup)
      && Logical(files, Source) == Some(candidate)
      && LogOf(files, Safety) == safetyLog && Old(safetyLog) && backup == Published(original, safetyLog)
    }

    /** How the steps since `from` went; beside faults only what stood in the way makes one raise. */
    ghost predicate Went(from: nat, fate: Fate, blocked: bool)
      reads this
    {
      Accounted(fates, from, tick, fate, blocked)
    }

    /** `validate_database` accepts what this database says. */
    predicate SoundIn(files: Files, db: Db) {
      Logical(files, db).Some? && sound(Logical(files, db).value)
    }

    /** Nothing but a fault stands in the way of the safety backup. */
    ghost predicate SafetyClear(files: Files) {
      sound(original) && Path(Safety, Main) !in files && backup.Some? && sound(backup.value)
    }

    constructor (files: Files, original: string, candidate: string, fates: Fates, leftovers: nat -> string, sound: string -> bool)
      requires Logical(files, Target) == Some(original) && Logical(files, Source) == Some(candidate) && Old(LogOf(files, Safety))
      ensures Valid() && this.files == files && !saved && history == [files]
      ensures this.original == original && this.candidate == candidate && safetyLog == LogOf(files, Safety)
      ensures this.fates == fates && this.leftovers == leftovers && this.sound == sound
    {
      safetyLog, backup := LogOf(files, Safety), Published(original, LogOf(files, Safety));
      this.files, this.original, this.candidate := files, original, candidate;
      this.fates, this.leftovers, this.sound := fates, leftovers, sound;
      tick, saved, savedAt, history, log := 0, false, 0, [files], [];
    }

    method Become(next: Files)
      requires Valid() && TargetKept(next) && Logical(next, Source) == Some(candidate) && LogOf(next, Safety) == safetyLog
      requires saved ==> Logical(next, Safety) == backup
      modifies `files, `history
      ensures Valid() && files == next && old(history) <= history
    {
      files := next;
      history := history + [next];
    }

    method Turn(ghost step: Step) returns (fate: Fate)
      modifies `tick, `log
      ensures log == old(log) + [step]
      ensures tick == old(tick) + 1 && fate == FateAt(fates, old(tick)) && Went(old(tick), fate, false)
    {
      log := log + [step];
      fate := FateAt(fates, tick);
      assert !fate.Works? <==> FaultAt(fates, tick);
      tick := tick + 1;
    }

    /** `_fsync_path`, `_fsync_directory`: no file changes. */
    method Check() returns (fate: Fate)
      requires Valid()
      modifies `tick, `log
      ensures Valid() && Went(old(tick), fate, false) && log == old(log) + [Synced]
    {
      fate := Turn(Synced);
    }

    /** `validate_database`: read-only. */
    method Validate(db: Db) returns (fate: Fate)
      requires Valid()
      modifies `tick, `log
      ensures Valid() && Went(old(tick), fate, !SoundIn(files, db)) && log == old(log) + [Validated(db)]
      ensures fate.Works? ==> SoundIn(files, db)
    {
      fate := Turn(Validated(db));
      if fate.Works? && !SoundIn(files, db) {
        fate := Raises;
      }
    }

    /** `unlink(missing_ok=True)` on a scratch database. */
    method Unlink(path: Path) returns (fate: Fate)
      requires Valid() && Scratch(path.db)
      modifies `files, `history, `tick, `log
      ensures Valid() && old(history) <= history && OnlyDb(path.db, old(files), files) && Went(old(tick), fate, false)
      ensures log == old(log) + [Removed(path)] && files == if fate.Works? then old(files) - {path} else old(files)
    {
      fate := Turn(Removed(path));
      if fate.Works? {
        var next := files - {path};
        OtherDbSame(path.db, files, next, Target);
        OtherDbSame(path.db, files, next, Source);
        OtherDbSame(path.db, files, next, Safety);
        Become(next);
      }
    }

    /** `_unlink_sqlite_files`. */
    method UnlinkAll(db: Db) returns (fate: Fate)
      requires Valid() && Scratch(db)
      modifies `files, `history, `tick, `log
      ensures Valid() && old(history) <= history && OnlyDb(db, old(files), files) && Went(old(tick), fate, false)
      ensures fate.Works? ==> Gone(files, db) && log == old(log) + RemovedAll(db)
    {
      fate := Unlink(Path(db, Main));
      if !fate.Works? { return; }
      fate := Unlink(Path(db, Wal));
      if !fate.Works? { return; }
      fate := Unlink(Path(db, Shm));
      forall part: Part | fate.Works? ensures Path(db, part) !in files {
        match part case Main => case Wal => case Shm =>
      }
    }

    method BecomeIn(db: Db, next: Files)
      requires Valid() && Scratch(db) && OnlyDb(db, files, next)
      modifies `files, `history
      ensures Valid() && files == next && old(history) <= history
    {
      OtherDbSame(db, files, next, Target);
      OtherDbSame(db, files, next, Source);
      OtherDbSame(db, files, next, Safety);
      Become(next);
    }

    /** Writing the copy: half done, the main file may hold anything. */
    method WriteCopy(from: Db, to: Db) returns (fate: Fate)
      requires Valid() && Scratch(to) && from != to
      modifies `files, `history, `tick, `log
      ensures Valid() && old(history) <= history && OnlyDb(to, old(files), files)
      ensures fate.Works? ==>
        && Logical(old(files), from).Some? && NoFrames(files, to)
        && Path(to, Main) in files && files[Path(to, Main)].Image? && files[Path(to, Main)].lineage > 0
        && Logical(files, to) == Logical(old(files), from)
      ensures Went(old(tick), fate, Logical(old(files), from).None?) && log == old(log) + [Copied(from, to)]
    {
      fate := Turn(Copied(from, to));
      match Logical(files, from)
      case None =>
        fate := if fate.Works? then Raises else fate;
      case Some(text) =>
        var bare := files - {Path(to, Wal), Path(to, Shm)};
        BecomeIn(to, bare[Path(to, Main) := Image(tick, if fate.Works? then text else leftovers(tick))]);
    }

    /** `_copy_sqlite_snapshot`: the destination gets one main file of its own history and no log. */
    method Snapshot(from: Db, to: Db) returns (fate: Fate)
      requires Valid() && Scratch(to) && from != to
      modifies `files, `history, `tick, `log
      ensures Valid() && old(history) <= history && OnlyDb(to, old(files), files)
      ensures fate.Works? ==>
        && Logical(old(files), from).Some? && NoFrames(files, to)
        && Path(to, Main) in files && files[Path(to, Main)].Image? && files[Path(to, Main)].lineage > 0
        && Logical(files, to) == Logical(old(files), from)
      ensures Went(old(tick), fate, Logical(old(files), from).None?) && (fate.Works? ==> log == old(log) + Snapshotted(from, to))
    {
      fate := UnlinkAll(to);
      if !fate.Works? { return; }
      OtherDbSame(to, old(files), files, from);
      fate := WriteCopy(from, to);
    }

    /** `_checkpoint_for_restore`: the frames move into the main file; the pages moved half-way are ones they still override. */
    method Checkpoint() returns (fate: Fate)
      requires Valid() && Logical(files, Target).Some?
      modifies `files, `history, `tick, `log
      ensures Valid() && old(history) <= history && OnlyDb(Target, old(files), files)
      ensures Logical(files, Target) == Logical(old(files), Target) && Went(old(tick), fate, false)
      ensures fate.Works? ==> NoFrames(files, Target)
      ensures log == old(log) + [Checkpointed]
    {
      fate := Turn(Checkpointed);
      var main, wal := Path(Target, Main), Path(Target, Wal);
      if wal in files && files[wal].Frames? {
        var partial := files[main := Image(files[main].lineage, leftovers(tick))];
        var next := if fate.Works?
          then files[main := Image(files[main].lineage, Logical(files, Target).value)][wal := Truncated]
          else if Logical(partial, Target) == Logical(files, Target) then partial else files;
        OtherDbSame(Target, files, next, Source);
        OtherDbSame(Target, files, next, Safety);
        Become(next);
      }
    }

    /** `_unlink_sidecars` of the target, safe only when no frames are left. */
    method UnlinkTargetSidecars() returns (fate: Fate)
      requires Valid() && NoFrames(files, Target)
      modifies `files, `history, `tick, `log
      ensures Valid() && old(history) <= history && OnlyDb(Target, old(files), files)
      ensures Logical(files, Target) == Logical(old(files), Target) && NoFrames(files, Target) && Went(old(tick), fate, false)
      ensures fate.Works? ==> Path(Target, Wal) !in files && Path(Target, Shm) !in files && log == old(log) + SidecarsRemoved()
    {
      fate := UnlinkTargetSidecar(Wal);
      if !fate.Works? { return; }
      fate := UnlinkTargetSidecar(Shm);
    }

    method UnlinkTargetSidecar(part: Part) returns (fate: Fate)
      requires Valid() && NoFrames(files, Target) && !part.Main?
      modifies `files, `history, `tick, `log
      ensures Valid() && old(history) <= history && OnlyDb(Target, old(files), files)
      ensures Logical(files, Target) == Logical(old(files), Target) && NoFrames(files, Target) && Went(old(tick), fate, false)
      ensures log == old(log) + [Removed(Path(Target, part))]
      ensures files == if fate.Works? then old(files) - {Path(Target, part)} else old(files)
    {
      fate := Turn(Removed(Path(Target, part)));
      if fate.Works? {
        var next := files - {Path(Target, part)};
        OtherDbSame(Target, files, next, Source);
        OtherDbSame(Target, files, next, Safety);
        Become(next);
      }
    }

    /** `os.replace` of the target's main file by a finished copy. */
    method ReplaceTarget(from: Db) returns (fate: Fate)
      requires Valid() && Scratch(from) && NoFrames(files, Target) && NoFrames(files, from)
      requires || (Logical(files, from) == Some(candidate) && sound(candidate))
               || (backup.Some? && Logical(files, from) == backup)
      modifies `files, `history, `tick, `log
      ensures Valid() && old(history) <= history && NoFrames(files, Target)
      ensures Logical(files, Target) == if fate.Works? then Logical(old(files), from) else Logical(old(files), Target)
      ensures Logical(files, Safety) == Logical(old(files), Safety) && Went(old(tick), fate, false)
      ensures log == old(log) + [Replaced(from)] && (from != SafetyTemp ==> StaysGone(old(files), files))
    {
      fate := Turn(Replaced(from));
      if fate.Works? {
        var next := (files - {Path(from, Main)})[Path(Target, Main) := files[Path(from, Main)]];
        SafetyAndSourceSame(files, next, from);
        Become(next);
      }
    }

    /** Publishing the safety backup with `os.link`: fails when the path exists; a log left there is not looked at. */
    method LinkSafety() returns (fate: Fate)
      requires Valid() && !saved && Logical(files, SafetyTemp) == Some(original) && NoFrames(files, SafetyTemp)
      requires files[Path(SafetyTemp, Main)].lineage > 0
      modifies `files, `history, `tick, `log
      ensures Valid() && old(history) <= history
      ensures fate.Works? ==> Logical(files, Safety) == backup
      ensures Logical(files, Target) == Logical(old(files), Target)
      ensures Went(old(tick), fate, Path(Safety, Main) in old(files)) && log == old(log) + [Linked]
    {
      fate := Turn(Linked);
      if fate.Works? {
        if Path(Safety, Main) in files {
          return Raises;
        }
        var copy := files[Path(SafetyTemp, Main)];
        var next := files[Path(Safety, Main) := copy];
        OtherDbSame(Safety, files, next, Target);
        OtherDbSame(Safety, files, next, Source);
        FreshCopyReads(copy.lineage, original, safetyLog);
        Become(next);
      }
    }

    /** From here on the safety backup is part of what is promised. */
    ghost method RememberSafety()
      requires Valid() && backup.Some? && Logical(files, Safety) == backup && sound(backup.value)
      modifies `saved, `savedAt
      ensures Valid() && saved
    {
      saved, savedAt := true, |history| - 1;
    }
  }

  lemma SafetyAndSourceSame(before: Files, after: Files, from: Db)
    requires Scratch(from) && forall path: Path :: path.db != from && path.db != Target ==>
      (path in before <==> path in after) && (path in before ==> before[path] == after[path])
    ensures Logical(after, Safety) == Logical(before, Safety) && Logical(after, Source) == Logical(before, Source)
    ensures LogOf(after, Safety) == LogOf(before, Safety)
  {
    assert Path(Safety, Main).db == Safety && Path(Safety, Wal).db == Safety;
    assert Path(Source, Main).db == Source && Path(Source, Wal).db == Source;
  }

  /** The file and its directory are synced; no file changes. */
  method Sync(disk: Disk) returns (fate: Fate)
    requires disk.Valid()
    modifies disk`tick, disk`log
    ensures disk.Valid() && disk.Went(old(disk.tick), fate, false)
    ensures fate.Works? ==> disk.log == old(disk.log) + [Synced, Synced]
  {
    fate := disk.Check();
    if !fate.Works? { return; }
    fate := disk.Check();
  }

  /** A validated copy of the target. */
  method StageSafety(disk: Disk) returns (fate: Fate)
    requires disk.Valid() && !disk.saved && Logical(disk.files, Target) == Some(disk.original)
    modifies disk`files, disk`history, disk`tick, disk`log
    ensures disk.Valid() && old(disk.history) <= disk.history
    ensures Logical(disk.files, Target) == Some(disk.original) && (Path(Safety, Main) in disk.files <==> Path(Safety, Main) in old(disk.files))
    ensures fate.Works? ==>
      && Logical(disk.files, SafetyTemp) == Some(disk.original) && NoFrames(disk.files, SafetyTemp)
      && disk.files[Path(SafetyTemp, Main)].lineage > 0
    ensures disk.Went(old(disk.tick), fate, !disk.sound(disk.original))
    ensures fate.Works? ==> disk.log == old(disk.log) + SafetyStaged()
  {
    fate := disk.Snapshot(Target, SafetyTemp);
    OtherDbSame(SafetyTemp, old(disk.files), disk.files, Target);
    assert Path(Safety, Main).db == Safety;
    if !fate.Works? { return; }
    fate := disk.Validate(SafetyTemp);
  }

  /** The `try` body of `create_backup` for the safety copy. */
  method PublishSafety(disk: Disk) returns (fate: Fate)
    requires disk.Valid() && !disk.saved && Logical(disk.files, Target) == Some(disk.original)
    modifies disk`files, disk`history, disk`tick, disk`log
    ensures disk.Valid() && old(disk.history) <= disk.history
    ensures Logical(disk.files, Target) == Some(disk.original)
    ensures fate.Works? ==> Logical(disk.files, Safety) == disk.backup
    ensures disk.Went(old(disk.tick), fate, !disk.sound(disk.original) || Path(Safety, Main) in old(disk.files))
    ensures fate.Works? ==> disk.log == old(disk.log) + SafetyPublished()
  {
    fate := StageSafety(disk);
    if !fate.Works? { return; }
    fate := disk.LinkSafety();
    if !fate.Works? { return; }
    ghost var linked := disk.files;
    fate := disk.Unlink(Path(SafetyTemp, Main));
    OtherDbSame(SafetyTemp, linked, disk.files, Target);
    OtherDbSame(SafetyTemp, linked, disk.files, Safety);
    if !fate.Works? { return; }
    fate := Sync(disk);
  }

  /** Cleaning up a scratch database in a `finally`: a failure here replaces the outcome so far. */
  method Finally(disk: Disk, db: Db, soFar: Fate, ghost from: nat, ghost blocked: bool) returns (fate: Fate)
    requires disk.Valid() && Scratch(db) && disk.Went(from, soFar, blocked)
    modifies disk`files, disk`history, disk`tick, disk`log
    ensures disk.Valid() && old(disk.history) <= disk.history && OnlyDb(db, old(disk.files), disk.files)
    ensures fate.Works? ==> soFar.Works?
    ensures disk.Went(from, fate, blocked) && old(disk.tick) <= disk.tick
    ensures soFar.Works? ==> disk.Went(from, fate, false)
    ensures fate.Works? ==> Gone(disk.files, db) && disk.log == old(disk.log) + RemovedAll(db)
  {
    var cleaned := disk.UnlinkAll(db);
    fate := if soFar.Interrupts? || cleaned.Interrupts? then Interrupts
            else if soFar.Raises? || cleaned.Raises? then Raises else Works;
  }

  /**
   * `create_backup` of the active database, and the validation that follows it.  Unless a primitive
   * fails it succeeds for a sound original, a free path and every sound reading of the published copy,
   * whatever that reading is.
   */
  method CreateSafety(disk: Disk) returns (fate: Fate)
    requires disk.Valid() && !disk.saved && Logical(disk.files, Target) == Some(disk.original)
    modifies disk
    ensures disk.Valid() && old(disk.history) <= disk.history
    ensures Logical(disk.files, Target) == Some(disk.original)
    ensures fate.Works? ==> disk.saved && Logical(disk.files, Safety) == disk.backup
    ensures disk.Went(old(disk.tick), fate, !disk.SafetyClear(old(disk.files)))
    ensures fate.Works? ==> disk.log == old(disk.log) + SafetyCreated() && Gone(disk.files, SafetyTemp)
  {
    ghost var began, blocked := disk.tick, !disk.SafetyClear(disk.files);
    fate := PublishSafety(disk);
    ghost var published := disk.files;
    fate := Finally(disk, SafetyTemp, fate, began, blocked);
    OtherDbSame(SafetyTemp, published, disk.files, Target);
    OtherDbSame(SafetyTemp, published, disk.files, Safety);
    if !fate.Works? { return; }
    fate := disk.Validate(Safety);
    if !fate.Works? { return; }
    disk.RememberSafety();
  }

  /** The published file is synced and validated. */
  method Settle(disk: Disk) returns (fate: Fate)
    requires disk.Valid()
    modifies disk`tick, disk`log
    ensures disk.Valid() && disk.Went(old(disk.tick), fate, !disk.SoundIn(disk.files, Target))
    ensures fate.Works? ==> disk.log == old(disk.log) + Settled() && disk.SoundIn(disk.files, Target)
  {
    fate := Sync(disk);
    if !fate.Works? { return; }
    fate := disk.Validate(Target);
  }

  /** A validated copy of the safety backup. */
  method StageBack(disk: Disk) returns (fate: Fate)
    requires disk.Valid() && disk.saved && NoFrames(disk.files, Target)
    modifies disk`files, disk`history, disk`tick, disk`log
    ensures disk.Valid() && old(disk.history) <= disk.history && NoFrames(disk.files, Target)
    ensures fate.Works? ==> NoFrames(disk.files, Rollback) && Logical(disk.files, Rollback) == disk.backup
    ensures disk.Went(old(disk.tick), fate, false)
    ensures fate.Works? ==> disk.log == old(disk.log) + StagedBack()
  {
    fate := disk.Snapshot(Safety, Rollback);
    assert Path(Target, Wal).db == Target;
    if !fate.Works? { return; }
    fate := disk.Validate(Rollback);
  }

  /** It replaces the target. */
  method ExchangeBack(disk: Disk) returns (fate: Fate)
    requires disk.Valid() && disk.saved && NoFrames(disk.files, Target)
    requires NoFrames(disk.files, Rollback) && Logical(disk.files, Rollback) == disk.backup
    modifies disk`files, disk`history, disk`tick, disk`log
    ensures disk.Valid() && old(disk.history) <= disk.history
    ensures fate.Works? ==> Logical(disk.files, Target) == disk.backup
    ensures disk.Went(old(disk.tick), fate, false)
    ensures fate.Works? ==> disk.log == old(disk.log) + ExchangedBack()
  {
    ghost var copied := disk.files;
    fate := disk.UnlinkTargetSidecars();
    OtherDbSame(Target, copied, disk.files, Rollback);
    assert Path(Rollback, Wal).db == Rollback;
    if !fate.Works? { return; }
    fate := disk.ReplaceTarget(Rollback);
    if !fate.Works? { return; }
    fate := Settle(disk);
  }

  /** The `try` body of `_rollback_restore`. */
  method RollbackBody(disk: Disk) returns (fate: Fate)
    requires disk.Valid() && disk.saved && NoFrames(disk.files, Target)
    modifies disk`files, disk`history, disk`tick, disk`log
    ensures disk.Valid() && old(disk.history) <= disk.history
    ensures fate.Works? ==> Logical(disk.files, Target) == disk.backup
    ensures disk.Went(old(disk.tick), fate, false)
    ensures fate.Works? ==> disk.log == old(disk.log) + (StagedBack() + ExchangedBack())
  {
    fate := StageBack(disk);
    if !fate.Works? { return; }
    fate := ExchangeBack(disk);
  }

  /** Where an exception left the run. */
  datatype Stage = Unpublished | RolledBack | RollbackFailed | CleanupFailed

  datatype Outcome = Returned | Raised(stage: Stage) | Stopped

  /** The promise of each outcome about the target. */
  ghost predicate Kept(disk: Disk, outcome: Outcome)
    reads disk
  {
    match outcome
    case Returned => disk.saved && Logical(disk.files, Target) == Some(disk.candidate) && disk.sound(disk.candidate)
    case Raised(CleanupFailed) => disk.saved && Logical(disk.files, Target) == Some(disk.candidate) && disk.sound(disk.candidate)
    case Raised(Unpublished) => Logical(disk.files, Target) == Some(disk.original)
    case Raised(RolledBack) => disk.saved && Logical(disk.files, Target) == disk.backup
    case Raised(RollbackFailed) => disk.saved && Logical(disk.files, Safety) == disk.backup
    case Stopped => true
  }

  /**
   * What each outcome says about the faults of the run.  A rollback fails only by a second fault, and
   * nothing but an interruption stops the run without one.
   */
  ghost predicate Explained(outcome: Outcome, fates: Fates, from: nat, to: nat, blocked: bool) {
    match outcome
    case Returned => Smooth(fates, from, to)
    case Stopped => HappensIn(fates, from, to, Interrupts)
    case Raised(Unpublished) => blocked || HappensIn(fates, from, to, Raises)
    case Raised(RollbackFailed) => TwoFaults(fates, from, to)
    case Raised(_) => HappensIn(fates, from, to, Raises)
  }

  /** The target's log is emptied. */
  method Flush(disk: Disk) returns (fate: Fate)
    requires disk.Valid() && Logical(disk.files, Target).Some?
    modifies disk`files, disk`history, disk`tick, disk`log
    ensures disk.Valid() && old(disk.history) <= disk.history && OnlyDb(Target, old(disk.files), disk.files)
    ensures Logical(disk.files, Target) == Logical(old(disk.files), Target)
    ensures fate.Works? ==> NoFrames(disk.files, Target) && disk.log == old(disk.log) + [Checkpointed] + SidecarsRemoved()
    ensures disk.Went(old(disk.tick), fate, false)
  {
    fate := disk.Checkpoint();
    if !fate.Works? { return; }
    fate := disk.UnlinkTargetSidecars();
  }

  /** Staging the candidate and emptying the target's log. */
  method Prepare(disk: Disk) returns (fate: Fate)
    requires disk.Valid() && Logical(disk.files, Target) == Some(disk.original)
    modifies disk`files, disk`history, disk`tick, disk`log
    ensures disk.Valid() && old(disk.history) <= disk.history
    ensures Logical(disk.files, Target) == Some(disk.original)
    ensures fate.Works? ==> NoFrames(disk.files, Target) && NoFrames(disk.files, Replacement)
                            && Logical(disk.files, Replacement) == Some(disk.candidate) && disk.sound(disk.candidate)
    ensures disk.Went(old(disk.tick), fate, !disk.sound(disk.candidate))
    ensures fate.Works? ==> disk.log == old(disk.log) + Prepared()
    ensures StaysGone(old(disk.files), disk.files)
  {
    fate := disk.Snapshot(Source, Replacement);
    OtherDbSame(Replacement, old(disk.files), disk.files, Target);
    OthersStayGone(Replacement, old(disk.files), disk.files);
    if !fate.Works? { return; }
    fate := disk.Validate(Replacement);
    if !fate.Works? { return; }
    ghost var staged := disk.files;
    fate := Flush(disk);
    OtherDbSame(Target, staged, disk.files, Replacement);
    OthersStayGone(Target, staged, disk.files);
    assert Path(Replacement, Wal).db == Replacement;
  }

  /** `_rollback_restore`. */
  method RollbackRestore(disk: Disk) returns (fate: Fate)
    requires disk.Valid() && disk.saved && NoFrames(disk.files, Target)
    modifies disk`files, disk`history, disk`tick, disk`log
    ensures disk.Valid() && old(disk.history) <= disk.history && disk.Went(old(disk.tick), fate, false)
    ensures fate.Works? ==> Logical(disk.files, Target) == disk.backup
    ensures fate.Works? ==> disk.log == old(disk.log) + RolledBackBy() && Gone(disk.files, Rollback)
  {
    ghost var began := disk.tick;
    fate := RollbackBody(disk);
    ghost var rolled := disk.files;
    fate := Finally(disk, Rollback, fate, began, false);
    OtherDbSame(Rollback, rolled, disk.files, Target);
  }

  /** The candidate is put in the target's place. */
  method Exchange(disk: Disk) returns (fate: Fate, published: bool, ghost at: nat)
    requires disk.Valid() && disk.saved && Logical(disk.files, Target) == Some(disk.original)
    modifies disk`files, disk`history, disk`tick, disk`log
    ensures disk.Valid() && old(disk.history) <= disk.history && old(disk.tick) <= at <= disk.tick
    ensures disk.Went(old(disk.tick), fate, !disk.sound(disk.candidate))
    ensures if published then
              && Logical(disk.files, Target) == Some(disk.candidate) && disk.sound(disk.candidate)
              && NoFrames(disk.files, Target) && disk.Went(at, fate, false)
            else Logical(disk.files, Target) == Some(disk.original) && !fate.Works?
    ensures fate.Works? ==> disk.log == old(disk.log) + Exchanged()
    ensures StaysGone(old(disk.files), disk.files)
  {
    fate := Prepare(disk);
    published, at := false, disk.tick;
    if !fate.Works? { return; }
    fate := disk.ReplaceTarget(Replacement);
    at := disk.tick;
    if !fate.Works? { return; }
    published := true;
    fate := Settle(disk);
  }

  /** The body of the outer `try`. */
  method Replace(disk: Disk) returns (outcome: Outcome)
    requires disk.Valid() && disk.saved && Logical(disk.files, Target) == Some(disk.original)
    modifies disk`files, disk`history, disk`tick, disk`log
    ensures disk.Valid() && old(disk.history) <= disk.history
    ensures Kept(disk, outcome) && outcome != Raised(CleanupFailed) && old(disk.tick) <= disk.tick
    ensures Explained(outcome, disk.fates, old(disk.tick), disk.tick, !disk.sound(disk.candidate))
    ensures outcome.Returned? ==> disk.log == old(disk.log) + Exchanged() && StaysGone(old(disk.files), disk.files)
    ensures outcome == Raised(RolledBack) ==> EndedWith(disk.log, RolledBackBy()) && Gone(disk.files, Rollback)
  {
    var fate, published;
    ghost var at;
    fate, published, at := Exchange(disk);
    match fate
    case Works => return Returned;
    case Interrupts => return Stopped;
    case Raises =>
      if !published {
        return Raised(Unpublished);
      }
      ghost var raised, log := disk.tick, disk.log;
      var rollback := RollbackRestore(disk);
      outcome := match rollback
        case Works => Raised(RolledBack)
        case Raises => Raised(RollbackFailed)
        case Interrupts => Stopped;
      AppendedEnds(log, RolledBackBy());
      FaultAfterFault(disk.fates, at, raised, disk.tick, rollback);
  }

  /** Up to the safety backup. */
  method SafeStart(disk: Disk) returns (fate: Fate)
    requires disk.Valid() && !disk.saved && Logical(disk.files, Target) == Some(disk.original)
    modifies disk
    ensures disk.Valid() && old(disk.history) <= disk.history
    ensures Logical(disk.files, Target) == Some(disk.original)
    ensures fate.Works? ==> disk.saved && Gone(disk.files, SafetyTemp) && disk.log == old(disk.log) + SafeBegun()
    ensures disk.Went(old(disk.tick), fate, !disk.sound(disk.candidate) || !disk.SafetyClear(old(disk.files)))
  {
    fate := disk.Validate(Source);
    if !fate.Works? { return; }
    fate := CreateSafety(disk);
  }

  /** The outer `finally`. */
  method CleanUp(disk: Disk, soFar: Outcome, ghost from: nat, ghost blocked: bool) returns (outcome: Outcome)
    requires disk.Valid() && Kept(disk, soFar) && soFar != Raised(CleanupFailed)
    requires from <= disk.tick && Explained(soFar, disk.fates, from, disk.tick, blocked)
    modifies disk`files, disk`history, disk`tick, disk`log
    ensures disk.Valid() && old(disk.history) <= disk.history && Kept(disk, outcome)
    ensures Explained(outcome, disk.fates, from, disk.tick, blocked)
    ensures outcome.Returned? ==>
      soFar.Returned? && disk.log == old(disk.log) + RemovedAll(Replacement) && Gone(disk.files, Replacement)
      && StaysGone(old(disk.files), disk.files)
  {
    outcome := soFar;
    ghost var before := disk.files;
    var cleaned := disk.UnlinkAll(Replacement);
    OtherDbSame(Replacement, before, disk.files, Target);
    OtherDbSame(Replacement, before, disk.files, Safety);
    OthersStayGone(Replacement, before, disk.files);
    if cleaned.Interrupts? {
      outcome := Stopped;
    } else if cleaned.Raises? && outcome.Returned? {
      outcome := Raised(CleanupFailed);
    }
  }

  /**
   * `restore_backup`.  For every pattern of failures and interruptions: in every state the target
   * says the original, the validated candidate or what the safety backup says, and from its
   * publication on the safety backup says `backup`; success means the candidate; a failure before
   * publication means the original, one with a successful rollback what the backup says.  `BackupSays`
   * tells when that is the original.  Every other ending than a return has its fault, or an unsound
   * candidate or an obstacle to the safety backup from the start.
   */
  method RestoreBackup(disk: Disk) returns (outcome: Outcome)
    requires disk.Valid() && !disk.saved && Logical(disk.files, Target) == Some(disk.original)
    modifies disk
    ensures disk.Valid() && old(disk.history) <= disk.history
    ensures Kept(disk, outcome)
    ensures Explained(outcome, disk.fates, old(disk.tick), disk.tick,
                      !disk.sound(disk.candidate) || !disk.SafetyClear(old(disk.files)))
    ensures disk.fates == map[] && disk.sound(disk.candidate) && disk.SafetyClear(old(disk.files)) ==> outcome.Returned?
    ensures NoFrames(old(disk.files), Safety) ==> disk.backup == Some(disk.original)
    ensures outcome.Returned? ==> disk.log == old(disk.log) + Restored() && Gone(disk.files, SafetyTemp) && Gone(disk.files, Replacement)
  {
    BackupSays(disk);
    var fate := SafeStart(disk);
    if !fate.Works? {
      return if fate.Raises? then Raised(Unpublished) else Stopped;
    }
    ghost var began := old(disk.tick);
    outcome := Replace(disk);
    outcome := CleanUp(disk, outcome, began, !disk.sound(disk.candidate) || !disk.SafetyClear(old(disk.files)));
  }

  // ----- a log left at the safety backup's path

  /** The frames at that path, if any, leave this text as it is. */
  predicate Harmless(log: Option<Content>, text: string) {
    match log
    case None => true
    case Some(Truncated) => true
    case Some(Image(_, _)) => false
    case Some(Frames(_, _, elsewhere)) => text in elsewhere && elsewhere[text] == text
  }

  /** The safety backup says the original exactly when the log left at its path leaves the original as it is. */
  lemma BackupSays(disk: Disk)
    requires disk.Valid()
    ensures disk.backup == Some(disk.original) <==> Harmless(disk.safetyLog, disk.original)
    ensures NoFrames(disk.files, Safety) ==> Harmless(disk.safetyLog, disk.original)
  {
  }

  /** Then the target never says anything but the original or the validated candidate, and the backup keeps the original. */
  lemma OriginalOrCandidate(disk: Disk, k: nat)
    requires disk.Valid() && Harmless(disk.safetyLog, disk.original) && k < |disk.history|
    ensures var said := Logical(disk.history[k], Target);
            said == Some(disk.original) || (said == Some(disk.candidate) && disk.sound(disk.candidate))
    ensures disk.saved && disk.savedAt <= k ==> Logical(disk.history[k], Safety) == Some(disk.original)
  {
    BackupSays(disk);
    assert disk.TargetKept(disk.history[k]);
  }

  /**
   * Without frames at the safety backup's path every original is safe; with frames there some
   * originals are not.
   */
  lemma SafeExactlyWithoutFrames(log: Option<Content>)
    requires Old(log) && (log.Some? ==> !log.value.Image?)
    ensures (forall text :: Published(text, log) == Some(text)) <==> log.None? || log.value.Truncated?
  {
    if log.Some? && log.value.Frames? {
      var text := Unlisted(log.value.elsewhere.Keys);
      assert Published(text, log).None?;
    }
  }

  /** A text longer than all of these. */
  ghost function Unlisted(texts: set<string>): (r: string)
    ensures r !in texts
  {
    var n := Longest(texts);
    seq(n + 1, i => 'x')
  }

  ghost function Longest(texts: set<string>): (n: nat)
    ensures forall text :: text in texts ==> |text| <= n
  {
    if texts == {} then 0
    else
      var text :| text in texts;
      var n := Longest(texts - {text});
      assert texts == (texts - {text}) + {text};
      if |text| > n then |text| else n
  }

  /**
   * A run in which nothing fails: the log of an older backup was left at the path of the safety
   * backup.  The copy is validated, the frames then apply to it, and what was published as the safety
   * backup of "original" says something else.
   */
  method LeftoverLogMisleads() returns (disk: Disk, fate: Fate)
    ensures fresh(disk) && fate.Works? && disk.saved && disk.original == "original"
    ensures Logical(disk.files, Target) == Some("original") && Logical(disk.files, Safety) == Some("mixed")
  {
    var files: Files := map[
      Path(Target, Main) := Image(1, "original"),
      Path(Source, Main) := Image(2, "candidate"),
      Path(Safety, Wal) := Frames(0, "older", map["original" := "mixed"])];
    disk := new Disk(files, "original", "candidate", map[], _ => "", _ => true);
    fate := CreateSafety(disk);
  }
}
