/**
 * Replacing an upgraded database by its pre-upgrade backup
 * (deploy/cross_schema_rollback.py:129-183).  The file system binds paths to
 * inodes.  Before every primitive a competitor may create files at free active
 * paths; every primitive may then raise or be interrupted instead of happening.
 * A validation may leave a log and a shared-memory file beside the file it
 * opens, as SQLite does for a file in WAL mode.  The disk remembers every state
 * it went through, so a kill at any point is covered by the claims about all
 * states.
 */
module CrossSchemaRollback {
  import opened Faults
  import opened Prelude

  datatype Part = Main | Wal | Shm

  datatype Place = Active | Staged | Quarantine

  datatype Path = Path(place: Place, part: Part)

  /** A file of ours, a competitor's, or one that a validation left beside the file it opened. */
  datatype Inode = Local(number: nat) | Rival(number: nat) | Left(number: nat)

  datatype Content = Partial | Whole(text: string)

  type Names = map<Path, Inode>

  /** What the competitor wants at each moment: a file for each of these parts. */
  type Rivals = map<nat, map<Part, nat>>

  function WantedAt(rivals: Rivals, now: nat): map<Part, nat> {
    if now in rivals then rivals[now] else map[]
  }

  /** Which sidecars a validation of each file leaves beside it. */
  type Leavings = map<Inode, set<Part>>

  predicate Leaves(leavings: Leavings, inode: Inode, part: Part) {
    !part.Main? && inode in leavings && part in leavings[inode]
  }

  const ACTIVE := Path(Active, Main)
  const SAVED := Path(Quarantine, Main)
  const STAGED := Path(Staged, Main)

  /** What the competitor creates: only at free active paths. */
  function RivalCreates(names: Names, wanted: map<Part, nat>): Names {
    names + map part: Part | part in wanted && Path(Active, part) !in names :: Path(Active, part) := Rival(wanted[part])
  }

  /** The parts whose active paths are taken. */
  function Taken(names: Names): set<Part> {
    set part: Part | Path(Active, part) in names
  }

  /** The parts the competitor wants at some moment of this time. */
  function WantedIn(rivals: Rivals, from: nat, to: nat): set<Part>
  {
    if to <= from then {} else WantedIn(rivals, from, to - 1) + WantedAt(rivals, to - 1).Keys
  }

  lemma {:induction false} WantedThen(rivals: Rivals, from: nat, mid: nat, to: nat)
    requires from <= mid <= to
    ensures WantedIn(rivals, from, to) == WantedIn(rivals, from, mid) + WantedIn(rivals, mid, to)
  {
    if mid < to {
      WantedThen(rivals, from, mid, to - 1);
    }
  }

  /** In this time the active paths were taken by the competitor alone, and none was freed. */
  predicate TakenBy(rivals: Rivals, before: Names, from: nat, after: Names, now: nat) {
    from <= now && Taken(after) == Taken(before) + WantedIn(rivals, from, now)
  }

  lemma TakenThen(rivals: Rivals, a: Names, from: nat, b: Names, mid: nat, c: Names, to: nat)
    requires TakenBy(rivals, a, from, b, mid) && TakenBy(rivals, b, mid, c, to)
    ensures TakenBy(rivals, a, from, c, to)
  {
    WantedThen(rivals, from, mid, to);
  }

  /** In this time the competitor wants a part whose active path is free in these names. */
  ghost predicate Wished(rivals: Rivals, names: Names, from: nat, to: nat) {
    exists t: nat, part: Part :: from <= t < to && part in WantedAt(rivals, t) && Path(Active, part) !in names
  }

  /** Before the states are compared the competitor wants a part whose active path was free. */
  ghost predicate Disturbed(rivals: Rivals, names: Names, from: nat) {
    Wished(rivals, names, from, from + 10)
  }

  lemma {:induction false} WishedIsWanted(rivals: Rivals, names: Names, from: nat, to: nat)
    ensures Wished(rivals, names, from, to) <==> !(WantedIn(rivals, from, to) <= Taken(names))
  {
    if from < to {
      WishedIsWanted(rivals, names, from, to - 1);
      if Wished(rivals, names, from, to) {
        var t: nat, part: Part :| from <= t < to && part in WantedAt(rivals, t) && Path(Active, part) !in names;
        assert t < to - 1 ==> Wished(rivals, names, from, to - 1);
        assert t == to - 1 ==> part in WantedIn(rivals, from, to) && part !in Taken(names);
      } else {
        assert !Wished(rivals, names, from, to - 1);
        forall part | part in WantedAt(rivals, to - 1) ensures part in Taken(names) {
        }
      }
    }
  }

  lemma RivalTakes(names: Names, wanted: map<Part, nat>)
    ensures Taken(RivalCreates(names, wanted)) == Taken(names) + wanted.Keys
  {
    var after := RivalCreates(names, wanted);
    forall part: Part ensures Path(Active, part) in after <==> part in Taken(names) || part in wanted {
    }
  }

  predicate BoundTo(names: Names, path: Path, inode: Inode) {
    path in names && names[path] == inode
  }

  /** The upgraded database can still be reached. */
  predicate Kept(names: Names, upgraded: Inode) {
    BoundTo(names, ACTIVE, upgraded) || BoundTo(names, SAVED, upgraded)
  }

  predicate RivalActive(names: Names) {
    ACTIVE in names && names[ACTIVE].Rival?
  }

  /** Outside these paths nothing is lost or rebound, and only a rival's files at active paths are new. */
  predicate Only(touched: set<Path>, before: Names, after: Names) {
    && (forall path :: path in before && path !in touched ==> BoundTo(after, path, before[path]))
    && (forall path :: path in after && path !in touched && path !in before ==> path.place.Active? && after[path].Rival?)
  }

  predicate Grown(before: Names, after: Names) {
    Only({}, before, after)
  }

  /** Nothing is bound anew at other than active paths, and there only files that are not ours. */
  predicate NothingNew(before: Names, after: Names) {
    forall path :: path in after ==> BoundTo(before, path, after[path]) || (path.place.Active? && !after[path].Local?)
  }

  /** Nothing is lost; beside the file at this place a validation may have left others. */
  predicate Added(place: Place, before: Names, after: Names) {
    && (forall path :: path in before ==> BoundTo(after, path, before[path]))
    && (forall path :: path in after && path !in before ==>
          (path.place.Active? && after[path].Rival?) || (path.place == place && !path.part.Main? && after[path].Left?))
  }

  predicate AllLocal(names: Names) {
    forall path :: path in names ==> names[path].Local?
  }

  /** No file of a competitor. */
  predicate NoRivals(names: Names) {
    forall path :: path in names ==> !names[path].Rival?
  }

  predicate RivalAt(names: Names, part: Part) {
    Path(Active, part) in names && names[Path(Active, part)].Rival?
  }

  /** Some active path holds a competitor's file. */
  predicate RivalThere(names: Names) {
    RivalAt(names, Main) || RivalAt(names, Wal) || RivalAt(names, Shm)
  }

  /** The active path holds a file left by a validation. */
  predicate LeftAt(names: Names, part: Part) {
    Path(Active, part) in names && names[Path(Active, part)].Left?
  }

  lemma LeftStays(touched: set<Path>, before: Names, after: Names, part: Part)
    requires Only(touched, before, after) && Path(Active, part) !in touched
    ensures LeftAt(after, part) == LeftAt(before, part)
  {
    var a := Path(Active, part);
    assert a in before ==> BoundTo(after, a, before[a]);
  }

  lemma OnlyCompose(touched: set<Path>, t: set<Path>, u: set<Path>, a: Names, b: Names, c: Names)
    requires Only(t, a, b) && Only(u, b, c) && t <= touched && u <= touched
    ensures Only(touched, a, c)
  {
    forall path | path in a && path !in touched ensures BoundTo(c, path, a[path]) {
      assert BoundTo(b, path, a[path]);
    }
    forall path | path in c && path !in touched && path !in a ensures path.place.Active? && c[path].Rival? {
      if path in b {
        assert BoundTo(c, path, b[path]);
      }
    }
  }

  class Disk {
    var names: Names
    var contents: map<Inode, Content>
    var tick: nat
    const fates: Fates
    const rivals: Rivals
    const leavings: Leavings
    const upgraded: Inode
    ghost var history: seq<Names>

    /** In every state so far the upgraded database was reachable, and a rival's file stayed where it was. */
    ghost predicate Valid()
      reads this
    {
      && upgraded.Local?
      && history != [] && history[|history| - 1] == names
      && (forall k :: 0 <= k < |history| ==> Kept(history[k], upgraded))
      && (forall k, l :: 0 <= k < l < |history| && RivalActive(history[k]) ==> BoundTo(history[l], ACTIVE, history[k][ACTIVE]))
      && (Alone() ==> NoRivals(names))
    }

    /** Nobody else writes. */
    predicate Alone() {
      rivals == map[]
    }

    /** How the primitives since `from` went: only a fault makes one fail. */
    ghost predicate Ran(from: nat, fate: Fate)
      reads this
    {
      EndsAs(fates, from, tick, fate, false)
    }

    /** The same where a competitor's file may stand in the way of a link. */
    ghost predicate Went(from: nat, fate: Fate)
      reads this
    {
      EndsAs(fates, from, tick, fate, RivalThere(names))
    }

    constructor (names: Names, contents: map<Inode, Content>, fates: Fates, rivals: Rivals, leavings: Leavings)
      requires ACTIVE in names && AllLocal(names)
      ensures Valid() && this.names == names && this.contents == contents && upgraded == names[ACTIVE]
      ensures this.fates == fates && this.rivals == rivals && this.leavings == leavings && tick == 0
      ensures history == [names]
    {
      this.names, this.contents, this.fates, this.rivals, this.leavings, tick := names, contents, fates, rivals, leavings, 0;
      upgraded := names[ACTIVE];
      history := [names];
    }

    /** The only way a state changes: the new one still reaches the upgraded database and keeps a rival's file. */
    method Become(next: Names)
      requires Valid() && Kept(next, upgraded)
      requires RivalActive(names) ==> BoundTo(next, ACTIVE, names[ACTIVE])
      requires Alone() ==> NoRivals(next)
      modifies `names, `history
      ensures Valid() && names == next && old(history) < history
    {
      names := next;
      history := history + [next];
    }

    /** The competitor's turn, then the fate of the primitive that comes next. */
    method Turn() returns (fate: Fate)
      requires Valid()
      modifies `names, `history, `tick
      ensures Valid() && old(history) <= history && tick == old(tick) + 1 && fate == FateAt(fates, old(tick))
      ensures Ran(old(tick), fate) && Grown(old(names), names) && TakenBy(rivals, old(names), old(tick), names, tick)
      ensures Alone() ==> names == old(names)
    {
      RivalTakes(names, WantedAt(rivals, tick));
      assert WantedIn(rivals, tick, tick + 1) == WantedAt(rivals, tick).Keys;
      Become(RivalCreates(names, WantedAt(rivals, tick)));
      fate := FateAt(fates, tick);
      assert !fate.Works? <==> FaultAt(fates, tick);
      tick := tick + 1;
    }

    /** A step that may fail but binds nothing: a service check, an fsync, a mkdir, the verdict of a validation. */
    method Check() returns (fate: Fate)
      requires Valid()
      modifies `names, `history, `tick
      ensures Valid() && old(history) <= history && tick == old(tick) + 1 && Ran(old(tick), fate)
      ensures Grown(old(names), names) && NothingNew(old(names), names) && TakenBy(rivals, old(names), old(tick), names, tick)
      ensures Alone() ==> names == old(names)
    {
      fate := Turn();
    }

    /** SQLite creates a sidecar that the file it opens calls for and that is missing. */
    method Leave(place: Place, part: Part) returns (fate: Fate)
      requires Valid() && !part.Main? && !place.Quarantine?
      modifies `names, `history, `tick
      ensures Valid() && old(history) <= history && tick == old(tick) + 1 && Ran(old(tick), fate)
      ensures Added(place, old(names), names) && (place.Staged? ==> TakenBy(rivals, old(names), old(tick), names, tick))
      ensures Alone() ==>
        names == if fate.Works? && Path(place, Main) in old(names) && Leaves(leavings, old(names)[Path(place, Main)], part)
                    && Path(place, part) !in old(names)
                 then old(names)[Path(place, part) := Left(old(tick))] else old(names)
    {
      fate := Turn();
      if fate.Works? && Path(place, Main) in names && Leaves(leavings, names[Path(place, Main)], part) && Path(place, part) !in names {
        Become(names[Path(place, part) := Left(tick - 1)]);
      }
    }

    /** `open("xb")` on a new inode. */
    method Create(path: Path, inode: Inode) returns (fate: Fate)
      requires Valid() && !path.place.Active? && path !in names && inode.Local?
      modifies `names, `history, `tick, `contents
      ensures Valid() && old(history) <= history && tick == old(tick) + 1 && Ran(old(tick), fate)
      ensures fate.Works? ==> Only({path}, old(names), names) && BoundTo(names, path, inode) && contents == old(contents)[inode := Partial]
      ensures !fate.Works? ==> Grown(old(names), names) && contents == old(contents)
      ensures TakenBy(rivals, old(names), old(tick), names, tick)
    {
      fate := Turn();
      if fate.Works? {
        Become(names[path := inode]);
        contents := contents[inode := Partial];
      }
    }

    /** Copying the bytes over. */
    method Copy(inode: Inode, text: string) returns (fate: Fate)
      requires Valid()
      modifies `names, `history, `tick, `contents
      ensures Valid() && old(history) <= history && tick == old(tick) + 1 && Ran(old(tick), fate)
      ensures Grown(old(names), names) && TakenBy(rivals, old(names), old(tick), names, tick)
      ensures contents == if fate.Works? then old(contents)[inode := Whole(text)] else old(contents)
    {
      fate := Turn();
      if fate.Works? {
        contents := contents[inode := Whole(text)];
      }
    }

    /** `os.replace`. */
    method Replace(source: Path, target: Path) returns (fate: Fate)
      requires Valid() && source in names && target !in names && !target.place.Active?
      requires source == ACTIVE ==> BoundTo(names, ACTIVE, upgraded) && target == SAVED
      requires source.place.Active?
      modifies `names, `history, `tick
      ensures Valid() && old(history) <= history && tick == old(tick) + 1 && Ran(old(tick), fate)
      ensures fate.Works? ==> Only({source, target}, old(names), names) && source !in names && BoundTo(names, target, old(names)[source])
      ensures !fate.Works? ==> Grown(old(names), names)
    {
      fate := Turn();
      if fate.Works? {
        Become((names - {source})[target := names[source]]);
      }
    }

    /** `os.link`: fails when the source is missing or the target exists, be it since a moment ago. */
    method Link(source: Path, target: Path) returns (fate: Fate)
      requires Valid() && target.place.Active? && !source.place.Active?
      modifies `names, `history, `tick
      ensures Valid() && old(history) <= history && tick == old(tick) + 1
      ensures EndsAs(fates, old(tick), tick, fate, source !in old(names) || target in names)
      ensures fate.Works? ==> source in old(names) && target !in old(names)
                              && Only({target}, old(names), names) && BoundTo(names, target, old(names)[source])
      ensures !fate.Works? ==> Grown(old(names), names)
    {
      fate := Turn();
      if fate.Works? {
        if source !in names || target in names {
          return Raises;
        }
        Become(names[target := names[source]]);
      }
    }

    /** `unlink(missing_ok=True)`; never on a rival's database or the last name of the upgraded one. */
    method Unlink(path: Path) returns (fate: Fate)
      requires Valid() && path != SAVED
      requires path == ACTIVE ==> ACTIVE in names && names[ACTIVE].Local? && BoundTo(names, SAVED, upgraded)
      modifies `names, `history, `tick
      ensures Valid() && old(history) <= history && tick == old(tick) + 1 && Ran(old(tick), fate)
      ensures NothingNew(old(names), names) && (!path.place.Active? ==> TakenBy(rivals, old(names), old(tick), names, tick))
      ensures fate.Works? ==> Only({path}, old(names), names) && path !in names
      ensures !fate.Works? ==> Grown(old(names), names)
      ensures Alone() ==> names == if fate.Works? then old(names) - {path} else old(names)
    {
      fate := Turn();
      if fate.Works? {
        Become(names - {path});
      }
    }
  }

  /** Where the run stands when the handlers look at it. */
  datatype Progress = Progress(moved: bool, published: bool)

  predicate Fresh(names: Names, inode: Inode) {
    inode.Local? && forall path :: path in names ==> names[path] != inode
  }

  /** Nothing staged or in the quarantine yet, and no file left by a validation of this run. */
  predicate Untouched(names: Names) {
    forall path: Path :: path in names ==> path.place.Active? && !names[path].Left?
  }

  predicate SameAt(before: Names, now: Names, part: Part) {
    var a := Path(Active, part);
    (a in before <==> a in now) && (a in before ==> before[a] == now[a])
  }

  /** `_state`: the inodes bound to the active paths. */
  predicate SameState(before: Names, now: Names) {
    forall part: Part :: SameAt(before, now, part)
  }

  // ----- where the sidecars are

  /** Not a file of ours; one of a validation only if the candidate was opened at the active path. */
  predicate Stray(inode: Inode, validated: bool) {
    inode.Rival? || (validated && inode.Left?)
  }

  /** A sidecar is at its place, or in the quarantine with at most a stray file at its place. */
  predicate PartAside(orig: Names, names: Names, part: Part, validated: bool) {
    var a, q := Path(Active, part), Path(Quarantine, part);
    if a in orig then
      (BoundTo(names, a, orig[a]) && q !in names) || (BoundTo(names, q, orig[a]) && (a in names ==> Stray(names[a], validated)))
    else (a in names ==> Stray(names[a], validated)) && (q in names ==> names[q].Rival?)
  }

  predicate Aside(orig: Names, names: Names, validated: bool) {
    PartAside(orig, names, Wal, validated) && PartAside(orig, names, Shm, validated)
  }

  /** Every sidecar there was is in the quarantine. */
  predicate PartMoved(orig: Names, names: Names, part: Part) {
    var a, q := Path(Active, part), Path(Quarantine, part);
    && (a in orig ==> BoundTo(names, q, orig[a]))
    && (a !in orig && q in names ==> names[q].Rival?)
    && (a in names ==> names[a].Rival?)
  }

  predicate Moved(orig: Names, names: Names) {
    PartMoved(orig, names, Wal) && PartMoved(orig, names, Shm)
  }

  /** A sidecar stands at its place again, unless a stray file does and it is in the quarantine. */
  predicate PartRestored(orig: Names, names: Names, part: Part) {
    var a, q := Path(Active, part), Path(Quarantine, part);
    if a in orig then
      BoundTo(names, a, orig[a]) || (BoundTo(names, q, orig[a]) && a in names && Stray(names[a], true))
    else a in names ==> Stray(names[a], true)
  }

  predicate SidecarsRestored(orig: Names, names: Names) {
    PartRestored(orig, names, Wal) && PartRestored(orig, names, Shm)
  }

  lemma StaysAside(orig: Names, touched: set<Path>, before: Names, after: Names, part: Part, validated: bool)
    requires PartAside(orig, before, part, validated) && Only(touched, before, after)
    requires Path(Active, part) !in touched && Path(Quarantine, part) !in touched
    ensures PartAside(orig, after, part, validated)
  {
    var a, q := Path(Active, part), Path(Quarantine, part);
    assert a in before ==> BoundTo(after, a, before[a]);
    assert q in before ==> BoundTo(after, q, before[q]);
    assert q in after ==> q in before;
  }

  lemma StayAside(orig: Names, touched: set<Path>, before: Names, after: Names, validated: bool)
    requires Aside(orig, before, validated) && Only(touched, before, after)
    requires forall path :: path in touched ==> path.part.Main? || path.place.Staged?
    ensures Aside(orig, after, validated)
  {
    StaysAside(orig, touched, before, after, Wal, validated);
    StaysAside(orig, touched, before, after, Shm, validated);
  }

  /** One file moved to the quarantine, or not. */
  lemma MovedAside(orig: Names, before: Names, after: Names, part: Part)
    requires PartAside(orig, before, part, false) && Path(Quarantine, part) !in before
    requires var a, q := Path(Active, part), Path(Quarantine, part);
             (a in before && BoundTo(after, q, before[a]) && a !in after) || Grown(before, after)
    ensures PartAside(orig, after, part, false)
  {
    if Grown(before, after) {
      StaysAside(orig, {}, before, after, part, false);
    }
  }

  /** Whatever the checks at the active path leave there or remove. */
  lemma MovedIsAside(orig: Names, before: Names, after: Names, part: Part)
    requires PartMoved(orig, before, part) && NothingNew(before, after)
    requires Path(Quarantine, part) in before ==> BoundTo(after, Path(Quarantine, part), before[Path(Quarantine, part)])
    ensures PartAside(orig, after, part, true)
  {
    var a, q := Path(Active, part), Path(Quarantine, part);
    assert q in after ==> BoundTo(before, q, after[q]);
    assert a in after ==> BoundTo(before, a, after[a]) || !after[a].Local?;
  }

  lemma StaysMoved(orig: Names, touched: set<Path>, before: Names, after: Names, part: Part)
    requires PartMoved(orig, before, part) && Only(touched, before, after)
    requires Path(Active, part) !in touched && Path(Quarantine, part) !in touched
    ensures PartMoved(orig, after, part)
  {
    var a, q := Path(Active, part), Path(Quarantine, part);
    assert a in before ==> BoundTo(after, a, before[a]);
    assert q in before ==> BoundTo(after, q, before[q]);
    assert q in after ==> q in before;
  }

  lemma StayBothMoved(orig: Names, touched: set<Path>, before: Names, after: Names)
    requires Moved(orig, before) && Only(touched, before, after)
    requires forall path :: path in touched ==> path.part.Main?
    ensures Moved(orig, after)
  {
    StaysMoved(orig, touched, before, after, Wal);
    StaysMoved(orig, touched, before, after, Shm);
  }

  lemma StaysRestored(orig: Names, before: Names, after: Names)
    requires SidecarsRestored(orig, before) && OnlyStaged(before, after)
    ensures SidecarsRestored(orig, after)
  {
    forall part: Part | !part.Main? ensures PartRestored(orig, after, part) {
      var a, q := Path(Active, part), Path(Quarantine, part);
      assert a in before ==> BoundTo(after, a, before[a]);
      assert q in before ==> BoundTo(after, q, before[q]);
    }
  }

  /** With nobody else writing, a restored sidecar path is as it was unless a validation's file stands there. */
  lemma RestoredAlone(orig: Names, names: Names, part: Part)
    requires NoRivals(names) && Untouched(orig) && !part.Main? && PartRestored(orig, names, part)
    ensures SameAt(orig, names, part) <==> !LeftAt(names, part)
  {
  }

  // ----- the primitives in a row

  /** Several steps in a row that may fail but bind nothing. */
  method Checks(disk: Disk, count: nat) returns (fate: Fate)
    requires disk.Valid()
    modifies disk`names, disk`history, disk`tick
    ensures disk.Valid() && old(disk.history) <= disk.history && Grown(old(disk.names), disk.names)
    ensures NothingNew(old(disk.names), disk.names) && disk.Ran(old(disk.tick), fate)
    ensures disk.tick <= old(disk.tick) + count && (fate.Works? ==> disk.tick == old(disk.tick) + count)
    ensures disk.Alone() ==> disk.names == old(disk.names)
  {
    fate := Works;
    for i := 0 to count
      invariant disk.Valid() && old(disk.history) <= disk.history && Grown(old(disk.names), disk.names)
      invariant NothingNew(old(disk.names), disk.names) && disk.Ran(old(disk.tick), fate) && fate.Works?
      invariant disk.tick == old(disk.tick) + i
      invariant disk.Alone() ==> disk.names == old(disk.names)
    {
      fate := disk.Check();
      if !fate.Works? { return; }
    }
  }

  /** A validation opens a file, which may leave sidecars beside it. */
  method Open(disk: Disk, place: Place) returns (fate: Fate)
    requires disk.Valid() && !place.Quarantine? && Path(place, Main) in disk.names
    modifies disk`names, disk`history, disk`tick
    ensures disk.Valid() && old(disk.history) <= disk.history && disk.Ran(old(disk.tick), fate)
    ensures Added(place, old(disk.names), disk.names) && (place.Staged? ==> TakenBy(disk.rivals, old(disk.names), old(disk.tick), disk.names, disk.tick))
    ensures disk.tick <= old(disk.tick) + 2 && (fate.Works? ==> disk.tick == old(disk.tick) + 2)
    ensures disk.Alone() && place.Active? ==>
      var file := old(disk.names)[ACTIVE];
      && LeavesAt(old(disk.names), disk.names, Wal, disk.leavings, file, disk.tick == old(disk.tick) + 2)
      && LeavesAt(old(disk.names), disk.names, Shm, disk.leavings, file, fate.Works?)
  {
    ghost var before, began := disk.names, disk.tick;
    fate := disk.Leave(place, Wal);
    if !fate.Works? { return; }
    ghost var first, mid := disk.names, disk.tick;
    fate := disk.Leave(place, Shm);
    if place.Staged? {
      TakenThen(disk.rivals, before, began, first, mid, disk.names, disk.tick);
    }
  }

  /** Whether a validation's file stands at the path afterwards: one that was there, or a new one at a free path. */
  predicate LeavesAt(before: Names, after: Names, part: Part, leavings: Leavings, file: Inode, reached: bool) {
    LeftAt(after, part) <==> LeftAt(before, part) || (reached && Leaves(leavings, file, part) && Path(Active, part) !in before)
  }

  /** The sweep itself. */
  method UnlinkSidecars(disk: Disk, place: Place) returns (fate: Fate)
    requires disk.Valid()
    modifies disk`names, disk`history, disk`tick
    ensures disk.Valid() && old(disk.history) <= disk.history && disk.Ran(old(disk.tick), fate)
    ensures Only({Path(place, Wal), Path(place, Shm)}, old(disk.names), disk.names) && NothingNew(old(disk.names), disk.names)
    ensures disk.tick <= old(disk.tick) + 2 && (fate.Works? ==> disk.tick == old(disk.tick) + 2 && Bare(place, disk.names))
    ensures place.Staged? ==> TakenBy(disk.rivals, old(disk.names), old(disk.tick), disk.names, disk.tick)
    ensures disk.Alone() && place.Active? ==>
      && (LeftAt(disk.names, Wal) <==> LeftAt(old(disk.names), Wal) && disk.tick == old(disk.tick) + 1)
      && (LeftAt(disk.names, Shm) <==> LeftAt(old(disk.names), Shm) && !fate.Works?)
  {
    ghost var before, began := disk.names, disk.tick;
    fate := disk.Unlink(Path(place, Wal));
    if !fate.Works? { return; }
    ghost var first, mid := disk.names, disk.tick;
    fate := disk.Unlink(Path(place, Shm));
    if place.Staged? {
      TakenThen(disk.rivals, before, began, first, mid, disk.names, disk.tick);
    }
    OnlyCompose({Path(place, Wal), Path(place, Shm)}, {Path(place, Wal)}, {Path(place, Shm)}, before, first, disk.names);
    StillNothingNew(before, first, disk.names);
    if fate.Works? {
      BothUnlinked(place, first, disk.names);
    }
  }

  lemma StillNothingNew(a: Names, b: Names, c: Names)
    requires NothingNew(a, b) && NothingNew(b, c)
    ensures NothingNew(a, c)
  {
    forall path | path in c ensures BoundTo(a, path, c[path]) || (path.place.Active? && !c[path].Local?) {
      assert BoundTo(b, path, c[path]) || (path.place.Active? && !c[path].Local?);
    }
  }

  lemma BothUnlinked(place: Place, before: Names, after: Names)
    requires Path(place, Wal) !in before && Only({Path(place, Shm)}, before, after) && Path(place, Shm) !in after
    ensures Bare(place, after)
  {
    assert Path(place, Wal) !in {Path(place, Shm)};
  }

  /** `_remove_empty_sidecars`. */
  method RemoveEmptySidecars(disk: Disk, place: Place) returns (fate: Fate)
    requires disk.Valid()
    modifies disk`names, disk`history, disk`tick
    ensures disk.Valid() && old(disk.history) <= disk.history && disk.Ran(old(disk.tick), fate)
    ensures Only({Path(place, Wal), Path(place, Shm)}, old(disk.names), disk.names) && NothingNew(old(disk.names), disk.names)
    ensures disk.tick <= old(disk.tick) + 4 && (fate.Works? ==> disk.tick == old(disk.tick) + 4 && Bare(place, disk.names))
    ensures place.Staged? ==> TakenBy(disk.rivals, old(disk.names), old(disk.tick), disk.names, disk.tick)
    ensures disk.Alone() && place.Active? ==>
      && (LeftAt(disk.names, Wal) <==> LeftAt(old(disk.names), Wal) && disk.tick <= old(disk.tick) + 2)
      && (LeftAt(disk.names, Shm) <==> LeftAt(old(disk.names), Shm) && disk.tick <= old(disk.tick) + 3)
  {
    ghost var sidecars, before, began := {Path(place, Wal), Path(place, Shm)}, disk.names, disk.tick;
    fate := disk.Check(); // a log with content prevents it
    if !fate.Works? { return; }
    ghost var first, mid := disk.names, disk.tick;
    fate := UnlinkSidecars(disk, place);
    OnlyCompose(sidecars, {}, sidecars, before, first, disk.names);
    if place.Staged? {
      TakenThen(disk.rivals, before, began, first, mid, disk.names, disk.tick);
    }
    if !fate.Works? { return; }
    ghost var second, last := disk.names, disk.tick;
    fate := disk.Check(); // fsync
    if place.Staged? {
      TakenThen(disk.rivals, before, began, second, last, disk.names, disk.tick);
    }
    OnlyCompose(sidecars, sidecars, {}, before, second, disk.names);
  }

  /** No sidecar of ours beside this file. */
  predicate Bare(place: Place, names: Names) {
    forall part: Part :: !part.Main? && Path(place, part) in names ==> place.Active? && names[Path(place, part)].Rival?
  }

  /** Moves one active file into the quarantine if it exists. */
  method MoveAside(disk: Disk, part: Part) returns (fate: Fate)
    requires disk.Valid() && Path(Quarantine, part) !in disk.names
    requires part.Main? ==> BoundTo(disk.names, ACTIVE, disk.upgraded)
    modifies disk`names, disk`history, disk`tick
    ensures disk.Valid() && old(disk.history) <= disk.history
    ensures Only({Path(Active, part), Path(Quarantine, part)}, old(disk.names), disk.names)
    ensures fate.Works? && Path(Active, part) in old(disk.names)
      ==> BoundTo(disk.names, Path(Quarantine, part), old(disk.names)[Path(Active, part)]) && Path(Active, part) !in disk.names
    ensures !(fate.Works? && Path(Active, part) in old(disk.names)) ==> Grown(old(disk.names), disk.names)
    ensures Path(Active, part) !in old(disk.names) ==> disk.names == old(disk.names)
    ensures disk.Ran(old(disk.tick), fate)
    ensures disk.tick == old(disk.tick) + if Path(Active, part) in old(disk.names) then 1 else 0
  {
    fate := Works;
    if Path(Active, part) in disk.names {
      fate := disk.Replace(Path(Active, part), Path(Quarantine, part));
    }
  }

  // ----- the exception handler

  /** The handler's precondition: the move has begun, and `published` tells whose file is active. */
  ghost predicate MidSwap(orig: Names, names: Names, upgraded: Inode, staged: Inode, published: bool) {
    && Aside(orig, names, published) && staged.Local? && staged != upgraded
    && BoundTo(names, STAGED, staged)
    && (published ==> BoundTo(names, ACTIVE, staged))
    && (!published && ACTIVE in names ==> names[ACTIVE] == upgraded || names[ACTIVE].Rival?)
  }

  method LinkBack(disk: Disk, part: Part) returns (fate: Fate)
    requires disk.Valid() && !part.Main?
    modifies disk`names, disk`history, disk`tick
    ensures disk.Valid() && old(disk.history) <= disk.history && disk.Went(old(disk.tick), fate)
    ensures Only({Path(Active, part)}, old(disk.names), disk.names)
    ensures fate.Works? ==> SidecarBack(old(disk.names), disk.names, part)
  {
    fate := Works;
    if Path(Quarantine, part) in disk.names && Path(Active, part) !in disk.names {
      fate := disk.Link(Path(Quarantine, part), Path(Active, part));
    }
  }

  /** A moved sidecar is linked back exactly if its path is free; one in the way stays. */
  predicate SidecarBack(before: Names, after: Names, part: Part) {
    var a, q := Path(Active, part), Path(Quarantine, part);
    && (a in before ==> BoundTo(after, a, before[a]))
    && (a !in before && q in before ==> a in after && (after[a] == before[q] || after[a].Rival?))
    && (a !in before && q !in before && a in after ==> after[a].Rival?)
    && (q in before ==> BoundTo(after, q, before[q]))
  }

  /** Steps elsewhere do not undo it. */
  lemma SidecarStaysBack(touched: set<Path>, before: Names, mid: Names, after: Names, part: Part)
    requires SidecarBack(before, mid, part) && Only(touched, mid, after)
    requires Path(Active, part) !in touched && Path(Quarantine, part) !in touched
    ensures SidecarBack(before, after, part)
  {
    var a, q := Path(Active, part), Path(Quarantine, part);
    assert a in mid ==> BoundTo(after, a, mid[a]);
    assert q in mid ==> BoundTo(after, q, mid[q]);
  }

  lemma SidecarBackFrom(touched: set<Path>, before: Names, mid: Names, after: Names, part: Part)
    requires Only(touched, before, mid) && SidecarBack(mid, after, part)
    requires Path(Active, part) !in touched && Path(Quarantine, part) !in touched
    ensures SidecarBack(before, after, part)
  {
    var a, q := Path(Active, part), Path(Quarantine, part);
    assert a in before ==> BoundTo(mid, a, before[a]);
    assert q in before ==> BoundTo(mid, q, before[q]);
    assert a in mid && a !in before ==> mid[a].Rival?;
    assert q in mid ==> q in before;
  }

  /** After the links the validation opens the upgraded file once more. */
  lemma BackIsRestored(orig: Names, before: Names, linked: Names, after: Names, part: Part, validated: bool)
    requires PartAside(orig, before, part, validated) && SidecarBack(before, linked, part) && Added(Active, linked, after)
    ensures PartRestored(orig, after, part)
  {
    var a, q := Path(Active, part), Path(Quarantine, part);
    assert a in linked ==> BoundTo(after, a, linked[a]);
    assert q in linked ==> BoundTo(after, q, linked[q]);
  }

  /** What was left before the handler is there, and what its own validation leaves where there was no sidecar. */
  predicate HandlerLeaves(orig: Names, before: Names, after: Names, leavings: Leavings, upgraded: Inode, part: Part) {
    LeftAt(after, part) <==> LeftAt(before, part) || (Leaves(leavings, upgraded, part) && Path(Active, part) !in orig)
  }

  /** With nobody else writing: whether a validation's file stands at a sidecar's path after the handler. */
  lemma BackAlone(orig: Names, before: Names, linked: Names, after: Names, part: Part, validated: bool, leavings: Leavings, upgraded: Inode)
    requires PartAside(orig, before, part, validated) && SidecarBack(before, linked, part) && NoRivals(linked)
    requires Untouched(orig) && LeavesAt(linked, after, part, leavings, upgraded, true)
    ensures HandlerLeaves(orig, before, after, leavings, upgraded, part)
  {
    var a, q := Path(Active, part), Path(Quarantine, part);
    assert q in before ==> BoundTo(linked, q, before[q]);
  }

  /** Both sidecars are linked back. */
  method LinkSidecars(disk: Disk) returns (fate: Fate)
    requires disk.Valid() && BoundTo(disk.names, ACTIVE, disk.upgraded)
    modifies disk`names, disk`history, disk`tick
    ensures disk.Valid() && old(disk.history) <= disk.history && BoundTo(disk.names, ACTIVE, disk.upgraded)
    ensures disk.Went(old(disk.tick), fate)
    ensures Only({Path(Active, Wal), Path(Active, Shm)}, old(disk.names), disk.names)
    ensures fate.Works? ==> SidecarBack(old(disk.names), disk.names, Wal) && SidecarBack(old(disk.names), disk.names, Shm)
  {
    ghost var before := disk.names;
    fate := LinkBack(disk, Wal);
    if !fate.Works? { return; }
    ghost var first := disk.names;
    fate := LinkBack(disk, Shm);
    OnlyCompose({Path(Active, Wal), Path(Active, Shm)}, {Path(Active, Wal)}, {Path(Active, Shm)}, before, first, disk.names);
    if !fate.Works? { return; }
    SidecarStaysBack({Path(Active, Shm)}, before, first, disk.names, Wal);
    SidecarBackFrom({Path(Active, Wal)}, before, first, disk.names, Shm);
  }

  /** `validate_database` of the restored file, once it and its directory are synced. */
  method Revalidate(disk: Disk) returns (fate: Fate)
    requires disk.Valid() && BoundTo(disk.names, ACTIVE, disk.upgraded)
    modifies disk`names, disk`history, disk`tick
    ensures disk.Valid() && old(disk.history) <= disk.history && disk.Ran(old(disk.tick), fate)
    ensures Added(Active, old(disk.names), disk.names)
    ensures disk.tick <= old(disk.tick) + 5 && (fate.Works? ==> disk.tick == old(disk.tick) + 5)
    ensures disk.Alone() && fate.Works? ==>
      && LeavesAt(old(disk.names), disk.names, Wal, disk.leavings, disk.upgraded, true)
      && LeavesAt(old(disk.names), disk.names, Shm, disk.leavings, disk.upgraded, true)
  {
    fate := Checks(disk, 2);
    if !fate.Works? { return; }
    fate := Open(disk, Active);
    if !fate.Works? { return; }
    fate := disk.Check();
  }

  /** Our file leaves the active path, the upgraded one returns to it. */
  method RestoreActive(disk: Disk, ghost orig: Names, staged: Inode, published: bool) returns (fate: Fate)
    requires disk.Valid() && MidSwap(orig, disk.names, disk.upgraded, staged, published)
    modifies disk`names, disk`history, disk`tick
    ensures disk.Valid() && old(disk.history) <= disk.history && disk.Went(old(disk.tick), fate)
    ensures Only({ACTIVE}, old(disk.names), disk.names)
    ensures fate.Works? ==> BoundTo(disk.names, ACTIVE, disk.upgraded) || RivalActive(disk.names)
  {
    fate := Works;
    if published && disk.names[ACTIVE] == disk.names[STAGED] {
      fate := disk.Unlink(ACTIVE);
      if !fate.Works? { return; }
    }
    if ACTIVE !in disk.names && SAVED in disk.names {
      fate := disk.Link(SAVED, ACTIVE);
    }
  }

  /** The upgraded file is back: its sidecars follow, and it is validated. */
  method RestoreSidecars(disk: Disk, ghost orig: Names, ghost validated: bool) returns (fate: Fate)
    requires disk.Valid() && BoundTo(disk.names, ACTIVE, disk.upgraded) && Aside(orig, disk.names, validated) && Untouched(orig)
    modifies disk`names, disk`history, disk`tick
    ensures disk.Valid() && old(disk.history) <= disk.history && disk.Went(old(disk.tick), fate)
    ensures fate.Works? ==> BoundTo(disk.names, ACTIVE, disk.upgraded) && SidecarsRestored(orig, disk.names)
    ensures SAVED in old(disk.names) ==> BoundTo(disk.names, SAVED, old(disk.names)[SAVED])
    ensures fate.Works? && disk.Alone() ==>
      && HandlerLeaves(orig, old(disk.names), disk.names, disk.leavings, disk.upgraded, Wal)
      && HandlerLeaves(orig, old(disk.names), disk.names, disk.leavings, disk.upgraded, Shm)
  {
    ghost var mid := disk.names;
    fate := LinkSidecars(disk);
    assert SAVED !in {Path(Active, Wal), Path(Active, Shm)};
    if !fate.Works? { return; }
    ghost var linked := disk.names;
    fate := Revalidate(disk);
    if !fate.Works? { return; }
    BackIsRestored(orig, mid, linked, disk.names, Wal, validated);
    BackIsRestored(orig, mid, linked, disk.names, Shm, validated);
    if disk.Alone() {
      BackAlone(orig, mid, linked, disk.names, Wal, validated, disk.leavings, disk.upgraded);
      BackAlone(orig, mid, linked, disk.names, Shm, validated, disk.leavings, disk.upgraded);
    }
  }

  /**
   * The exception handler, once the move has begun.  With nobody else writing, a sidecar comes back
   * exactly if no validation of the candidate left a file at its path; where there was no sidecar,
   * the handler's own validation may leave one.
   */
  method Recover(disk: Disk, ghost orig: Names, staged: Inode, published: bool) returns (fate: Fate)
    requires disk.Valid() && MidSwap(orig, disk.names, disk.upgraded, staged, published) && Untouched(orig)
    modifies disk`names, disk`history, disk`tick
    ensures disk.Valid() && old(disk.history) <= disk.history && disk.Went(old(disk.tick), fate)
    ensures fate.Works? ==>
      RivalActive(disk.names) || (BoundTo(disk.names, ACTIVE, disk.upgraded) && SidecarsRestored(orig, disk.names))
    ensures SAVED in old(disk.names) ==> BoundTo(disk.names, SAVED, old(disk.names)[SAVED])
    ensures fate.Works? && disk.Alone() ==>
      && BoundTo(disk.names, ACTIVE, disk.upgraded)
      && HandlerLeaves(orig, old(disk.names), disk.names, disk.leavings, disk.upgraded, Wal)
      && HandlerLeaves(orig, old(disk.names), disk.names, disk.leavings, disk.upgraded, Shm)
  {
    fate := RestoreActive(disk, orig, staged, published);
    StayAside(orig, {ACTIVE}, old(disk.names), disk.names, published);
    LeftStays({ACTIVE}, old(disk.names), disk.names, Wal);
    LeftStays({ACTIVE}, old(disk.names), disk.names, Shm);
    if fate.Works? && disk.names[ACTIVE] == disk.upgraded {
      fate := RestoreSidecars(disk, orig, published);
    }
  }

  // ----- staging

  /** Other than at staged paths nothing is lost, and only a rival's files at active paths are new. */
  predicate OnlyStaged(before: Names, after: Names) {
    && (forall path :: path in before && !path.place.Staged? ==> BoundTo(after, path, before[path]))
    && (forall path :: path in after && !path.place.Staged? && path !in before ==> path.place.Active? && after[path].Rival?)
  }

  lemma StagedThen(touched: set<Path>, a: Names, b: Names, c: Names)
    requires OnlyStaged(a, b) && Only(touched, b, c) && forall path :: path in touched ==> path.place.Staged?
    ensures OnlyStaged(a, c)
  {
    forall path | path in a && !path.place.Staged? ensures BoundTo(c, path, a[path]) {
      assert BoundTo(b, path, a[path]);
    }
    forall path | path in c && !path.place.Staged? && path !in a ensures path.place.Active? && c[path].Rival? {
      if path in b {
        assert BoundTo(c, path, b[path]);
      }
    }
  }

  function Says(contents: map<Inode, Content>, inode: Inode): Option<Content> {
    if inode in contents then Some(contents[inode]) else None
  }

  /** Copying the candidate to a new name. */
  method StageCopy(disk: Disk, staged: Inode, candidate: string) returns (fate: Fate)
    requires disk.Valid() && STAGED !in disk.names && staged != disk.upgraded && staged.Local?
    modifies disk`names, disk`history, disk`tick, disk`contents
    ensures disk.Valid() && old(disk.history) <= disk.history && disk.Ran(old(disk.tick), fate)
    ensures disk.tick <= old(disk.tick) + 2 && (fate.Works? ==> disk.tick == old(disk.tick) + 2)
    ensures Only({STAGED}, old(disk.names), disk.names) && TakenBy(disk.rivals, old(disk.names), old(disk.tick), disk.names, disk.tick)
    ensures fate.Works? ==> BoundTo(disk.names, STAGED, staged) && disk.contents == old(disk.contents)[staged := Partial][staged := Whole(candidate)]
    ensures Says(old(disk.contents), disk.upgraded) == Says(disk.contents, disk.upgraded)
  {
    ghost var before, began := disk.names, disk.tick;
    fate := disk.Create(STAGED, staged);
    if !fate.Works? { return; }
    ghost var created, mid := disk.names, disk.tick;
    fate := disk.Copy(staged, candidate);
    TakenThen(disk.rivals, before, began, created, mid, disk.names, disk.tick);
  }

  /** `validate_old` of the staged file, and its sidecars removed. */
  method ValidateStaged(disk: Disk) returns (fate: Fate)
    requires disk.Valid() && STAGED in disk.names
    modifies disk`names, disk`history, disk`tick
    ensures disk.Valid() && old(disk.history) <= disk.history && disk.Ran(old(disk.tick), fate)
    ensures disk.tick <= old(disk.tick) + 7 && (fate.Works? ==> disk.tick == old(disk.tick) + 7)
    ensures Only({Path(Staged, Wal), Path(Staged, Shm)}, old(disk.names), disk.names)
    ensures TakenBy(disk.rivals, old(disk.names), old(disk.tick), disk.names, disk.tick)
    ensures fate.Works? ==> Bare(Staged, disk.names)
  {
    ghost var sidecars := {Path(Staged, Wal), Path(Staged, Shm)};
    ghost var before, began := disk.names, disk.tick;
    fate := Open(disk, Staged);
    AddedIsOnly(Staged, before, disk.names);
    if !fate.Works? { return; }
    ghost var entered, mid := disk.names, disk.tick;
    fate := disk.Check();
    OnlyCompose(sidecars, sidecars, {}, before, entered, disk.names);
    TakenThen(disk.rivals, before, began, entered, mid, disk.names, disk.tick);
    if !fate.Works? { return; }
    ghost var checked, last := disk.names, disk.tick;
    fate := RemoveEmptySidecars(disk, Staged);
    TakenThen(disk.rivals, before, began, checked, last, disk.names, disk.tick);
    OnlyCompose(sidecars, sidecars, sidecars, before, checked, disk.names);
  }

  lemma AddedIsOnly(place: Place, before: Names, after: Names)
    requires Added(place, before, after)
    ensures Only({Path(place, Wal), Path(place, Shm)}, before, after)
  {
    forall path | path in after && path !in {Path(place, Wal), Path(place, Shm)} && path !in before
      ensures path.place.Active? && after[path].Rival?
    {
      assert path == Path(path.place, path.part);
    }
  }

  /** The candidate is copied and validated. */
  method StageFile(disk: Disk, staged: Inode, candidate: string) returns (fate: Fate)
    requires disk.Valid() && STAGED !in disk.names && staged != disk.upgraded && staged.Local?
    modifies disk`names, disk`history, disk`tick, disk`contents
    ensures disk.Valid() && old(disk.history) <= disk.history && disk.Ran(old(disk.tick), fate)
    ensures disk.tick <= old(disk.tick) + 9 && (fate.Works? ==> disk.tick == old(disk.tick) + 9)
    ensures OnlyStaged(old(disk.names), disk.names)
    ensures TakenBy(disk.rivals, old(disk.names), old(disk.tick), disk.names, disk.tick)
    ensures fate.Works? ==> BoundTo(disk.names, STAGED, staged) && staged in disk.contents && disk.contents[staged] == Whole(candidate)
    ensures Says(old(disk.contents), disk.upgraded) == Says(disk.contents, disk.upgraded)
  {
    ghost var before, began := disk.names, disk.tick;
    fate := StageCopy(disk, staged, candidate);
    ghost var copied, mid := disk.names, disk.tick;
    StagedThen({STAGED}, before, before, copied);
    if !fate.Works? { return; }
    fate := ValidateStaged(disk);
    StagedThen({Path(Staged, Wal), Path(Staged, Shm)}, before, copied, disk.names);
    TakenThen(disk.rivals, before, began, copied, mid, disk.names, disk.tick);
  }

  /** Staging the candidate and checking it. */
  method Stage(disk: Disk, staged: Inode, candidate: string) returns (fate: Fate)
    requires disk.Valid() && STAGED !in disk.names && staged != disk.upgraded && staged.Local?
    modifies disk`names, disk`history, disk`tick, disk`contents
    ensures disk.Valid() && old(disk.history) <= disk.history && disk.Ran(old(disk.tick), fate)
    ensures disk.tick <= old(disk.tick) + 10 && (fate.Works? ==> disk.tick == old(disk.tick) + 10)
    ensures OnlyStaged(old(disk.names), disk.names)
    ensures TakenBy(disk.rivals, old(disk.names), old(disk.tick), disk.names, disk.tick)
    ensures fate.Works? ==> BoundTo(disk.names, STAGED, staged) && staged in disk.contents && disk.contents[staged] == Whole(candidate)
    ensures Says(old(disk.contents), disk.upgraded) == Says(disk.contents, disk.upgraded)
  {
    ghost var before, began := disk.names, disk.tick;
    fate := StageFile(disk, staged, candidate);
    if !fate.Works? { return; }
    ghost var swept, mid := disk.names, disk.tick;
    fate := disk.Check(); // require_stopped
    StagedThen({}, before, swept, disk.names);
    TakenThen(disk.rivals, before, began, swept, mid, disk.names, disk.tick);
  }

  // ----- the quarantine

  function Sidecars(orig: Names): nat {
    (if Path(Active, Wal) in orig then 1 else 0) + (if Path(Active, Shm) in orig then 1 else 0)
  }

  /** A sidecar is moved, the other one is where it was. */
  method MoveSidecar(disk: Disk, ghost orig: Names, part: Part) returns (fate: Fate)
    requires disk.Valid() && !part.Main? && PartAside(orig, disk.names, part, false) && Path(Quarantine, part) !in disk.names
    modifies disk`names, disk`history, disk`tick
    ensures disk.Valid() && old(disk.history) <= disk.history && disk.Ran(old(disk.tick), fate)
    ensures Only({Path(Active, part), Path(Quarantine, part)}, old(disk.names), disk.names)
    ensures PartAside(orig, disk.names, part, false) && (fate.Works? ==> PartMoved(orig, disk.names, part))
    ensures disk.tick <= old(disk.tick) + 1
    ensures disk.Alone() ==> disk.tick == old(disk.tick) + if Path(Active, part) in orig then 1 else 0
  {
    fate := MoveAside(disk, part);
    MovedAside(orig, old(disk.names), disk.names, part);
  }

  /** Moving the sidecars into the quarantine. */
  method MoveSidecars(disk: Disk, ghost orig: Names) returns (fate: Fate)
    requires disk.Valid() && Aside(orig, disk.names, false)
    requires forall part: Part :: Path(Quarantine, part) !in disk.names
    modifies disk`names, disk`history, disk`tick
    ensures disk.Valid() && old(disk.history) <= disk.history && disk.Ran(old(disk.tick), fate)
    ensures Only(SIDECARS, old(disk.names), disk.names)
    ensures Aside(orig, disk.names, false) && (fate.Works? ==> Moved(orig, disk.names))
    ensures disk.tick <= old(disk.tick) + 2
    ensures disk.Alone() ==>
      disk.tick <= old(disk.tick) + Sidecars(orig) && (fate.Works? ==> disk.tick == old(disk.tick) + Sidecars(orig))
  {
    ghost var before := disk.names;
    ghost var wal, shm := {Path(Active, Wal), Path(Quarantine, Wal)}, {Path(Active, Shm), Path(Quarantine, Shm)};
    fate := MoveSidecar(disk, orig, Wal);
    StaysAside(orig, wal, before, disk.names, Shm, false);
    OnlyCompose(SIDECARS, wal, {}, before, disk.names, disk.names);
    if !fate.Works? { return; }
    ghost var first := disk.names;
    assert Path(Quarantine, Shm) !in first;
    fate := MoveSidecar(disk, orig, Shm);
    StaysAside(orig, shm, first, disk.names, Wal, false);
    StaysMoved(orig, shm, first, disk.names, Wal);
    OnlyCompose(SIDECARS, wal, shm, before, first, disk.names);
  }

  const SIDECARS: set<Path> := {Path(Active, Wal), Path(Quarantine, Wal), Path(Active, Shm), Path(Quarantine, Shm)}

  /** Moving the active files into the quarantine. */
  method MoveAll(disk: Disk, ghost orig: Names, ghost staged: Inode) returns (fate: Fate)
    requires disk.Valid() && BoundTo(disk.names, ACTIVE, disk.upgraded) && Aside(orig, disk.names, false) && BoundTo(disk.names, STAGED, staged)
    requires forall part: Part :: Path(Quarantine, part) !in disk.names
    modifies disk`names, disk`history, disk`tick
    ensures disk.Valid() && old(disk.history) <= disk.history && disk.Ran(old(disk.tick), fate)
    ensures BoundTo(disk.names, STAGED, staged) && Aside(orig, disk.names, false)
    ensures ACTIVE in disk.names ==> disk.names[ACTIVE] == disk.upgraded || RivalActive(disk.names)
    ensures fate.Works? ==> BoundTo(disk.names, SAVED, disk.upgraded) && Moved(orig, disk.names)
    ensures fate.Works? && ACTIVE in disk.names ==> RivalActive(disk.names)
    ensures !BoundTo(disk.names, SAVED, disk.upgraded) ==> !fate.Works? && disk.tick <= old(disk.tick) + 3 && FaultAt(disk.fates, disk.tick - 1)
    ensures disk.Alone() ==>
      disk.tick <= old(disk.tick) + Sidecars(orig) + 3 && (fate.Works? ==> disk.tick == old(disk.tick) + Sidecars(orig) + 3)
  {
    fate := MoveSidecars(disk, orig);
    if !fate.Works? { return; }
    fate := MoveMain(disk, orig, staged);
  }

  /** The database itself is moved last. */
  method MoveMain(disk: Disk, ghost orig: Names, ghost staged: Inode) returns (fate: Fate)
    requires disk.Valid() && BoundTo(disk.names, ACTIVE, disk.upgraded) && SAVED !in disk.names && BoundTo(disk.names, STAGED, staged)
    requires Aside(orig, disk.names, false) && Moved(orig, disk.names)
    modifies disk`names, disk`history, disk`tick
    ensures disk.Valid() && old(disk.history) <= disk.history && disk.Ran(old(disk.tick), fate)
    ensures BoundTo(disk.names, STAGED, staged) && Aside(orig, disk.names, false) && Moved(orig, disk.names)
    ensures ACTIVE in disk.names ==> disk.names[ACTIVE] == disk.upgraded || RivalActive(disk.names)
    ensures fate.Works? ==> BoundTo(disk.names, SAVED, disk.upgraded)
    ensures fate.Works? && ACTIVE in disk.names ==> RivalActive(disk.names)
    ensures !BoundTo(disk.names, SAVED, disk.upgraded) ==> !fate.Works? && disk.tick <= old(disk.tick) + 1 && FaultAt(disk.fates, disk.tick - 1)
    ensures disk.tick <= old(disk.tick) + 3 && (fate.Works? ==> disk.tick == old(disk.tick) + 3)
  {
    fate := MoveAside(disk, Main);
    StayAside(orig, {ACTIVE, SAVED}, old(disk.names), disk.names, false);
    StayBothMoved(orig, {ACTIVE, SAVED}, old(disk.names), disk.names);
    if !fate.Works? { return; }
    ghost var moved := disk.names;
    fate := Checks(disk, 2); // fsync twice
    StayAside(orig, {}, moved, disk.names, false);
    StayBothMoved(orig, {}, moved, disk.names);
  }

  // ----- publication

  /**
   * With this moment the only fault since the publication: the validation of the published candidate
   * has left its file at this sidecar's path, and the sweep has not removed it.
   */
  predicate Lingers(published: nat, fault: int, part: Part) {
    match part
    case Main => false
    case Wal => published + 3 <= fault < published + 8
    case Shm => published + 4 <= fault < published + 9
  }

  /** `validate_old` of the published file, after two fsyncs and before the service check. */
  method ValidatePublished(disk: Disk) returns (fate: Fate)
    requires disk.Valid() && ACTIVE in disk.names
    modifies disk`names, disk`history, disk`tick
    ensures disk.Valid() && old(disk.history) <= disk.history && disk.Ran(old(disk.tick), fate)
    ensures Added(Active, old(disk.names), disk.names)
    ensures disk.tick <= old(disk.tick) + 6 && (fate.Works? ==> disk.tick == old(disk.tick) + 6)
    ensures disk.Alone() ==>
      var file := old(disk.names)[ACTIVE];
      && LeavesAt(old(disk.names), disk.names, Wal, disk.leavings, file, disk.tick > old(disk.tick) + 3)
      && LeavesAt(old(disk.names), disk.names, Shm, disk.leavings, file, disk.tick > old(disk.tick) + 4)
  {
    fate := Checks(disk, 2);
    if !fate.Works? { return; }
    fate := Open(disk, Active);
    if !fate.Works? { return; }
    fate := Checks(disk, 2);
  }

  /** The checks after publication. */
  method Confirm(disk: Disk) returns (fate: Fate)
    requires disk.Valid() && ACTIVE in disk.names
    modifies disk`names, disk`history, disk`tick
    ensures disk.Valid() && old(disk.history) <= disk.history && disk.Ran(old(disk.tick), fate)
    ensures Only({Path(Active, Wal), Path(Active, Shm)}, old(disk.names), disk.names) && NothingNew(old(disk.names), disk.names)
    ensures disk.tick <= old(disk.tick) + 10 && (fate.Works? ==> disk.tick == old(disk.tick) + 10 && Bare(Active, disk.names))
    ensures disk.Alone() ==> forall part: Part :: !part.Main? && Path(Active, part) !in old(disk.names) ==>
      (LeftAt(disk.names, part) <==>
        Leaves(disk.leavings, old(disk.names)[ACTIVE], part) && Lingers(old(disk.tick), disk.tick - 1, part))
  {
    ghost var sidecars := {Path(Active, Wal), Path(Active, Shm)};
    ghost var before := disk.names;
    fate := ValidatePublished(disk);
    AddedIsOnly(Active, before, disk.names);
    if !fate.Works? { return; }
    ghost var checked := disk.names;
    fate := RemoveEmptySidecars(disk, Active);
    OnlyCompose(sidecars, sidecars, sidecars, before, checked, disk.names);
  }

  /** When the candidate is published in a run without faults or competitors. */
  function PublishedAt(orig: Names, from: nat): nat {
    from + 15 + Sidecars(orig)
  }

  /** Whether a swap that stopped after this moment has left a validation's file at the path. */
  predicate SwapLeaves(names: Names, leavings: Leavings, staged: Inode, published: nat, last: int, part: Part) {
    LeftAt(names, part) <==> Leaves(leavings, staged, part) && Lingers(published, last, part)
  }

  ghost predicate LeftBy(disk: Disk, staged: Inode, published: nat)
    reads disk
  {
    && SwapLeaves(disk.names, disk.leavings, staged, published, disk.tick - 1, Wal)
    && SwapLeaves(disk.names, disk.leavings, staged, published, disk.tick - 1, Shm)
  }

  /** From the quarantine on: move, link, confirm. */
  method Publish(disk: Disk, ghost orig: Names, staged: Inode) returns (fate: Fate, published: bool)
    requires disk.Valid() && BoundTo(disk.names, ACTIVE, disk.upgraded) && BoundTo(disk.names, STAGED, staged)
    requires staged.Local? && staged != disk.upgraded && Aside(orig, disk.names, false) && Untouched(orig)
    requires forall part: Part :: Path(Quarantine, part) !in disk.names
    modifies disk`names, disk`history, disk`tick
    ensures disk.Valid() && old(disk.history) <= disk.history
    ensures EndsAs(disk.fates, old(disk.tick), disk.tick, fate, RivalActive(disk.names))
    ensures MidSwap(orig, disk.names, disk.upgraded, staged, published)
    ensures fate.Works? ==> published && BoundTo(disk.names, SAVED, disk.upgraded) && Bare(Active, disk.names)
    ensures disk.tick > old(disk.tick)
    ensures !BoundTo(disk.names, SAVED, disk.upgraded) ==> !fate.Works? && disk.tick <= old(disk.tick) + 3 && FaultAt(disk.fates, disk.tick - 1)
    ensures disk.Alone() ==> LeftBy(disk, staged, old(disk.tick) + Sidecars(orig) + 4)
    ensures disk.Alone() && fate.Works? ==> disk.tick == old(disk.tick) + Sidecars(orig) + 14
  {
    published := false;
    fate := MoveAll(disk, orig, staged);
    if !fate.Works? { return; }
    fate, published := LinkAndConfirm(disk, orig, staged);
  }

  method LinkAndConfirm(disk: Disk, ghost orig: Names, staged: Inode) returns (fate: Fate, published: bool)
    requires disk.Valid() && BoundTo(disk.names, SAVED, disk.upgraded) && BoundTo(disk.names, STAGED, staged)
    requires staged.Local? && staged != disk.upgraded && Aside(orig, disk.names, false) && Moved(orig, disk.names)
    requires ACTIVE in disk.names ==> RivalActive(disk.names)
    modifies disk`names, disk`history, disk`tick
    ensures disk.Valid() && old(disk.history) <= disk.history
    ensures EndsAs(disk.fates, old(disk.tick), disk.tick, fate, RivalActive(disk.names))
    ensures MidSwap(orig, disk.names, disk.upgraded, staged, published)
    ensures BoundTo(disk.names, SAVED, disk.upgraded)
    ensures fate.Works? ==> published && BoundTo(disk.names, SAVED, disk.upgraded) && Bare(Active, disk.names)
    ensures disk.Alone() ==> LeftBy(disk, staged, old(disk.tick) + 1)
    ensures fate.Works? ==> disk.tick == old(disk.tick) + 11
  {
    published := false;
    fate := disk.Link(STAGED, ACTIVE);
    StayAside(orig, {ACTIVE}, old(disk.names), disk.names, false);
    StayBothMoved(orig, {ACTIVE}, old(disk.names), disk.names);
    if !fate.Works? { return; }
    published := true;
    ghost var linked := disk.names;
    fate := Confirm(disk);
    assert Path(Quarantine, Wal) in linked ==> BoundTo(disk.names, Path(Quarantine, Wal), linked[Path(Quarantine, Wal)]);
    assert Path(Quarantine, Shm) in linked ==> BoundTo(disk.names, Path(Quarantine, Shm), linked[Path(Quarantine, Shm)]);
    MovedIsAside(orig, linked, disk.names, Wal);
    MovedIsAside(orig, linked, disk.names, Shm);
  }

  /** The quarantine is empty, and every active path that was bound still is, to the same inode. */
  predicate NothingMoved(before: Names, after: Names) {
    && (forall part: Part :: Path(Quarantine, part) !in after)
    && (forall part: Part :: Path(Active, part) in before ==> BoundTo(after, Path(Active, part), before[Path(Active, part)]))
  }

  /** Staging touches nothing that is active and puts nothing into the quarantine. */
  lemma StagedOnly(before: Names, after: Names)
    requires OnlyStaged(before, after) && Untouched(before)
    ensures NothingMoved(before, after) && Aside(before, after, false) && SidecarsRestored(before, after)
    ensures forall part: Part :: Path(Quarantine, part) !in after && !LeftAt(after, part)
    ensures ACTIVE in before ==> BoundTo(after, ACTIVE, before[ACTIVE])
    ensures !RivalThere(after) ==> SameState(before, after)
  {
    forall part: Part
      ensures Path(Quarantine, part) !in after && !LeftAt(after, part)
      ensures Path(Active, part) in before ==> BoundTo(after, Path(Active, part), before[Path(Active, part)])
      ensures Path(Active, part) in after && Path(Active, part) !in before ==> RivalAt(after, part)
    {
      assert !Path(Active, part).place.Staged? && !Path(Quarantine, part).place.Staged?;
    }
    if !RivalThere(after) {
      forall part: Part ensures SameAt(before, after, part) {
        match part case Main => case Wal => case Shm =>
      }
    }
  }

  /** While staging, the state of the active paths changes exactly when one of them is taken. */
  lemma SameUnlessTaken(before: Names, after: Names)
    requires OnlyStaged(before, after)
    ensures SameState(before, after) <==> Taken(after) <= Taken(before)
  {
    forall part: Part
      ensures SameAt(before, after, part) <==> (part in Taken(after) ==> part in Taken(before))
    {
      var a := Path(Active, part);
      assert !a.place.Staged?;
      assert a in before ==> BoundTo(after, a, before[a]);
    }
  }

  /** Staging, and the comparison of states: it fails exactly when an active path was taken meanwhile. */
  method StageAndCompare(disk: Disk, staged: Inode, candidate: string) returns (fate: Fate)
    requires disk.Valid() && staged.Local? && staged != disk.upgraded && Untouched(disk.names)
    modifies disk`names, disk`history, disk`tick, disk`contents
    ensures disk.Valid() && old(disk.history) <= disk.history && disk.Went(old(disk.tick), fate)
    ensures disk.tick <= old(disk.tick) + 10 && (fate.Works? ==> disk.tick == old(disk.tick) + 10)
    ensures OnlyStaged(old(disk.names), disk.names)
    ensures fate.Works? ==> BoundTo(disk.names, STAGED, staged) && staged in disk.contents && disk.contents[staged] == Whole(candidate)
    ensures Says(old(disk.contents), disk.upgraded) == Says(disk.contents, disk.upgraded)
    ensures Smooth(disk.fates, old(disk.tick), old(disk.tick) + 10) ==>
      fate == if Disturbed(disk.rivals, old(disk.names), old(disk.tick)) then Raises else Works
  {
    ghost var began := disk.tick;
    var state := disk.names;
    fate := Stage(disk, staged, candidate);
    if !fate.Works? {
      assert FaultAt(disk.fates, disk.tick - 1);
      return;
    }
    WishedIsWanted(disk.rivals, state, began, disk.tick);
    SameUnlessTaken(state, disk.names);
    StagedOnly(state, disk.names);
    if !SameState(state, disk.names) {
      fate := Raises;
    }
  }

  /** Up to the point where the move begins: staging, the comparison of states, the quarantine. */
  method MakeReady(disk: Disk, staged: Inode, candidate: string) returns (fate: Fate)
    requires disk.Valid() && BoundTo(disk.names, ACTIVE, disk.upgraded)
    requires staged.Local? && staged != disk.upgraded && Untouched(disk.names)
    modifies disk`names, disk`history, disk`tick, disk`contents
    ensures disk.Valid() && old(disk.history) <= disk.history && disk.Went(old(disk.tick), fate)
    ensures disk.tick <= old(disk.tick) + 11 && (fate.Works? ==> disk.tick == old(disk.tick) + 11)
    ensures OnlyStaged(old(disk.names), disk.names)
    ensures fate.Works? ==> BoundTo(disk.names, STAGED, staged) && staged in disk.contents && disk.contents[staged] == Whole(candidate)
    ensures Says(old(disk.contents), disk.upgraded) == Says(disk.contents, disk.upgraded)
    ensures Smooth(disk.fates, old(disk.tick), old(disk.tick) + 10) && Disturbed(disk.rivals, old(disk.names), old(disk.tick))
      ==> fate.Raises?
    ensures Smooth(disk.fates, old(disk.tick), old(disk.tick) + 11) && !Disturbed(disk.rivals, old(disk.names), old(disk.tick))
      ==> fate.Works?
  {
    ghost var orig := disk.names;
    fate := StageAndCompare(disk, staged, candidate);
    if !fate.Works? { return; }
    ghost var ready := disk.names;
    fate := disk.Check(); // quarantine.mkdir
    StagedThen({}, orig, ready, disk.names);
    assert !fate.Works? ==> FaultAt(disk.fates, disk.tick - 1);
  }

  /** The body of the `try`. */
  method Swap(disk: Disk, staged: Inode, candidate: string) returns (fate: Fate, progress: Progress)
    requires disk.Valid() && BoundTo(disk.names, ACTIVE, disk.upgraded)
    requires staged.Local? && staged != disk.upgraded && Untouched(disk.names)
    modifies disk`names, disk`history, disk`tick, disk`contents
    ensures disk.Valid() && old(disk.history) <= disk.history && disk.Went(old(disk.tick), fate)
    ensures fate.Raises? && progress.moved && !FaultAt(disk.fates, disk.tick - 1) ==> RivalActive(disk.names)
    ensures !progress.moved ==>
      !progress.published && BoundTo(disk.names, ACTIVE, disk.upgraded) && SidecarsRestored(old(disk.names), disk.names)
    ensures progress.moved ==> MidSwap(old(disk.names), disk.names, disk.upgraded, staged, progress.published)
    ensures fate.Works? ==> progress.moved && progress.published && BoundTo(disk.names, SAVED, disk.upgraded) && Bare(Active, disk.names)
    ensures progress.moved ==> staged in disk.contents && disk.contents[staged] == Whole(candidate)
    ensures disk.upgraded in old(disk.contents) ==>
      disk.upgraded in disk.contents && disk.contents[disk.upgraded] == old(disk.contents)[disk.upgraded]
    ensures !progress.moved ==> OnlyStaged(old(disk.names), disk.names)
    ensures Smooth(disk.fates, old(disk.tick), old(disk.tick) + 10) && Disturbed(disk.rivals, old(disk.names), old(disk.tick)) ==> fate.Raises? && !progress.moved
    ensures Smooth(disk.fates, old(disk.tick), old(disk.tick) + 14) && !Disturbed(disk.rivals, old(disk.names), old(disk.tick)) ==> BoundTo(disk.names, SAVED, disk.upgraded)
    ensures progress.moved <==> disk.tick > old(disk.tick) + 11
    ensures disk.Alone() ==> LeftBy(disk, staged, PublishedAt(old(disk.names), old(disk.tick)))
    ensures disk.Alone() && fate.Works? ==> disk.tick == PublishedAt(old(disk.names), old(disk.tick)) + 10
  {
    ghost var orig := disk.names;
    progress := Progress(false, false);
    fate := MakeReady(disk, staged, candidate);
    StagedOnly(orig, disk.names);
    if !fate.Works? { return; }
    var published;
    fate, published := Publish(disk, orig, staged);
    progress := Progress(true, published);
  }

  /** The `finally` block. */
  method CleanUp(disk: Disk) returns (fate: Fate)
    requires disk.Valid()
    modifies disk`names, disk`history, disk`tick
    ensures disk.Valid() && old(disk.history) <= disk.history && disk.Ran(old(disk.tick), fate)
    ensures OnlyStaged(old(disk.names), disk.names)
    ensures fate.Works? ==> forall part: Part :: Path(Staged, part) !in disk.names
  {
    ghost var before := disk.names;
    fate := disk.Unlink(STAGED);
    StagedThen({STAGED}, before, before, disk.names);
    if !fate.Works? { return; }
    ghost var first := disk.names;
    fate := disk.Unlink(Path(Staged, Wal));
    StagedThen({Path(Staged, Wal)}, before, first, disk.names);
    if !fate.Works? { return; }
    ghost var second := disk.names;
    fate := disk.Unlink(Path(Staged, Shm));
    StagedThen({Path(Staged, Shm)}, before, second, disk.names);
    forall part: Part ensures fate.Works? ==> Path(Staged, part) !in disk.names {
      match part case Main => case Wal => case Shm =>
    }
  }

  /** How a run ends: it returns, only the cleanup failed, it failed (and the handler finished or not), or it was interrupted. */
  datatype Outcome = Returned | CleanupFailed | Failed(handled: bool) | Interrupted

  /**
   * The single fault of a run, at this moment, leaves a sidecar path bound otherwise than before: the
   * candidate's validation has left a file there; or the move had begun, there was no sidecar, and the
   * handler's validation of the upgraded database leaves one.
   */
  predicate Spoils(orig: Names, leavings: Leavings, staged: Inode, upgraded: Inode, from: nat, fault: nat, part: Part) {
    || (Leaves(leavings, staged, part) && Lingers(PublishedAt(orig, from), fault, part))
    || (Leaves(leavings, upgraded, part) && Path(Active, part) !in orig && fault > from + 10)
  }

  /** What the ways to end say about the faults of the run. */
  ghost predicate Explained(outcome: Outcome, fates: Fates, from: nat, to: nat, names: Names) {
    match outcome
    case Returned => Smooth(fates, from, to)
    case CleanupFailed => !Smooth(fates, from, to)
    case Interrupted => FirstFault(fates, from, to, Interrupts)
    case Failed(handled) =>
      && (FirstFault(fates, from, to, Raises) || RivalThere(names))
      && (handled || TwoFaults(fates, from, to) || RivalThere(names))
  }

  /** With a single fault the handler's effect is known from its moment. */
  lemma SpoiledExactly(orig: Names, swapped: Names, names: Names, leavings: Leavings, staged: Inode, upgraded: Inode,
                       from: nat, fault: nat, moved: bool, part: Part)
    requires Untouched(orig) && NoRivals(names) && PartRestored(orig, names, part) && !part.Main?
    requires SwapLeaves(swapped, leavings, staged, PublishedAt(orig, from), fault, part)
    requires moved <==> fault > from + 10
    requires if moved then HandlerLeaves(orig, swapped, names, leavings, upgraded, part) else names == swapped
    ensures SameAt(orig, names, part) <==> !Spoils(orig, leavings, staged, upgraded, from, fault, part)
  {
    RestoredAlone(orig, names, part);
  }

  /** The `try` with its handler. */
  method Attempt(disk: Disk, staged: Inode, candidate: string) returns (fate: Fate, handled: bool)
    requires disk.Valid() && BoundTo(disk.names, ACTIVE, disk.upgraded) && disk.upgraded in disk.contents
    requires Fresh(disk.names, staged) && Untouched(disk.names)
    modifies disk`names, disk`history, disk`tick, disk`contents
    ensures disk.Valid() && old(disk.history) <= disk.history && old(disk.tick) <= disk.tick
    ensures disk.upgraded in disk.contents && disk.contents[disk.upgraded] == old(disk.contents)[disk.upgraded]
    ensures fate.Works? ==>
      && BoundTo(disk.names, ACTIVE, staged) && BoundTo(disk.names, SAVED, disk.upgraded) && Bare(Active, disk.names)
      && staged in disk.contents && disk.contents[staged] == Whole(candidate)
      && Smooth(disk.fates, old(disk.tick), disk.tick)
      && (disk.Alone() ==> disk.tick == PublishedAt(old(disk.names), old(disk.tick)) + 10)
    ensures Smooth(disk.fates, old(disk.tick), old(disk.tick) + 10) && Disturbed(disk.rivals, old(disk.names), old(disk.tick)) ==>
      fate.Raises? && handled && OnlyStaged(old(disk.names), disk.names)
    ensures Smooth(disk.fates, old(disk.tick), old(disk.tick) + 14) && !Disturbed(disk.rivals, old(disk.names), old(disk.tick)) ==> BoundTo(disk.names, SAVED, disk.upgraded)
    ensures fate.Interrupts? ==> FirstFault(disk.fates, old(disk.tick), disk.tick, Interrupts)
    ensures fate.Raises? ==>
      && (FirstFault(disk.fates, old(disk.tick), disk.tick, Raises) || RivalThere(disk.names))
      && (handled || TwoFaults(disk.fates, old(disk.tick), disk.tick) || RivalThere(disk.names))
    ensures fate.Raises? && handled ==>
      RivalActive(disk.names) || (BoundTo(disk.names, ACTIVE, disk.upgraded) && SidecarsRestored(old(disk.names), disk.names))
    ensures disk.Alone() && AtMostOneFault(disk.fates) && fate.Raises? ==>
      && handled && BoundTo(disk.names, ACTIVE, disk.upgraded)
      && forall fault: nat :: FaultAt(disk.fates, fault) ==>
        && (SameAt(old(disk.names), disk.names, Wal) <==>
             !Spoils(old(disk.names), disk.leavings, staged, disk.upgraded, old(disk.tick), fault, Wal))
        && (SameAt(old(disk.names), disk.names, Shm) <==>
             !Spoils(old(disk.names), disk.leavings, staged, disk.upgraded, old(disk.tick), fault, Shm))
  {
    ghost var orig, began := disk.names, disk.tick;
    var progress;
    fate, progress := Swap(disk, staged, candidate);
    ghost var swapped, names := disk.tick, disk.names;
    handled := true;
    if fate.Raises? && progress.moved {
      var recovered := Recover(disk, orig, staged, progress.published);
      handled := recovered.Works?;
      if !handled && FaultAt(disk.fates, swapped - 1) {
        SecondFault(disk.fates, began, swapped, disk.tick, recovered, RivalThere(disk.names));
      }
    }
    if !fate.Works? {
      FailureHasFault(disk.fates, began, swapped, disk.tick, fate, RivalThere(names));
    }
    if disk.Alone() && AtMostOneFault(disk.fates) && fate.Raises? {
      assert FaultAt(disk.fates, swapped - 1);
      SpoiledExactly(orig, names, disk.names, disk.leavings, staged, disk.upgraded, began, swapped - 1, progress.moved, Wal);
      SpoiledExactly(orig, names, disk.names, disk.leavings, staged, disk.upgraded, began, swapped - 1, progress.moved, Shm);
    }
  }

  /**
   * `rollback_cross_schema` from the staging on.  Whatever fails, and whatever a competitor does at
   * free active paths, in every state on the way the upgraded database is reachable and a
   * competitor's file at the active path stays; success and cleanup failure publish the candidate
   * without a sidecar of ours; a failure whose handler finishes puts the upgraded database back unless
   * a competitor holds its path, and its sidecars unless a stray file holds theirs.  Every other
   * ending has its fault, and a run without faults and competitors returns.  Unless a fault comes
   * first, the upgraded file is moved exactly if nobody takes a free active path before the comparison
   * of states; otherwise nothing is moved and the run fails.  With nobody else writing
   * and a single fault, a failure restores each active path exactly unless that fault `Spoils` it.
   */
  method RollbackCrossSchema(disk: Disk, staged: Inode, candidate: string) returns (outcome: Outcome)
    requires disk.Valid() && BoundTo(disk.names, ACTIVE, disk.upgraded) && disk.upgraded in disk.contents
    requires Fresh(disk.names, staged) && Untouched(disk.names)
    modifies disk`names, disk`history, disk`tick, disk`contents
    ensures disk.Valid() && old(disk.history) <= disk.history
    ensures disk.upgraded in disk.contents && disk.contents[disk.upgraded] == old(disk.contents)[disk.upgraded]
    ensures outcome.Returned? || outcome.CleanupFailed? ==>
      && BoundTo(disk.names, ACTIVE, staged) && BoundTo(disk.names, SAVED, disk.upgraded) && Bare(Active, disk.names)
      && staged in disk.contents && disk.contents[staged] == Whole(candidate)
    ensures outcome.Returned? ==> forall part: Part :: Path(Staged, part) !in disk.names
    ensures outcome == Failed(true) ==>
      RivalActive(disk.names) || (BoundTo(disk.names, ACTIVE, disk.upgraded) && SidecarsRestored(old(disk.names), disk.names))
    ensures Smooth(disk.fates, old(disk.tick), old(disk.tick) + 10) && Disturbed(disk.rivals, old(disk.names), old(disk.tick)) ==>
      outcome == Failed(true) && NothingMoved(old(disk.names), disk.names)
    ensures Smooth(disk.fates, old(disk.tick), old(disk.tick) + 14) && !Disturbed(disk.rivals, old(disk.names), old(disk.tick)) ==> BoundTo(disk.names, SAVED, disk.upgraded)
    ensures Explained(outcome, disk.fates, old(disk.tick), disk.tick, disk.names)
    ensures disk.fates == map[] && disk.Alone() ==> outcome.Returned?
    ensures disk.Alone() && (outcome.Returned? || outcome.CleanupFailed?) ==>
      Smooth(disk.fates, old(disk.tick), PublishedAt(old(disk.names), old(disk.tick)) + 10)
    ensures disk.Alone() && AtMostOneFault(disk.fates) && outcome.Failed? ==>
      && outcome.handled && BoundTo(disk.names, ACTIVE, disk.upgraded)
      && forall fault: nat, part: Part :: FaultAt(disk.fates, fault) ==>
        (SameAt(old(disk.names), disk.names, part) <==>
          !Spoils(old(disk.names), disk.leavings, staged, disk.upgraded, old(disk.tick), fault, part))
  {
    ghost var orig, began := disk.names, disk.tick;
    var fate, handled := Attempt(disk, staged, candidate);
    ghost var mid, ended := disk.names, disk.tick;
    var cleaned := CleanUp(disk);
    outcome := match fate
      case Works => if cleaned.Works? then Returned else CleanupFailed
      case Raises => Failed(handled)
      case Interrupts => Interrupted;
    FaultsStay(disk.fates, began, ended, disk.tick);
    CleanUpKeeps(orig, mid, disk.names);
    if OnlyStaged(orig, mid) {
      StayStaged(orig, mid, disk.names);
      StagedOnly(orig, disk.names);
    }
    assert !cleaned.Works? ==> FaultAt(disk.fates, disk.tick - 1);
    if disk.Alone() && AtMostOneFault(disk.fates) && fate.Raises? {
      forall fault: nat, part: Part | FaultAt(disk.fates, fault)
        ensures SameAt(orig, disk.names, part) <==>
          !Spoils(orig, disk.leavings, staged, disk.upgraded, began, fault, part)
      {
        match part case Main => case Wal => case Shm =>
      }
    }
  }

  lemma StayStaged(a: Names, b: Names, c: Names)
    requires OnlyStaged(a, b) && OnlyStaged(b, c)
    ensures OnlyStaged(a, c)
  {
    forall path | path in a && !path.place.Staged? ensures BoundTo(c, path, a[path]) {
      assert BoundTo(b, path, a[path]);
    }
    forall path | path in c && !path.place.Staged? && path !in a ensures path.place.Active? && c[path].Rival? {
      if path in b {
        assert BoundTo(c, path, b[path]);
      }
    }
  }

  lemma CleanUpKeeps(orig: Names, before: Names, after: Names)
    requires OnlyStaged(before, after)
    ensures SidecarsRestored(orig, before) ==> SidecarsRestored(orig, after)
    ensures RivalThere(before) ==> RivalThere(after)
    ensures Bare(Active, before) ==> Bare(Active, after)
    ensures ACTIVE in before ==> BoundTo(after, ACTIVE, before[ACTIVE])
    ensures SAVED in before ==> BoundTo(after, SAVED, before[SAVED])
    ensures NoRivals(after) ==> forall part: Part :: SameAt(orig, before, part) <==> SameAt(orig, after, part)
  {
    if SidecarsRestored(orig, before) {
      StaysRestored(orig, before, after);
    }
    forall part: Part
      ensures Path(Active, part) in before ==> BoundTo(after, Path(Active, part), before[Path(Active, part)])
      ensures Path(Active, part) in after && Path(Active, part) !in before ==> RivalAt(after, part)
    {
      assert !Path(Active, part).place.Staged?;
    }
    assert !SAVED.place.Staged?;
    if NoRivals(after) {
      forall part: Part ensures SameAt(orig, before, part) <==> SameAt(orig, after, part) {
        var a := Path(Active, part);
        assert a in before ==> BoundTo(after, a, before[a]);
        assert a in after ==> a in before;
      }
    }
  }

  // ----- when a single failure restores everything

  /** Neither file makes its validation leave a sidecar where none was: both are in rollback-journal mode, say. */
  predicate LeavesNothingNew(orig: Names, leavings: Leavings, staged: Inode, upgraded: Inode, part: Part) {
    !Leaves(leavings, staged, part) && (Leaves(leavings, upgraded, part) ==> Path(Active, part) in orig)
  }

  /** No moment of a single fault spoils anything exactly if neither validation leaves a new file. */
  lemma SafeExactlyWithoutLeavings(orig: Names, leavings: Leavings, staged: Inode, upgraded: Inode, from: nat)
    ensures (forall fault: nat, part: Part :: !Spoils(orig, leavings, staged, upgraded, from, fault, part))
            <==> (forall part: Part :: LeavesNothingNew(orig, leavings, staged, upgraded, part))
  {
    forall part: Part | !LeavesNothingNew(orig, leavings, staged, upgraded, part)
      ensures Spoils(orig, leavings, staged, upgraded, from, PublishedAt(orig, from) + 5, part)
    {
    }
    forall fault: nat, part: Part | Spoils(orig, leavings, staged, upgraded, from, fault, part)
      ensures !LeavesNothingNew(orig, leavings, staged, upgraded, part)
    {
    }
  }

  /**
   * Nobody else writes and the service check after the validation of the published candidate raises,
   * nothing else: the rollback fails, its handler finishes, and each path is as before exactly if
   * neither validation leaves a new file there.
   */
  method ServiceCheckRaises(names: Names, contents: map<Inode, Content>, leavings: Leavings, staged: Inode, candidate: string)
    returns (disk: Disk, outcome: Outcome)
    requires ACTIVE in names && AllLocal(names) && Untouched(names) && names[ACTIVE] in contents && Fresh(names, staged)
    ensures fresh(disk) && disk.rivals == map[] && disk.leavings == leavings && disk.upgraded == names[ACTIVE]
    ensures disk.fates == map[PublishedAt(names, 0) + 5 := Raises] && NoRivals(disk.names)
    ensures outcome == Failed(true) && BoundTo(disk.names, ACTIVE, names[ACTIVE]) && SidecarsRestored(names, disk.names)
    ensures forall part: Part :: SameAt(names, disk.names, part) <==> LeavesNothingNew(names, leavings, staged, names[ACTIVE], part)
  {
    var fault := PublishedAt(names, 0) + 5;
    disk := new Disk(names, contents, map[fault := Raises], map[], leavings);
    assert FaultAt(disk.fates, fault);
    outcome := RollbackCrossSchema(disk, staged, candidate);
    assert forall part: Part :: SameAt(names, disk.names, part) <==> !Spoils(names, leavings, staged, names[ACTIVE], 0, fault, part);
  }

  /** A candidate in WAL mode: its validation's files stay at the sidecars' paths, and neither sidecar comes back. */
  method ValidatorsFilesStay() returns (disk: Disk, outcome: Outcome)
    ensures fresh(disk) && disk.rivals == map[] && disk.leavings == map[Local(3) := {Wal, Shm}]
    ensures disk.fates == map[22 := Raises] && outcome == Failed(true)
    ensures BoundTo(disk.names, ACTIVE, Local(0)) && LeftAt(disk.names, Wal) && LeftAt(disk.names, Shm)
    ensures BoundTo(disk.names, Path(Quarantine, Wal), Local(1)) && BoundTo(disk.names, Path(Quarantine, Shm), Local(2))
  {
    var names: Names := map[ACTIVE := Local(0), Path(Active, Wal) := Local(1), Path(Active, Shm) := Local(2)];
    disk, outcome := ServiceCheckRaises(names, map[Local(0) := Whole("upgraded")], map[Local(3) := {Wal, Shm}], Local(3), "candidate");
    assert !LeavesNothingNew(names, disk.leavings, Local(3), Local(0), Wal);
    assert !LeavesNothingNew(names, disk.leavings, Local(3), Local(0), Shm);
  }
}
