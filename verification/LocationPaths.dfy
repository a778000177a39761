/**
 * Current location paths for the activity page
 * (src/ah_there_it_is/services/activity.py): ancestors are fetched frontier by
 * frontier, then each requested location is walked up to its root.
 */
module LocationPaths {
  import opened Prelude
  import opened ParentMaps

  datatype Location = Location(name: string, parent: Option<Id>)

  type Locations = map<Id, Location>

  datatype Outcome = Paths(paths: map<Id, string>) | HierarchyCycle

  function ParentsOf(db: Locations): ParentMap {
    map n | n in db :: db[n].parent
  }

  /** The names of a trail from the root down, joined by " / ". */
  function PathText(db: Locations, trail: seq<Id>): string {
    if trail == [] then ""
    else
      var name := if trail[0] in db then db[trail[0]].name else "";
      if |trail| == 1 then name else PathText(db, trail[1..]) + " / " + name
  }

  // ----- one round of the fetch

  /** Rows are absorbed one at a time, in the order the query happened to return them. */
  function Absorb(db: Locations, records: Locations, next: set<Id>, rows: seq<Id>): (Locations, set<Id>)
    requires forall n <- rows :: n in db
    decreases |rows|
  {
    if rows == [] then (records, next)
    else
      var n := rows[0];
      var known := records[n := db[n]];
      var wanted := if db[n].parent.Some? && db[n].parent.value !in known then next + {db[n].parent.value} else next;
      Absorb(db, known, wanted, rows[1..])
  }

  /**
   * A round can request only nodes it already holds: the child's row came first, its
   * parent was not yet recorded.  The number of unrecorded nodes alone therefore does
   * not decrease from round to round.
   */
  lemma RoundMayOnlyRefetch()
    ensures var child, root := Id(1), Id(2);
            var db: Locations := map[child := Location("box", Some(root)), root := Location("room", None)];
            var (records, frontier) := Absorb(db, map[], {}, [child, root]);
            records == db && frontier == {root}
  {
    var child, root := Id(1), Id(2);
    var db: Locations := map[child := Location("box", Some(root)), root := Location("room", None)];
    var first: Locations := map[][child := db[child]];
    var both := first[root := db[root]];
    assert root !in first && {} + {root} == {root};
    assert [child, root][1..] == [root] && [root][1..] == [];
    assert Absorb(db, both, {root}, []) == (both, {root});
    assert Absorb(db, first, {root}, [root]) == (both, {root});
    assert Absorb(db, map[], {}, [child, root]) == Absorb(db, first, {root}, [root]);
    assert both == db;
  }

  ghost predicate PartOf(records: Locations, db: Locations) {
    forall n <- records :: n in db && records[n] == db[n]
  }

  /** Every stored parent of a recorded row is recorded or about to be requested. */
  ghost predicate Tracked(db: Locations, records: Locations, frontier: set<Id>) {
    forall n <- records :: records[n].parent.Some? && records[n].parent.value in db ==>
                             records[n].parent.value in records || records[n].parent.value in frontier
  }

  /** Refines the count of unrecorded nodes: what is left to learn from the frontier. */
  ghost function Rank(db: Locations, frontier: set<Id>): nat {
    if frontier == {} then 0 else if frontier !! db.Keys then 1 else 2
  }

  /** What a round leaves behind, whatever the order of its rows. */
  lemma {:induction false} AbsorbFacts(db: Locations, records: Locations, next: set<Id>, rows: seq<Id>)
    requires PartOf(records, db) && (forall n <- rows :: n in db)
    ensures var (known, wanted) := Absorb(db, records, next, rows);
            && PartOf(known, db)
            && (forall n :: n in known <==> n in records || n in rows)
            && next <= wanted
            && (forall n <- rows :: db[n].parent.Some? ==> db[n].parent.value in known || db[n].parent.value in wanted)
            && (forall q <- wanted :: q in next || (q !in records && exists n <- rows :: db[n].parent == Some(q)))
    decreases |rows|
  {
    if rows != [] {
      var n := rows[0];
      var known := records[n := db[n]];
      var wanted := if db[n].parent.Some? && db[n].parent.value !in known then next + {db[n].parent.value} else next;
      AbsorbFacts(db, known, wanted, rows[1..]);
      assert rows == [n] + rows[1..];
      assert n in rows;
    }
  }

  /** One query and the loop over its rows; the rows come back in any order. */
  method FetchRound(db: Locations, before: Locations, asked: set<Id>) returns (records: Locations, next: set<Id>)
    requires asked != {} && PartOf(before, db) && Tracked(db, before, asked)
    ensures PartOf(records, db) && Tracked(db, records, next)
    ensures forall n :: n in records <==> n in before || (n in asked && n in db)
    ensures |db.Keys - records.Keys| < |db.Keys - before.Keys| ||
            (|db.Keys - records.Keys| == |db.Keys - before.Keys| && Rank(db, next) < Rank(db, asked))
  {
    var rows := RowOrder(set n | n in asked && n in db);
    assert forall n <- rows :: n in db;
    records, next := before, {};
    for i := 0 to |rows|
      invariant forall n <- rows[i..] :: n in db
      invariant Absorb(db, records, next, rows[i..]) == Absorb(db, before, {}, rows)
    {
      var n := rows[i];
      assert rows[i..][0] == n && rows[i..][1..] == rows[i + 1..];
      records := records[n := db[n]];
      if db[n].parent.Some? && db[n].parent.value !in records {
        next := next + {db[n].parent.value};
      }
    }
    assert rows[|rows|..] == [];
    AbsorbFacts(db, before, {}, rows);
    RoundMakesProgress(db, before, asked, records, next);
  }

  /** Some order of a set of rows. */
  method RowOrder(rows: set<Id>) returns (order: seq<Id>)
    ensures forall n :: n in order <==> n in rows
  {
    order := [];
    var left := rows;
    while left != {}
      invariant left <= rows && forall n :: n in order <==> n in rows && n !in left
      decreases |left|
    {
      var n := Pick(left);
      order, left := order + [n], left - {n};
    }
  }

  /** `records` once the frontier is exhausted: the requested rows and all their stored ancestors. */
  method FetchAncestors(db: Locations, ids: set<Id>) returns (records: Locations)
    ensures PartOf(records, db)
    ensures forall n <- ids :: n in db ==> n in records
    ensures Tracked(db, records, {})
  {
    records := map[];
    var frontier := ids;
    while frontier != {}
      invariant PartOf(records, db) && Tracked(db, records, frontier)
      invariant forall n <- ids :: n in db ==> n in records || n in frontier
      decreases |db.Keys - records.Keys|, Rank(db, frontier)
    {
      records, frontier := FetchRound(db, records, frontier);
    }
  }

  lemma RoundMakesProgress(db: Locations, before: Locations, asked: set<Id>, records: Locations, next: set<Id>)
    requires asked != {} && PartOf(before, db) && Tracked(db, before, asked)
    requires forall n :: n in records <==> n in before || (n in asked && n in db)
    requires forall q <- next :: q !in before && exists n :: n in asked && n in db && db[n].parent == Some(q)
    ensures |db.Keys - records.Keys| < |db.Keys - before.Keys| ||
            (|db.Keys - records.Keys| == |db.Keys - before.Keys| && Rank(db, next) < Rank(db, asked))
  {
    var left, leftBefore := db.Keys - records.Keys, db.Keys - before.Keys;
    assert left <= leftBefore;
    if novel :| novel in asked && novel in db && novel !in before {
      assert novel in leftBefore && novel !in left;
      SmallerSet(left, leftBefore, novel);
    } else {
      assert forall n :: n in leftBefore ==> n in left;
      assert left == leftBefore;
      forall q | q in next
        ensures q !in db && !(asked !! db.Keys)
      {
        var n :| n in asked && n in db && db[n].parent == Some(q);
        assert n in before;
      }
      assert next !! db.Keys;
    }
  }

  lemma SubsetSize<T>(a: set<T>, b: set<T>)
    requires a <= b
    ensures |a| <= |b|
  {
    assert b == a + (b - a);
  }

  lemma SmallerSet<T>(a: set<T>, b: set<T>, x: T)
    requires a <= b && x in b && x !in a
    ensures |a| < |b|
  {
    SubsetSize(a, b - {x});
  }

  // ----- the walks

  /** Over an ancestor-complete part of the map, walks from known nodes are the same. */
  lemma {:induction false} WalkInPart(db: Locations, records: Locations, next: Option<Id>, trail: seq<Id>)
    requires PartOf(records, db) && Tracked(db, records, {})
    requires next.Some? && next.value in db ==> next.value in records
    ensures WalkOn(ParentsOf(records), next, trail) == WalkOn(ParentsOf(db), next, trail)
    decreases records.Keys - (set n | n in trail)
  {
    if next.Some? && next.value in records && next.value !in trail {
      assert next.value in records.Keys - (set n | n in trail);
      WalkInPart(db, records, records[next.value].parent, trail + [next.value]);
    }
  }

  /** One walk of the second phase. */
  method WalkPath(records: Locations, start: Id) returns (walk: Walk, text: string)
    ensures walk == WalkFrom(ParentsOf(records), start)
    ensures walk.ReachesRoot? ==> text == PathText(records, walk.trail)
  {
    ghost var p := ParentsOf(records);
    var seen: seq<Id> := [];
    var names: seq<string> := [];
    var current := Some(start);
    while current.Some? && current.value in records
      invariant WalkOn(p, current, seen) == WalkFrom(p, start)
      invariant |names| == |seen|
      invariant forall i | 0 <= i < |seen| :: seen[i] in records && names[i] == records[seen[i]].name
      decreases records.Keys - (set n | n in seen)
    {
      if current.value in seen {
        return Repeats(seen, IndexOf(seen, current.value)), "";
      }
      assert current.value in records.Keys - (set n | n in seen);
      seen, names, current := seen + [current.value], names + [records[current.value].name], records[current.value].parent;
    }
    if current.None? {
      text := JoinReversed(names);
      JoinedNames(records, seen, names);
      return ReachesRoot(seen), text;
    }
    return LeavesMap(seen, current.value), "";
  }

  /** `" / ".join(reversed(names))`. */
  method JoinReversed(names: seq<string>) returns (text: string)
    ensures text == Joined(names)
  {
    text := "";
    for i := |names| downto 0
      invariant text == Joined(names[i..])
    {
      assert names[i..][0] == names[i] && names[i..][1..] == names[i + 1..];
      text := if i + 1 == |names| then names[i] else text + " / " + names[i];
    }
    assert names[0..] == names;
  }

  function Joined(names: seq<string>): string {
    if names == [] then ""
    else if |names| == 1 then names[0]
    else Joined(names[1..]) + " / " + names[0]
  }

  lemma {:induction false} JoinedNames(db: Locations, trail: seq<Id>, names: seq<string>)
    requires |names| == |trail|
    requires forall i | 0 <= i < |trail| :: trail[i] in db && names[i] == db[trail[i]].name
    ensures Joined(names) == PathText(db, trail)
  {
    if |trail| > 1 {
      JoinedNames(db, trail[1..], names[1..]);
    }
  }

  lemma {:induction false} SameNamesInPart(db: Locations, records: Locations, trail: seq<Id>)
    requires PartOf(records, db) && forall n <- trail :: n in records
    ensures PathText(records, trail) == PathText(db, trail)
  {
    if |trail| > 1 {
      SameNamesInPart(db, records, trail[1..]);
    }
  }

  /**
   * For every stored map, cyclic or dangling, and every set of requests: a requested chain
   * that enters a cycle raises, a chain that ends at a root gives its path from the root
   * down, and any other request is left out of the result.
   */
  method CurrentLocationPaths(db: Locations, ids: set<Id>) returns (outcome: Outcome)
    ensures outcome.HierarchyCycle? <==> exists n <- ids :: WalkFrom(ParentsOf(db), n).Repeats?
    ensures outcome.Paths? ==>
              && (forall n :: n in outcome.paths <==> n in ids && WalkFrom(ParentsOf(db), n).ReachesRoot?)
              && (forall n <- outcome.paths :: outcome.paths[n] == PathText(db, WalkFrom(ParentsOf(db), n).trail))
  {
    if ids == {} {
      return Paths(map[]);
    }
    var records := FetchAncestors(db, ids);
    var paths: map<Id, string> := map[];
    var pending := ids;
    while pending != {}
      invariant pending <= ids
      invariant forall n <- ids :: n in pending || !WalkFrom(ParentsOf(db), n).Repeats?
      invariant forall n :: n in paths <==> n in ids && n !in pending && WalkFrom(ParentsOf(db), n).ReachesRoot?
      invariant forall n <- paths :: paths[n] == PathText(db, WalkFrom(ParentsOf(db), n).trail)
      decreases |pending|
    {
      var start := Pick(pending);
      var walk, text := WalkPath(records, start);
      WalkInPart(db, records, Some(start), []);
      if walk.Repeats? {
        return HierarchyCycle;
      }
      if walk.ReachesRoot? {
        WalkIsTrail(ParentsOf(records), start, Some(start), []);
        SameNamesInPart(db, records, walk.trail);
        paths := paths[start := text];
      }
      pending := pending - {start};
    }
    return Paths(paths);
  }
}
