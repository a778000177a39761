/** Cycle discovery of the database doctor (src/ah_there_it_is/database_doctor.py). */
module DatabaseDoctor {
  import opened Prelude
  import opened ParentMaps

  /**
   * Walks up from every node, skipping nodes already settled by an earlier walk.
   * The result is exactly the set of nodes that reach themselves, whatever the
   * map: dangling parents, several cycles and trees hanging off cycles included.
   * The source starts from the nodes in ascending order; any order will do.
   */
  method FindCycles(parents: ParentMap) returns (cycles: set<Id>)
    ensures cycles == set n | n in parents && OnCycle(parents, n)
  {
    cycles := {};
    var done: set<Id> := {};
    var starts := parents.Keys;
    while starts != {}
      invariant starts <= parents.Keys && parents.Keys - starts <= done <= parents.Keys
      invariant ClosedUnderParent(parents, done)
      invariant cycles == set n | n in done && OnCycle(parents, n)
      decreases |starts|
    {
      var start := Pick(starts);
      starts := starts - {start};
      var trail: seq<Id> := [];
      var node := Some(start);
      while node.Some? && node.value in parents && node.value !in done && node.value !in trail
        invariant TrailTo(parents, start, trail, node)
        invariant forall n <- trail :: n !in done
        invariant trail == [] ==> node == Some(start)
        decreases parents.Keys - (set n | n in trail)
      {
        TrailExtends(parents, start, trail, node.value);
        assert node.value in parents.Keys - (set n | n in trail);
        trail, node := trail + [node.value], parents[node.value];
      }
      if node.Some? && node.value in parents && node.value !in done {
        var at := IndexOf(trail, node.value);
        ClosedTrailIsCycle(parents, start, trail, at);
        OpenTrailCloses(parents, start, trail, node, done);
        TailMembers(trail, at);
        cycles := cycles + (set n | n in trail[at..]);
      } else {
        OpenTrailHasNoCycle(parents, start, trail, node, done);
      }
      done := done + (set n | n in trail);
    }
  }

  lemma TailMembers(trail: seq<Id>, at: nat)
    requires at <= |trail|
    ensures forall n :: n in trail[at..] <==> exists i :: at <= i < |trail| && trail[i] == n
  {
    forall i | at <= i < |trail|
      ensures trail[i] in trail[at..]
    {
      assert trail[at..][i - at] == trail[i];
    }
  }
}
