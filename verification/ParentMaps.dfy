/**
 * Parent maps: every node names at most one parent.  A chain climbs from a node
 * through its parents until it meets a root, leaves the map, or repeats itself.
 * Nothing is assumed of a map: parents may be missing and chains may be cyclic.
 */
module ParentMaps {
  import opened Prelude

  type ParentMap = map<Id, Option<Id>>

  /** The node `k` parents above `n`, if the chain is that long. */
  function Climb(p: ParentMap, n: Id, k: nat): Option<Id>
    decreases k
  {
    if k == 0 then Some(n)
    else if n in p && p[n].Some? then Climb(p, p[n].value, k - 1)
    else None
  }

  ghost predicate OnCycle(p: ParentMap, n: Id) {
    exists k: nat :: k >= 1 && Climb(p, n, k) == Some(n)
  }

  ghost predicate ParentClosed(p: ParentMap) {
    forall n <- p :: p[n].Some? ==> p[n].value in p
  }

  ghost predicate Acyclic(p: ParentMap) {
    forall n <- p :: !OnCycle(p, n)
  }

  /** A set that a chain cannot leave except by leaving the map. */
  ghost predicate ClosedUnderParent(p: ParentMap, s: set<Id>) {
    forall n <- s :: n in p && (p[n].Some? && p[n].value in p ==> p[n].value in s)
  }

  // ----- climbing

  lemma {:induction false} ClimbMore(p: ParentMap, n: Id, j: nat, k: nat)
    ensures Climb(p, n, j + k) ==
            if Climb(p, n, j).Some? then Climb(p, Climb(p, n, j).value, k) else None
    decreases j
  {
    if j > 0 && n in p && p[n].Some? {
      ClimbMore(p, p[n].value, j - 1, k);
    }
  }

  lemma {:induction false} ClimbStaysIn(p: ParentMap, s: set<Id>, n: Id, k: nat)
    requires ClosedUnderParent(p, s) && n in s
    requires Climb(p, n, k).Some? && Climb(p, n, k).value in p
    ensures Climb(p, n, k).value in s
    decreases k
  {
    if k > 0 && p[n].value in p {
      ClimbStaysIn(p, s, p[n].value, k - 1);
    }
  }

  /** Stepping once along a cycle gives a node on the same cycle. */
  lemma CycleRotates(p: ParentMap, n: Id, k: nat)
    requires k >= 1 && Climb(p, n, k) == Some(n)
    ensures n in p && p[n].Some?
    ensures Climb(p, p[n].value, k - 1) == Some(n)
    ensures Climb(p, p[n].value, k) == p[n]
    ensures OnCycle(p, n) && OnCycle(p, p[n].value)
  {
    ClimbMore(p, p[n].value, k - 1, 1);
    assert Climb(p, n, 1) == p[n] by {
      assert Climb(p, p[n].value, 0) == Some(p[n].value);
    }
  }

  /** A chain that enters a closed set from outside never comes back. */
  lemma EnteringClosedSet(p: ParentMap, n: Id, s: set<Id>)
    requires ClosedUnderParent(p, s)
    requires n in p && n !in s && p[n].Some? && p[n].value in s
    ensures !OnCycle(p, n)
  {
    if OnCycle(p, n) {
      var k: nat :| k >= 1 && Climb(p, n, k) == Some(n);
      CycleRotates(p, n, k);
      ClimbStaysIn(p, s, p[n].value, k - 1);
    }
  }

  // ----- trails: the nodes a walk has visited, in order

  /** Distinct nodes of the map, each the parent of the one before it. */
  ghost predicate Trail(p: ParentMap, trail: seq<Id>) {
    && (forall i | 0 <= i < |trail| :: trail[i] in p)
    && (forall i | 0 <= i < |trail| - 1 :: p[trail[i]] == Some(trail[i + 1]))
    && (forall i, j | 0 <= i < j < |trail| :: trail[i] != trail[j])
  }

  /** Where the walk goes next, given where it started. */
  ghost predicate TrailTo(p: ParentMap, start: Id, trail: seq<Id>, next: Option<Id>) {
    && Trail(p, trail)
    && (if trail == [] then next == Some(start) else trail[0] == start && next == p[trail[|trail| - 1]])
  }

  lemma TrailExtends(p: ParentMap, start: Id, trail: seq<Id>, next: Id)
    requires TrailTo(p, start, trail, Some(next)) && next in p && next !in trail
    ensures TrailTo(p, start, trail + [next], p[next])
  {
  }

  lemma {:induction false} TrailClimbs(p: ParentMap, trail: seq<Id>, i: nat, j: nat)
    requires Trail(p, trail) && i <= j < |trail|
    ensures Climb(p, trail[i], j - i) == Some(trail[j])
    decreases j - i
  {
    if i < j {
      TrailClimbs(p, trail, i + 1, j);
    }
  }

  /** If a node of a trail is on a cycle, so is every later one. */
  lemma {:induction false} CycleRunsDownTrail(p: ParentMap, trail: seq<Id>, i: nat, j: nat)
    requires Trail(p, trail) && i <= j < |trail| && OnCycle(p, trail[i])
    ensures OnCycle(p, trail[j])
    decreases j - i
  {
    if i < j {
      var k: nat :| k >= 1 && Climb(p, trail[i], k) == Some(trail[i]);
      CycleRotates(p, trail[i], k);
      CycleRunsDownTrail(p, trail, i + 1, j);
    }
  }

  /** A trail that ends at a root, outside the map or in a closed set has no cyclic node. */
  lemma OpenTrailHasNoCycle(p: ParentMap, start: Id, trail: seq<Id>, next: Option<Id>, done: set<Id>)
    requires TrailTo(p, start, trail, next)
    requires ClosedUnderParent(p, done) && forall n <- trail :: n !in done
    requires next.Some? && next.value in p ==> next.value in done
    ensures forall n <- trail :: !OnCycle(p, n)
    ensures ClosedUnderParent(p, done + (set n | n in trail))
  {
    forall n | n in trail
      ensures !OnCycle(p, n)
    {
      var i :| 0 <= i < |trail| && trail[i] == n;
      if OnCycle(p, n) {
        CycleRunsDownTrail(p, trail, i, |trail| - 1);
        LastNodeIsFree(p, start, trail, next, done);
      }
    }
    OpenTrailCloses(p, start, trail, next, done);
  }

  lemma OpenTrailCloses(p: ParentMap, start: Id, trail: seq<Id>, next: Option<Id>, done: set<Id>)
    requires TrailTo(p, start, trail, next) && ClosedUnderParent(p, done)
    requires next.Some? && next.value in p ==> next.value in done || next.value in trail
    ensures ClosedUnderParent(p, done + (set n | n in trail))
  {
    var all := done + (set n | n in trail);
    forall n | n in all
      ensures n in p && (p[n].Some? && p[n].value in p ==> p[n].value in all)
    {
      if n !in done {
        var i :| 0 <= i < |trail| && trail[i] == n;
        if i + 1 < |trail| {
          assert p[trail[i]] == Some(trail[i + 1]);
        }
      }
    }
  }

  lemma LastNodeIsFree(p: ParentMap, start: Id, trail: seq<Id>, next: Option<Id>, done: set<Id>)
    requires TrailTo(p, start, trail, next) && trail != []
    requires ClosedUnderParent(p, done) && forall n <- trail :: n !in done
    requires next.Some? && next.value in p ==> next.value in done
    ensures !OnCycle(p, trail[|trail| - 1])
  {
    var last := trail[|trail| - 1];
    if OnCycle(p, last) {
      var k: nat :| k >= 1 && Climb(p, last, k) == Some(last);
      CycleRotates(p, last, k);
      CycleRotates(p, p[last].value, k);
      EnteringClosedSet(p, last, done);
    }
  }

  /** A trail whose next node is already on it: the tail from there is a cycle, the head is not. */
  lemma ClosedTrailIsCycle(p: ParentMap, start: Id, trail: seq<Id>, at: nat)
    requires at < |trail| && TrailTo(p, start, trail, Some(trail[at]))
    ensures forall i | 0 <= i < |trail| :: OnCycle(p, trail[i]) <==> at <= i
  {
    forall i: nat | at <= i < |trail|
      ensures OnCycle(p, trail[i])
    {
      var last := |trail| - 1;
      TrailClimbs(p, trail, i, last);
      TrailClimbs(p, trail, at, i);
      ClimbMore(p, trail[i], last - i, 1);
      assert Climb(p, trail[last], 1) == Some(trail[at]) by {
        assert Climb(p, trail[at], 0) == Some(trail[at]);
      }
      ClimbMore(p, trail[i], last - i + 1, i - at);
      assert Climb(p, trail[i], (last - i + 1) + (i - at)) == Some(trail[i]);
    }
    if at > 0 {
      var loop := set n | n in trail[at..];
      assert ClosedUnderParent(p, loop) by {
        forall n | n in loop
          ensures n in p && (p[n].Some? && p[n].value in p ==> p[n].value in loop)
        {
          var i :| 0 <= i < |trail[at..]| && trail[at..][i] == n;
          assert n == trail[at + i];
          if at + i + 1 < |trail| {
            assert p[n].value == trail[at..][i + 1];
          } else {
            assert p[n].value == trail[at..][0];
          }
        }
      }
      assert trail[at] == trail[at..][0];
      EnteringClosedSet(p, trail[at - 1], loop);
      forall i: nat | i < at
        ensures !OnCycle(p, trail[i])
      {
        if OnCycle(p, trail[i]) {
          CycleRunsDownTrail(p, trail, i, at - 1);
        }
      }
    }
  }

  // ----- whole walks

  datatype Walk =
    | ReachesRoot(trail: seq<Id>)
    | LeavesMap(trail: seq<Id>, missing: Id)
    | Repeats(trail: seq<Id>, at: nat)

  /** Where a node stands on a trail that contains it. */
  function IndexOf(trail: seq<Id>, n: Id): (i: nat)
    requires n in trail
    ensures i < |trail| && trail[i] == n
    ensures forall j | 0 <= j < i :: trail[j] != n
  {
    if trail[0] == n then 0 else 1 + IndexOf(trail[1..], n)
  }

  /** The plain walk: climb from `next` until something stops it, remembering the nodes passed. */
  function WalkOn(p: ParentMap, next: Option<Id>, trail: seq<Id>): Walk
    decreases p.Keys - (set n | n in trail)
  {
    if next.None? then ReachesRoot(trail)
    else if next.value !in p then LeavesMap(trail, next.value)
    else if next.value in trail then Repeats(trail, IndexOf(trail, next.value))
    else
      assert next.value in p.Keys - (set n | n in trail);
      WalkOn(p, p[next.value], trail + [next.value])
  }

  function WalkFrom(p: ParentMap, n: Id): Walk {
    WalkOn(p, Some(n), [])
  }

  lemma {:induction false} WalkIsTrail(p: ParentMap, start: Id, next: Option<Id>, trail: seq<Id>)
    requires TrailTo(p, start, trail, next)
    ensures var w := WalkOn(p, next, trail);
            && trail <= w.trail
            && TrailTo(p, start, w.trail,
                       match w case ReachesRoot(_) => None case LeavesMap(_, m) => Some(m)
                               case Repeats(t, at) => if at < |t| then Some(t[at]) else None)
            && (w.LeavesMap? ==> w.missing !in p)
            && (w.Repeats? ==> w.at < |w.trail|)
    decreases p.Keys - (set n | n in trail)
  {
    if next.Some? && next.value in p && next.value !in trail {
      TrailExtends(p, start, trail, next.value);
      assert next.value in p.Keys - (set n | n in trail);
      WalkIsTrail(p, start, p[next.value], trail + [next.value]);
    }
  }

  /** A walk repeats a node exactly when it can reach a cyclic one. */
  lemma WalkRepeatsExactlyIntoCycle(p: ParentMap, n: Id)
    ensures WalkFrom(p, n).Repeats? <==>
            exists k: nat :: Climb(p, n, k).Some? && OnCycle(p, Climb(p, n, k).value)
  {
    WalkIsTrail(p, n, Some(n), []);
    var w := WalkFrom(p, n);
    match w
    case Repeats(trail, at) =>
      ClosedTrailIsCycle(p, n, trail, at);
      TrailClimbs(p, trail, 0, at);
      assert Climb(p, n, at).Some? && OnCycle(p, Climb(p, n, at).value);
    case ReachesRoot(trail) =>
      NoCycleAbove(p, n, trail, None);
    case LeavesMap(trail, missing) =>
      NoCycleAbove(p, n, trail, Some(missing));
  }

  lemma WalkIntoCycleRepeats(p: ParentMap, n: Id, k: nat)
    requires Climb(p, n, k).Some? && OnCycle(p, Climb(p, n, k).value)
    ensures WalkFrom(p, n).Repeats?
  {
    WalkRepeatsExactlyIntoCycle(p, n);
  }

  lemma NoCycleAbove(p: ParentMap, start: Id, trail: seq<Id>, next: Option<Id>)
    requires TrailTo(p, start, trail, next) && (next.None? || next.value !in p)
    ensures forall k: nat :: Climb(p, start, k).Some? ==> !OnCycle(p, Climb(p, start, k).value)
  {
    OpenTrailHasNoCycle(p, start, trail, next, {});
    forall k: nat | Climb(p, start, k).Some?
      ensures !OnCycle(p, Climb(p, start, k).value)
    {
      var m := Climb(p, start, k).value;
      if OnCycle(p, m) {
        var c: nat :| c >= 1 && Climb(p, m, c) == Some(m);
        CycleRotates(p, m, c);
        if trail != [] {
          ClimbStaysIn(p, {} + (set n | n in trail), start, k);
        }
      }
    }
  }

  /** In a closed acyclic map every walk reaches a root. */
  lemma ForestWalksReachRoots(p: ParentMap, n: Id)
    requires ParentClosed(p) && Acyclic(p) && n in p
    ensures WalkFrom(p, n).ReachesRoot?
  {
    WalkIsTrail(p, n, Some(n), []);
    var w := WalkFrom(p, n);
    if w.Repeats? {
      ClosedTrailIsCycle(p, n, w.trail, w.at);
    }
  }

  // ----- depth

  predicate Rooted(p: ParentMap, n: Id) {
    WalkFrom(p, n).ReachesRoot?
  }

  /** How many parents the walk from a rooted node passes. */
  function Depth(p: ParentMap, n: Id): nat {
    var passed := |WalkFrom(p, n).trail|;
    if passed == 0 then 0 else passed - 1
  }

  /** Exactly `k` parents stand between `n` and its root. */
  ghost predicate RootAt(p: ParentMap, n: Id, k: nat) {
    Climb(p, n, k).Some? && Climb(p, n, k).value in p && p[Climb(p, n, k).value] == None
  }

  lemma {:induction false} CycleRunsUp(p: ParentMap, n: Id, k: nat)
    requires OnCycle(p, n) && Climb(p, n, k).Some?
    ensures OnCycle(p, Climb(p, n, k).value)
    decreases k
  {
    if k > 0 {
      var c: nat :| c >= 1 && Climb(p, n, c) == Some(n);
      CycleRotates(p, n, c);
      CycleRunsUp(p, p[n].value, k - 1);
    }
  }

  lemma RootIsUnique(p: ParentMap, n: Id, j: nat, k: nat)
    requires RootAt(p, n, j) && RootAt(p, n, k)
    ensures j == k
  {
    if j < k {
      ClimbMore(p, n, j, k - j);
    } else if k < j {
      ClimbMore(p, n, k, j - k);
    }
  }

  lemma DepthReachesRoot(p: ParentMap, n: Id)
    requires Rooted(p, n)
    ensures n in p && RootAt(p, n, Depth(p, n))
  {
    WalkIsTrail(p, n, Some(n), []);
    var trail := WalkFrom(p, n).trail;
    TrailClimbs(p, trail, 0, |trail| - 1);
  }

  lemma NextIsParent(p: ParentMap, start: Id, trail: seq<Id>, next: Option<Id>, k: nat)
    requires TrailTo(p, start, trail, next) && k < |trail| && next.Some?
    ensures p[trail[k]].Some?
  {
    if k + 1 < |trail| {
      assert p[trail[k]] == Some(trail[k + 1]);
    }
  }

  /** The depth is the length of the chain to the root, and only chains that end have one. */
  lemma DepthIsChainLength(p: ParentMap, n: Id, k: nat)
    requires RootAt(p, n, k)
    ensures Rooted(p, n) && Depth(p, n) == k
  {
    WalkIsTrail(p, n, Some(n), []);
    WalkRepeatsExactlyIntoCycle(p, n);
    var w := WalkFrom(p, n);
    match w
    case ReachesRoot(trail) =>
      DepthReachesRoot(p, n);
      RootIsUnique(p, n, k, Depth(p, n));
    case LeavesMap(trail, missing) =>
      if k < |trail| {
        TrailClimbs(p, trail, 0, k);
        NextIsParent(p, n, trail, Some(missing), k);
      } else {
        if trail != [] {
          TrailClimbs(p, trail, 0, |trail| - 1);
          ClimbMore(p, n, |trail| - 1, 1);
          assert Climb(p, missing, 0) == Some(missing);
        }
        ClimbMore(p, n, |trail|, k - |trail|);
      }
    case Repeats(trail, at) =>
      var j: nat :| Climb(p, n, j).Some? && OnCycle(p, Climb(p, n, j).value);
      var root := Climb(p, n, k).value;
      assert !OnCycle(p, root);
      if j <= k {
        ClimbMore(p, n, j, k - j);
        CycleRunsUp(p, Climb(p, n, j).value, k - j);
      } else {
        ClimbMore(p, n, k, j - k);
      }
  }

  /** The recurrence both source implementations compute. */
  lemma DepthRecurrence(p: ParentMap, n: Id)
    requires n in p
    ensures p[n].None? ==> Rooted(p, n) && Depth(p, n) == 0
    ensures p[n].Some? ==> (Rooted(p, n) <==> Rooted(p, p[n].value))
    ensures p[n].Some? && Rooted(p, n) ==> Depth(p, n) == Depth(p, p[n].value) + 1
  {
    if p[n].None? {
      assert Climb(p, n, 0) == Some(n);
      DepthIsChainLength(p, n, 0);
    } else {
      var m := p[n].value;
      if Rooted(p, m) {
        DepthReachesRoot(p, m);
        assert RootAt(p, n, Depth(p, m) + 1);
        DepthIsChainLength(p, n, Depth(p, m) + 1);
      }
      if Rooted(p, n) {
        DepthReachesRoot(p, n);
        var k := Depth(p, n);
        assert k > 0;
        assert RootAt(p, m, k - 1);
        DepthIsChainLength(p, m, k - 1);
      }
    }
  }
}
