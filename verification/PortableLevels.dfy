/**
 * Depths and insertion order of a validated tree
 * (src/ah_there_it_is/storage.py:1767-1819, 1865-1917): rows are inserted level by level so that a
 * parent always precedes its children.
 */
module PortableLevels {
  import opened Prelude
  import opened ParentMaps
  import opened PortableTrees
  import opened Sorting

  type Depths = map<Id, nat>

  ghost predicate Rootable(p: ParentMap) {
    forall n {:trigger Rooted(p, n)} :: n in p ==> Rooted(p, n)
  }

  /** The parent-chain length of every node. */
  function TrueDepths(p: ParentMap): Depths {
    map n | n in p :: Depth(p, n)
  }

  lemma ForestIsRootable(p: ParentMap)
    requires ParentClosed(p) && Acyclic(p)
    ensures Rootable(p)
  {
    forall n | n in p
      ensures Rooted(p, n)
    {
      ForestWalksReachRoots(p, n);
    }
  }

  // ----- the memoised, iterative depth of _write_workspace_tree

  ghost predicate RightSoFar(p: ParentMap, depths: Depths) {
    forall n {:trigger depths[n]} :: n in depths ==> n in p && Rooted(p, n) && depths[n] == Depth(p, n)
  }

  /** One call of the inner function `depth`: climbs to a known depth, then unwinds the trail. */
  method MemoDepth(p: ParentMap, known: Depths, n: Id) returns (depths: Depths)
    requires ParentClosed(p) && Acyclic(p) && n in p && RightSoFar(p, known)
    ensures RightSoFar(p, depths) && n in depths && known.Keys <= depths.Keys
  {
    depths := known;
    var trail: seq<Id> := [];
    var next := Some(n);
    while next.Some? && next.value !in depths
      invariant TrailTo(p, n, trail, next)
      invariant next.Some? ==> next.value in p
      decreases p.Keys - (set m | m in trail)
    {
      if next.value in trail {
        ClosedTrailIsCycle(p, n, trail, IndexOf(trail, next.value));
        assert false;
      }
      TrailExtends(p, n, trail, next.value);
      assert next.value in p.Keys - (set m | m in trail);
      trail, next := trail + [next.value], p[next.value];
    }
    var value := if next.None? then 0 else depths[next.value] + 1;
    for i := |trail| downto 0
      invariant RightSoFar(p, depths) && known.Keys <= depths.Keys
      invariant i < |trail| ==> trail[i] in depths && value == depths[trail[i]] + 1
      invariant i == |trail| && trail != [] ==> value == if next.None? then 0 else depths[next.value] + 1
      invariant forall j | i <= j < |trail| :: trail[j] in depths
    {
      ForestWalksReachRoots(p, trail[i]);
      DepthRecurrence(p, trail[i]);
      depths := depths[trail[i] := value];
      value := value + 1;
    }
  }

  method MemoDepths(p: ParentMap, order: seq<Id>) returns (depths: Depths)
    requires ParentClosed(p) && Acyclic(p) && Enumerates(p, order)
    ensures Rootable(p) && depths == TrueDepths(p)
  {
    ForestIsRootable(p);
    depths := map[];
    for i := 0 to |order|
      invariant RightSoFar(p, depths) && forall j | 0 <= j < i :: order[j] in depths
    {
      depths := MemoDepth(p, depths, order[i]);
    }
    assert forall n :: n in depths <==> n in p;
    assert depths.Keys == p.Keys;
  }

  // ----- the recursive, cached depth of _portable_tree_order

  method CachedDepth(p: ParentMap, cache: Depths, n: Id) returns (value: nat, depths: Depths)
    requires Rootable(p) && ParentClosed(p) && n in p && RightSoFar(p, cache)
    ensures value == Depth(p, n)
    ensures RightSoFar(p, depths) && n in depths && cache.Keys <= depths.Keys
    decreases Depth(p, n)
  {
    if n in cache {
      return cache[n], cache;
    }
    DepthRecurrence(p, n);
    depths := cache;
    if p[n].None? {
      value := 0;
    } else {
      value, depths := CachedDepth(p, cache, p[n].value);
      value := value + 1;
    }
    depths := depths[n := value];
  }

  // ----- batches

  function Flatten<T>(batches: seq<seq<T>>): seq<T> {
    if batches == [] then [] else Flatten(batches[..|batches| - 1]) + batches[|batches| - 1]
  }

  lemma {:induction false} FlattenAppend<T>(a: seq<seq<T>>, b: seq<seq<T>>)
    ensures Flatten(a + b) == Flatten(a) + Flatten(b)
  {
    if b == [] {
      assert a + b == a;
    } else {
      var last := |b| - 1;
      assert (a + b)[..|a + b| - 1] == a + b[..last];
      FlattenAppend(a, b[..last]);
    }
  }

  /** Every batch is full except that the last may be short; none is empty. */
  ghost predicate WellBatched<T>(batches: seq<seq<T>>, size: nat) {
    forall i | 0 <= i < |batches| :: 1 <= |batches[i]| <= size && (i < |batches| - 1 ==> |batches[i]| == size)
  }

  /** `_execute_batched`: the statements sent to the database, in order. */
  method ExecuteBatched<T>(rows: seq<T>, size: nat) returns (batches: seq<seq<T>>)
    requires size >= 1
    ensures Flatten(batches) == rows
    ensures WellBatched(batches, size)
  {
    batches := [];
    var batch: seq<T> := [];
    for i := 0 to |rows|
      invariant |batch| < size && Flatten(batches) + batch == rows[..i]
      invariant forall b <- batches :: |b| == size
    {
      assert rows[..i + 1] == rows[..i] + [rows[i]];
      assert Flatten(batches) + (batch + [rows[i]]) == (Flatten(batches) + batch) + [rows[i]];
      batch := batch + [rows[i]];
      if |batch| == size {
        FlattenPush(batches, batch);
        batches, batch := batches + [batch], [];
      }
    }
    assert rows[..|rows|] == rows;
    if batch != [] {
      FlattenPush(batches, batch);
      batches := batches + [batch];
    }
  }

  lemma FlattenPush<T>(batches: seq<seq<T>>, batch: seq<T>)
    ensures Flatten(batches + [batch]) == Flatten(batches) + batch
  {
    assert (batches + [batch])[..|batches|] == batches;
  }

  // ----- levels

  ghost predicate Covers(depths: Depths, nodes: seq<Node>) {
    forall n <- nodes :: n.id in depths
  }

  predicate HasDepth(depths: Depths, n: Node, d: nat) {
    n.id in depths && depths[n.id] == d
  }

  predicate Shallower(depths: Depths, n: Node, d: nat) {
    n.id in depths && depths[n.id] < d
  }

  function AtLevel(depths: Depths, nodes: seq<Node>, d: nat): seq<Node> {
    if nodes == [] then []
    else
      var front, last := nodes[..|nodes| - 1], nodes[|nodes| - 1];
      if HasDepth(depths, last, d) then AtLevel(depths, front, d) + [last] else AtLevel(depths, front, d)
  }

  /** All nodes of levels below `levels`, level by level, record order within a level. */
  function ByLevel(depths: Depths, nodes: seq<Node>, levels: nat): seq<Node> {
    if levels == 0 then [] else ByLevel(depths, nodes, levels - 1) + AtLevel(depths, nodes, levels - 1)
  }

  lemma {:induction false} AtLevelMembers(depths: Depths, nodes: seq<Node>, d: nat)
    ensures forall n :: n in AtLevel(depths, nodes, d) <==> n in nodes && HasDepth(depths, n, d)
  {
    if nodes != [] {
      var front := nodes[..|nodes| - 1];
      assert nodes == front + [nodes[|nodes| - 1]];
      AtLevelMembers(depths, front, d);
    }
  }

  lemma {:induction false} ByLevelMembers(depths: Depths, nodes: seq<Node>, levels: nat)
    ensures forall n :: n in ByLevel(depths, nodes, levels) <==> n in nodes && Shallower(depths, n, levels)
  {
    if levels > 0 {
      ByLevelMembers(depths, nodes, levels - 1);
      AtLevelMembers(depths, nodes, levels - 1);
    }
  }

  /** The same nodes, each exactly once. */
  ghost predicate Rearranges(a: seq<Node>, b: seq<Node>) {
    DistinctIds(a) && forall n :: n in a <==> n in b
  }

  lemma {:induction false} AtLevelDistinct(depths: Depths, nodes: seq<Node>, d: nat)
    requires DistinctIds(nodes)
    ensures DistinctIds(AtLevel(depths, nodes, d))
  {
    if nodes != [] {
      var front, last := nodes[..|nodes| - 1], nodes[|nodes| - 1];
      AtLevelDistinct(depths, front, d);
      AtLevelMembers(depths, front, d);
      forall n | n in AtLevel(depths, front, d)
        ensures n.id != last.id
      {
        var i :| 0 <= i < |front| && front[i] == n;
        assert nodes[i].id != nodes[|nodes| - 1].id;
      }
    }
  }

  lemma {:induction false} ByLevelDistinct(depths: Depths, nodes: seq<Node>, levels: nat)
    requires DistinctIds(nodes)
    ensures DistinctIds(ByLevel(depths, nodes, levels))
  {
    if levels > 0 {
      var above, level := ByLevel(depths, nodes, levels - 1), AtLevel(depths, nodes, levels - 1);
      ByLevelDistinct(depths, nodes, levels - 1);
      AtLevelDistinct(depths, nodes, levels - 1);
      ByLevelMembers(depths, nodes, levels - 1);
      AtLevelMembers(depths, nodes, levels - 1);
      ConcatDistinct(above, level);
    }
  }

  lemma ConcatDistinct(a: seq<Node>, b: seq<Node>)
    requires DistinctIds(a) && DistinctIds(b) && forall x <- a, y <- b :: x.id != y.id
    ensures DistinctIds(a + b)
  {
    forall i, j | 0 <= i < j < |a + b|
      ensures (a + b)[i].id != (a + b)[j].id
    {
      if i < |a| <= j {
        assert a[i] in a && b[j - |a|] in b;
      }
    }
  }

  /** With enough levels every record is written exactly once. */
  lemma EveryNodeOnce(depths: Depths, nodes: seq<Node>, levels: nat)
    requires DistinctIds(nodes) && forall n <- nodes :: Shallower(depths, n, levels)
    ensures Rearranges(ByLevel(depths, nodes, levels), nodes)
  {
    ByLevelMembers(depths, nodes, levels);
    ByLevelDistinct(depths, nodes, levels);
  }

  /** In level order a parent stands strictly before each of its children. */
  ghost predicate ParentsFirst(rows: seq<Node>) {
    forall j | 0 <= j < |rows| && rows[j].parent.Some? ::
      exists i :: 0 <= i < j && rows[i].id == rows[j].parent.value
  }

  lemma {:induction false} LevelOrderPutsParentsFirst(nodes: seq<Node>, levels: nat)
    requires DistinctIds(nodes) && ParentClosed(Parents(nodes)) && Rootable(Parents(nodes))
    requires Covers(TrueDepths(Parents(nodes)), nodes)
    ensures ParentsFirst(ByLevel(TrueDepths(Parents(nodes)), nodes, levels))
  {
    if levels > 0 {
      var p := Parents(nodes);
      var depths := TrueDepths(p);
      LevelOrderPutsParentsFirst(nodes, levels - 1);
      var before, rows := ByLevel(depths, nodes, levels - 1), ByLevel(depths, nodes, levels);
      forall j | 0 <= j < |rows| && rows[j].parent.Some?
        ensures exists i :: 0 <= i < j && rows[i].id == rows[j].parent.value
      {
        if j < |before| {
          assert rows[j] == before[j];
          var i :| 0 <= i < j && before[i].id == before[j].parent.value;
          assert rows[i].id == rows[j].parent.value;
        } else {
          assert rows[j] == AtLevel(depths, nodes, levels - 1)[j - |before|];
          AtLevelMembers(depths, nodes, levels - 1);
          var i := ParentIsBelow(nodes, levels - 1, rows[j]);
          assert rows[i] == before[i];
        }
      }
    }
  }

  lemma ParentIsBelow(nodes: seq<Node>, d: nat, child: Node) returns (i: nat)
    requires DistinctIds(nodes) && ParentClosed(Parents(nodes)) && Rootable(Parents(nodes))
    requires Covers(TrueDepths(Parents(nodes)), nodes)
    requires child in nodes && child.parent.Some? && TrueDepths(Parents(nodes))[child.id] == d
    ensures var below := ByLevel(TrueDepths(Parents(nodes)), nodes, d);
            i < |below| && below[i].id == child.parent.value
  {
    var depths := TrueDepths(Parents(nodes));
    var below := ByLevel(depths, nodes, d);
    var parent := ParentNode(nodes, child);
    ByLevelMembers(depths, nodes, d);
    assert Shallower(depths, parent, d);
    i :| 0 <= i < |below| && below[i] == parent;
  }

  /** A child's parent is among the nodes, one level up. */
  lemma ParentNode(nodes: seq<Node>, child: Node) returns (parent: Node)
    requires DistinctIds(nodes) && ParentClosed(Parents(nodes)) && Rootable(Parents(nodes))
    requires child in nodes && child.parent.Some? && child.id in Parents(nodes)
    ensures parent in nodes && parent.id == child.parent.value && parent.id in Parents(nodes)
    ensures Depth(Parents(nodes), child.id) == Depth(Parents(nodes), parent.id) + 1
  {
    var c :| 0 <= c < |nodes| && nodes[c] == child;
    ParentsOf(nodes, c);
    IdsAreKeys(nodes);
    assert child.parent.value in Ids(nodes);
    parent :| parent in nodes && parent.id == child.parent.value;
    DepthRecurrence(Parents(nodes), child.id);
  }

  /** One more than the greatest depth, or zero for an empty tree. */
  function LevelCount(depths: Depths, nodes: seq<Node>): (levels: nat) {
    if nodes == [] then 0
    else
      var front, last := nodes[..|nodes| - 1], nodes[|nodes| - 1];
      var rest := LevelCount(depths, front);
      if last.id !in depths || depths[last.id] < rest then rest else depths[last.id] + 1
  }

  lemma {:induction false} LevelCountBounds(depths: Depths, nodes: seq<Node>)
    requires Covers(depths, nodes)
    ensures forall n <- nodes :: Shallower(depths, n, LevelCount(depths, nodes))
    ensures LevelCount(depths, nodes) > 0 ==> exists n <- nodes :: HasDepth(depths, n, LevelCount(depths, nodes) - 1)
  {
    if nodes != [] {
      var front, last := nodes[..|nodes| - 1], nodes[|nodes| - 1];
      LevelCountBounds(depths, front);
      assert nodes == front + [last];
      var levels := LevelCount(depths, nodes);
      if levels == depths[last.id] + 1 {
        assert last in nodes && HasDepth(depths, last, levels - 1);
      } else {
        var n :| n in front && HasDepth(depths, n, levels - 1);
        assert n in nodes;
      }
    }
  }

  lemma CoversAll(nodes: seq<Node>)
    requires Rootable(Parents(nodes))
    ensures Covers(TrueDepths(Parents(nodes)), nodes)
  {
    IdsAreKeys(nodes);
  }

  /**
   * `_write_workspace_tree`: one pass over the records per level, in batches.
   * Nothing is written twice or left out, and no row is sent before its parent.
   */
  method WriteWorkspaceTree(records: seq<Node>, batchSize: nat) returns (log: seq<seq<Node>>)
    requires batchSize >= 1 && DistinctIds(records)
    requires ParentClosed(Parents(records)) && Acyclic(Parents(records))
    ensures Rearranges(Flatten(log), records)
    ensures ParentsFirst(Flatten(log))
    ensures forall b <- log :: 1 <= |b| <= batchSize
    ensures Rootable(Parents(records)) && Covers(TrueDepths(Parents(records)), records)
    ensures var depths := TrueDepths(Parents(records));
            Flatten(log) == ByLevel(depths, records, LevelCount(depths, records))
  {
    IdOrderEnumerates(records);
    var depths := MemoDepths(Parents(records), IdOrder(records));
    CoversAll(records);
    log := [];
    for level := 0 to LevelCount(depths, records)
      invariant Flatten(log) == ByLevel(depths, records, level)
      invariant forall b <- log :: 1 <= |b| <= batchSize
    {
      var batches := ExecuteBatched(AtLevel(depths, records, level), batchSize);
      FlattenAppend(log, batches);
      log := log + batches;
    }
    LevelCountBounds(depths, records);
    EveryNodeOnce(depths, records, LevelCount(depths, records));
    LevelOrderPutsParentsFirst(records, LevelCount(depths, records));
  }

  // ----- the in-memory twin: _portable_tree_order and _portable_tree_levels

  predicate DepthThenId(depths: Depths, a: Node, b: Node) {
    if a.id !in depths then b.id !in depths && a.id.value <= b.id.value
    else b.id !in depths || depths[a.id] < depths[b.id] || (depths[a.id] == depths[b.id] && a.id.value <= b.id.value)
  }

  function TreeOrder(depths: Depths, nodes: seq<Node>): seq<Node> {
    Sort((a, b) => DepthThenId(depths, a, b), nodes)
  }

  lemma TreeOrderFacts(depths: Depths, nodes: seq<Node>)
    requires Covers(depths, nodes)
    ensures multiset(TreeOrder(depths, nodes)) == multiset(nodes)
    ensures Covers(depths, TreeOrder(depths, nodes))
    ensures forall i, j {:trigger TreeOrder(depths, nodes)[i], TreeOrder(depths, nodes)[j]} |
              0 <= i < j < |TreeOrder(depths, nodes)| ::
              DepthThenId(depths, TreeOrder(depths, nodes)[i], TreeOrder(depths, nodes)[j])
  {
    var leq := (a, b) => DepthThenId(depths, a, b);
    SortPermutes(leq, nodes);
    SortSorts(leq, nodes);
    MultisetMembers(TreeOrder(depths, nodes), nodes);
  }

  lemma AllDepthsKnown(nodes: seq<Node>, depths: Depths)
    requires Rootable(Parents(nodes)) && RightSoFar(Parents(nodes), depths) && Covers(depths, nodes)
    ensures depths == TrueDepths(Parents(nodes))
  {
    IdsAreKeys(nodes);
    var p := Parents(nodes);
    forall id
      ensures id in depths <==> id in p
    {
      if id in p {
        assert id in Ids(nodes);
      }
    }
    SameDepths(depths, TrueDepths(p));
  }

  lemma SameDepths(a: Depths, b: Depths)
    requires forall n :: n in a <==> n in b
    requires forall n <- a :: a[n] == b[n]
    ensures a == b
  {
    forall n
      ensures n in a <==> n in b
      ensures n in a ==> a[n] == b[n]
    {
    }
  }

  /** The sort keys of `_portable_tree_order`, from the cached recursive depth. */
  method CachedDepths(nodes: seq<Node>) returns (depths: Depths)
    requires Rootable(Parents(nodes)) && ParentClosed(Parents(nodes))
    ensures RightSoFar(Parents(nodes), depths) && Covers(depths, nodes)
  {
    IdsAreKeys(nodes);
    depths := map[];
    for i := 0 to |nodes|
      invariant RightSoFar(Parents(nodes), depths)
      invariant forall j | 0 <= j < i :: nodes[j].id in depths
    {
      assert nodes[i].id in Ids(nodes);
      var value;
      value, depths := CachedDepth(Parents(nodes), depths, nodes[i].id);
    }
  }

  method PortableTreeOrder(nodes: seq<Node>) returns (order: seq<Node>)
    requires DistinctIds(nodes) && ParentClosed(Parents(nodes)) && Acyclic(Parents(nodes))
    ensures Rootable(Parents(nodes)) && order == TreeOrder(TrueDepths(Parents(nodes)), nodes)
  {
    ForestIsRootable(Parents(nodes));
    var depths := CachedDepths(nodes);
    AllDepthsKnown(nodes, depths);
    order := TreeOrder(depths, nodes);
  }

  /** `_portable_tree_levels`: each node's depth is counted anew by climbing to the root. */
  method PortableTreeLevels(nodes: seq<Node>) returns (levels: seq<seq<Node>>)
    requires DistinctIds(nodes) && ParentClosed(Parents(nodes)) && Acyclic(Parents(nodes))
    ensures Rootable(Parents(nodes)) && Covers(TrueDepths(Parents(nodes)), nodes)
    ensures var depths := TrueDepths(Parents(nodes));
            && |levels| == LevelCount(depths, nodes)
            && forall d: nat | d < |levels| ::
                 && IdsAscend(levels[d]) && Rearranges(levels[d], AtLevel(depths, nodes, d))
  {
    var p := Parents(nodes);
    var order := PortableTreeOrder(nodes);
    CoversAll(nodes);
    TreeOrderFacts(TrueDepths(p), nodes);
    levels := GroupByDepth(p, order);
    DistinctPermutes(nodes, order);
    LevelsOfOrder(TrueDepths(p), nodes, order, levels);
  }

  lemma LevelsOfOrder(depths: Depths, nodes: seq<Node>, order: seq<Node>, levels: seq<seq<Node>>)
    requires Covers(depths, nodes) && Covers(depths, order) && multiset(nodes) == multiset(order)
    requires DistinctIds(order) && forall i, j | 0 <= i < j < |order| :: DepthThenId(depths, order[i], order[j])
    requires |levels| == LevelCount(depths, order)
    requires forall d: nat | d < |levels| :: levels[d] == AtLevel(depths, order, d)
    ensures |levels| == LevelCount(depths, nodes)
    ensures forall d: nat | d < |levels| ::
              IdsAscend(levels[d]) && Rearranges(levels[d], AtLevel(depths, nodes, d))
  {
    LevelCountPermutes(depths, order, nodes);
    forall d: nat | d < |levels|
      ensures IdsAscend(levels[d]) && Rearranges(levels[d], AtLevel(depths, nodes, d))
    {
      MultisetMembers(order, nodes);
      AtLevelMembers(depths, order, d);
      AtLevelMembers(depths, nodes, d);
      AtLevelDistinct(depths, order, d);
      AtLevelSorted(depths, order, d);
    }
  }

  /** The loop of `_portable_tree_levels`, growing the list of levels as deeper nodes come up. */
  method GroupByDepth(p: ParentMap, order: seq<Node>) returns (levels: seq<seq<Node>>)
    requires Rootable(p) && ParentClosed(p) && Covers(TrueDepths(p), order)
    ensures |levels| == LevelCount(TrueDepths(p), order)
    ensures forall d: nat | d < |levels| :: levels[d] == AtLevel(TrueDepths(p), order, d)
  {
    ghost var depths := TrueDepths(p);
    levels := [];
    for i := 0 to |order|
      invariant |levels| == LevelCount(depths, order[..i])
      invariant forall d: nat | d < |levels| :: levels[d] == AtLevel(depths, order[..i], d)
    {
      var node := order[i];
      var nodeDepth := ClimbingDepth(p, node.id);
      while |levels| <= nodeDepth
        invariant LevelCount(depths, order[..i]) <= |levels|
        invariant |levels| == LevelCount(depths, order[..i]) || |levels| <= nodeDepth + 1
        invariant forall d: nat | d < |levels| :: levels[d] == AtLevel(depths, order[..i], d)
      {
        EmptyAbove(depths, order[..i], |levels|);
        levels := levels + [[]];
      }
      assert order[..i + 1][..i] == order[..i] && order[..i + 1][i] == node;
      levels := levels[nodeDepth := levels[nodeDepth] + [node]];
    }
    assert order[..|order|] == order;
  }

  /** The naive inner loop: count parents until there is none. */
  method ClimbingDepth(p: ParentMap, n: Id) returns (depth: nat)
    requires Rootable(p) && ParentClosed(p) && n in p
    ensures depth == Depth(p, n)
  {
    depth := 0;
    var current := n;
    var parent := p[n];
    while parent.Some?
      invariant current in p && parent == p[current]
      invariant depth + Depth(p, current) == Depth(p, n)
      decreases Depth(p, current)
    {
      DepthRecurrence(p, current);
      depth := depth + 1;
      current := parent.value;
      parent := p[current];
    }
    DepthRecurrence(p, current);
  }

  lemma EmptyAbove(depths: Depths, nodes: seq<Node>, d: nat)
    requires Covers(depths, nodes) && LevelCount(depths, nodes) <= d
    ensures AtLevel(depths, nodes, d) == []
  {
    LevelCountBounds(depths, nodes);
    AtLevelMembers(depths, nodes, d);
    assert forall n :: n !in AtLevel(depths, nodes, d);
  }

  lemma LevelCountPermutes(depths: Depths, a: seq<Node>, b: seq<Node>)
    requires Covers(depths, a) && Covers(depths, b) && multiset(a) == multiset(b)
    ensures LevelCount(depths, a) == LevelCount(depths, b)
  {
    MultisetMembers(a, b);
    LevelCountBounds(depths, a);
    LevelCountBounds(depths, b);
  }

  ghost predicate IdsAscend(nodes: seq<Node>) {
    forall i, j | 0 <= i < j < |nodes| :: nodes[i].id.value < nodes[j].id.value
  }

  lemma {:induction false} AtLevelSorted(depths: Depths, order: seq<Node>, d: nat)
    requires DistinctIds(order)
    requires forall i, j | 0 <= i < j < |order| :: DepthThenId(depths, order[i], order[j])
    ensures IdsAscend(AtLevel(depths, order, d))
  {
    if order != [] {
      var front, last := order[..|order| - 1], order[|order| - 1];
      AtLevelSorted(depths, front, d);
      AtLevelMembers(depths, front, d);
      forall n | n in AtLevel(depths, front, d) && HasDepth(depths, last, d)
        ensures n.id.value < last.id.value
      {
        var i :| 0 <= i < |front| && front[i] == n;
        assert DepthThenId(depths, order[i], order[|order| - 1]);
        assert order[i].id != last.id;
      }
    }
  }

  lemma DistinctPermutes(a: seq<Node>, b: seq<Node>)
    requires DistinctIds(a) && multiset(a) == multiset(b)
    ensures DistinctIds(b)
  {
    MultisetMembers(a, b);
    forall i, j | 0 <= i < j < |b|
      ensures b[i].id != b[j].id
    {
      assert b[i] in a && b[j] in a;
      if b[i] == b[j] {
        assert b == b[..j] + [b[j]] + b[j + 1..];
        assert b[i] in b[..j];
        assert multiset(b)[b[j]] >= 2;
        AtMostOnce(a, b[j]);
      }
    }
  }

  lemma {:induction false} AtMostOnce(nodes: seq<Node>, n: Node)
    requires DistinctIds(nodes)
    ensures multiset(nodes)[n] <= 1
  {
    if nodes != [] {
      var front, last := nodes[..|nodes| - 1], nodes[|nodes| - 1];
      assert nodes == front + [last];
      AtMostOnce(front, n);
      assert forall i | 0 <= i < |front| :: front[i].id != last.id;
    }
  }
}
