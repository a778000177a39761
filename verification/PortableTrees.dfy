/**
 * Category and location trees of the portable inventory
 * (src/ah_there_it_is/storage.py:532-591, 834-887): the streamed validator with
 * its memoised cycle search, and the in-memory one without.
 */
module PortableTrees {
  import opened Prelude
  import opened ParentMaps
  import opened Sorting

  /** `timesOk` stands for the timestamp checks of a record. */
  datatype Node = Node(id: Id, parent: Option<Id>, name: string, timesOk: bool)

  datatype TreeError =
    | DuplicateId(id: Id)
    | BlankName(id: Id)
    | BadTimes(id: Id)
    | SelfParent(id: Id)
    | MissingParent(id: Id, parent: Id)
    | DuplicateSibling(previous: Id, id: Id)
    | HierarchyCycle(cycle: seq<Id>)

  /** Name normalisation is an opaque function; a name is blank when nothing is left of it. */
  type Normalize = string -> string

  ghost predicate DistinctIds(nodes: seq<Node>) {
    forall i, j | 0 <= i < j < |nodes| :: nodes[i].id != nodes[j].id
  }

  function Parents(nodes: seq<Node>): ParentMap {
    if nodes == [] then map[]
    else
      var rest := |nodes| - 1;
      Parents(nodes[..rest])[nodes[rest].id := nodes[rest].parent]
  }

  lemma {:induction false} ParentsOf(nodes: seq<Node>, i: nat)
    requires DistinctIds(nodes) && i < |nodes|
    ensures nodes[i].id in Parents(nodes) && Parents(nodes)[nodes[i].id] == nodes[i].parent
  {
    var rest := |nodes| - 1;
    if i < rest {
      ParentsOf(nodes[..rest], i);
    }
  }

  function SiblingKey(normalize: Normalize, n: Node): (Option<Id>, string) {
    (n.parent, normalize(n.name))
  }

  ghost predicate DistinctSiblings(normalize: Normalize, nodes: seq<Node>) {
    forall i, j | 0 <= i < j < |nodes| :: nodes[i].parent == nodes[j].parent ==> normalize(nodes[i].name) != normalize(nodes[j].name)
  }

  /** The checks made on single records. */
  predicate SoundRecord(normalize: Normalize, n: Node) {
    normalize(n.name) != "" && n.timesOk && n.parent != Some(n.id)
  }

  ghost predicate SoundRecords(normalize: Normalize, nodes: seq<Node>) {
    && DistinctIds(nodes)
    && (forall n <- nodes :: SoundRecord(normalize, n))
    && DistinctSiblings(normalize, nodes)
  }

  ghost function Ids(nodes: seq<Node>): set<Id> {
    set n | n in nodes :: n.id
  }

  lemma {:induction false} IdsAreKeys(nodes: seq<Node>)
    ensures Parents(nodes).Keys == Ids(nodes)
  {
    if nodes != [] {
      var rest := |nodes| - 1;
      IdsAreKeys(nodes[..rest]);
      assert nodes == nodes[..rest] + [nodes[rest]];
    }
  }

  /** The ids in record order: the iteration order of the source's dictionaries. */
  function IdOrder(nodes: seq<Node>): seq<Id> {
    seq(|nodes|, i requires 0 <= i < |nodes| => nodes[i].id)
  }

  lemma IdOrderEnumerates(nodes: seq<Node>)
    ensures Enumerates(Parents(nodes), IdOrder(nodes))
  {
    IdsAreKeys(nodes);
    forall id
      ensures id in Ids(nodes) <==> id in IdOrder(nodes)
    {
      if id in Ids(nodes) {
        var n :| n in nodes && n.id == id;
        var i :| 0 <= i < |nodes| && nodes[i] == n;
        assert IdOrder(nodes)[i] == id;
      }
    }
  }

  ghost function SiblingKeys(normalize: Normalize, nodes: seq<Node>): set<(Option<Id>, string)> {
    set n | n in nodes :: SiblingKey(normalize, n)
  }

  lemma NameIsNew(normalize: Normalize, nodes: seq<Node>, n: Node)
    ensures SiblingKey(normalize, n) !in SiblingKeys(normalize, nodes)
            <==> forall i | 0 <= i < |nodes| :: nodes[i].parent == n.parent ==> normalize(nodes[i].name) != normalize(n.name)
  {
    if SiblingKey(normalize, n) !in SiblingKeys(normalize, nodes) {
      forall i | 0 <= i < |nodes| && nodes[i].parent == n.parent ensures normalize(nodes[i].name) != normalize(n.name) {
        assert nodes[i] in nodes && SiblingKey(normalize, nodes[i]) in SiblingKeys(normalize, nodes);
      }
    } else {
      var m :| m in nodes && SiblingKey(normalize, m) == SiblingKey(normalize, n);
    }
  }

  /** One more record keeps a list sound exactly when it passes its own checks against the rest. */
  lemma OneMoreRecord(normalize: Normalize, nodes: seq<Node>, n: Node)
    ensures SoundRecords(normalize, nodes + [n]) <==>
            && SoundRecords(normalize, nodes)
            && n.id !in Ids(nodes) && SoundRecord(normalize, n)
            && SiblingKey(normalize, n) !in SiblingKeys(normalize, nodes)
    ensures Ids(nodes + [n]) == Ids(nodes) + {n.id}
    ensures SiblingKeys(normalize, nodes + [n]) == SiblingKeys(normalize, nodes) + {SiblingKey(normalize, n)}
  {
    NameIsNew(normalize, nodes, n);
    var more := nodes + [n];
    assert forall i | 0 <= i < |nodes| :: more[i] == nodes[i];
    assert more[|nodes|] == n;
    if SoundRecords(normalize, more) {
      assert SoundRecords(normalize, nodes);
    }
  }

  /** What is collected from one record more. */
  lemma OneMoreCollected(normalize: Normalize, nodes: seq<Node>, i: nat)
    requires i < |nodes|
    ensures Ids(nodes[..i + 1]) == Ids(nodes[..i]) + {nodes[i].id}
    ensures SiblingKeys(normalize, nodes[..i + 1]) == SiblingKeys(normalize, nodes[..i]) + {SiblingKey(normalize, nodes[i])}
    ensures Parents(nodes[..i + 1]) == Parents(nodes[..i])[nodes[i].id := nodes[i].parent]
    ensures IdOrder(nodes[..i + 1]) == IdOrder(nodes[..i]) + [nodes[i].id]
  {
    assert nodes[..i + 1] == nodes[..i] + [nodes[i]];
    assert nodes[..i + 1][..i] == nodes[..i];
  }

  /** Scanning one record further, seen from the whole list. */
  lemma NextRecord(normalize: Normalize, nodes: seq<Node>, i: nat)
    requires i < |nodes| && SoundRecords(normalize, nodes[..i])
    ensures var n := nodes[i];
            var passes := n.id !in Ids(nodes[..i]) && SoundRecord(normalize, n)
                          && SiblingKey(normalize, n) !in SiblingKeys(normalize, nodes[..i]);
            (SoundRecords(normalize, nodes[..i + 1]) <==> passes) && (!passes ==> !SoundRecords(normalize, nodes))
    ensures Ids(nodes[..i + 1]) == Ids(nodes[..i]) + {nodes[i].id}
    ensures SiblingKeys(normalize, nodes[..i + 1]) == SiblingKeys(normalize, nodes[..i]) + {SiblingKey(normalize, nodes[i])}
    ensures Parents(nodes[..i + 1]) == Parents(nodes[..i])[nodes[i].id := nodes[i].parent]
    ensures IdOrder(nodes[..i + 1]) == IdOrder(nodes[..i]) + [nodes[i].id]
  {
    OneMoreCollected(normalize, nodes, i);
    assert nodes[..i + 1] == nodes[..i] + [nodes[i]];
    OneMoreRecord(normalize, nodes[..i], nodes[i]);
    if SoundRecords(normalize, nodes) {
      SoundPrefix(normalize, nodes, i + 1);
    }
  }

  lemma SoundPrefix(normalize: Normalize, nodes: seq<Node>, k: nat)
    requires k <= |nodes| && SoundRecords(normalize, nodes)
    ensures SoundRecords(normalize, nodes[..k])
  {
    assert forall i | 0 <= i < k :: nodes[..k][i] == nodes[i];
  }

  /** What a portable tree must be. */
  ghost predicate Forest(normalize: Normalize, nodes: seq<Node>) {
    SoundRecords(normalize, nodes) && ParentClosed(Parents(nodes)) && Acyclic(Parents(nodes))
  }

  // ----- hierarchy verdicts

  predicate LacksParent(p: ParentMap, n: Id)
    requires n in p
  {
    p[n].Some? && p[n].value !in p
  }

  /** The first node, in iteration order, whose plain walk repeats itself. */
  function FirstCycle(p: ParentMap, order: seq<Id>): Option<seq<Id>> {
    if order == [] then None
    else match WalkFrom(p, order[0])
      case Repeats(trail, at) =>
        if at < |trail| then Some(trail[at..] + [trail[at]]) else None
      case _ => FirstCycle(p, order[1..])
  }

  ghost predicate Enumerates(p: ParentMap, order: seq<Id>) {
    forall n :: n in p <==> n in order
  }

  lemma {:induction false} NoFirstCycle(p: ParentMap, order: seq<Id>)
    ensures FirstCycle(p, order).None? <==> forall n <- order :: !WalkFrom(p, n).Repeats?
  {
    if order != [] {
      WalkIsTrail(p, order[0], Some(order[0]), []);
      NoFirstCycle(p, order[1..]);
      assert order[0] in order;
      assert forall n <- order :: n == order[0] || n in order[1..];
    }
  }

  /** A reported cycle really is one: each node is the parent of the one before, back to the first. */
  ghost predicate GenuineCycle(p: ParentMap, cycle: seq<Id>) {
    && |cycle| >= 2 && cycle[0] == cycle[|cycle| - 1]
    && forall i | 0 <= i < |cycle| - 1 :: cycle[i] in p && p[cycle[i]] == Some(cycle[i + 1])
  }

  lemma {:induction false} FirstCycleIsGenuine(p: ParentMap, order: seq<Id>)
    ensures FirstCycle(p, order).Some? ==> GenuineCycle(p, FirstCycle(p, order).value)
  {
    if order != [] {
      WalkIsTrail(p, order[0], Some(order[0]), []);
      if !WalkFrom(p, order[0]).Repeats? {
        FirstCycleIsGenuine(p, order[1..]);
      }
    }
  }

  /** Over a whole map, no walk repeats exactly when no node is on a cycle. */
  lemma WalksRepeatExactlyWhenCyclic(p: ParentMap, order: seq<Id>)
    requires Enumerates(p, order)
    ensures FirstCycle(p, order).None? <==> Acyclic(p)
  {
    NoFirstCycle(p, order);
    forall n | n in p
      ensures OnCycle(p, n) ==> WalkFrom(p, n).Repeats?
    {
      if OnCycle(p, n) {
        WalkIntoCycleRepeats(p, n, 0);
      }
    }
    forall n | n in p && WalkFrom(p, n).Repeats?
      ensures !Acyclic(p)
    {
      WalkRepeatsExactlyIntoCycle(p, n);
      var k: nat :| Climb(p, n, k).Some? && OnCycle(p, Climb(p, n, k).value);
      var m := Climb(p, n, k).value;
      var c: nat :| c >= 1 && Climb(p, m, c) == Some(m);
      CycleRotates(p, m, c);
    }
  }

  /** `_validate_stream_hierarchy`: memoised, each node walked at most once. */
  method ValidateStreamHierarchy(p: ParentMap, order: seq<Id>) returns (error: Option<TreeError>)
    requires Enumerates(p, order)
    ensures error.None? <==> ParentClosed(p) && Acyclic(p)
    ensures error.Some? && ParentClosed(p) ==> FirstCycle(p, order).Some?
                                               && error == Some(HierarchyCycle(FirstCycle(p, order).value))
    ensures !ParentClosed(p) ==> error.Some? && error.value.MissingParent?
                                 && error.value.id in p && p[error.value.id] == Some(error.value.parent)
                                 && error.value.parent !in p
  {
    for i := 0 to |order|
      invariant forall j | 0 <= j < i :: !LacksParent(p, order[j])
    {
      if LacksParent(p, order[i]) {
        return Some(MissingParent(order[i], p[order[i]].value));
      }
    }
    var cycle := MemoisedCycle(p, order);
    return if cycle.Some? then Some(HierarchyCycle(cycle.value)) else None;
  }

  /** The second loop, over parent-closed maps: walks stop at nodes settled earlier. */
  method MemoisedCycle(p: ParentMap, order: seq<Id>) returns (cycle: Option<seq<Id>>)
    requires Enumerates(p, order) && ParentClosed(p)
    ensures cycle == FirstCycle(p, order)
    ensures cycle.None? <==> Acyclic(p)
  {
    WalksRepeatExactlyWhenCyclic(p, order);
    var done: set<Id> := {};
    for i := 0 to |order|
      invariant ClosedUnderParent(p, done) && forall n <- done :: !OnCycle(p, n)
      invariant FirstCycle(p, order) == FirstCycle(p, order[i..])
    {
      var start := order[i];
      assert order[i..][0] == start && order[i..][1..] == order[i + 1..];
      var chain: seq<Id> := [];
      var current := Some(start);
      while current.Some? && current.value !in done
        invariant TrailTo(p, start, chain, current)
        invariant forall n <- chain :: n !in done
        invariant current.Some? ==> current.value in p
        invariant WalkFrom(p, start) == WalkOn(p, current, chain)
        decreases p.Keys - (set n | n in chain)
      {
        if current.value in chain {
          var at := IndexOf(chain, current.value);
          return Some(chain[at..] + [current.value]);
        }
        TrailExtends(p, start, chain, current.value);
        assert current.value in p.Keys - (set n | n in chain);
        chain, current := chain + [current.value], p[current.value];
      }
      OpenTrailHasNoCycle(p, start, chain, current, done);
      done := done + (set n | n in chain);
      SettledWalkDoesNotRepeat(p, start, done);
    }
    assert order[|order|..] == [];
    return None;
  }

  lemma SettledWalkDoesNotRepeat(p: ParentMap, start: Id, done: set<Id>)
    requires ClosedUnderParent(p, done) && (forall n <- done :: !OnCycle(p, n)) && start in done
    ensures !WalkFrom(p, start).Repeats?
  {
    WalkRepeatsExactlyIntoCycle(p, start);
    if WalkFrom(p, start).Repeats? {
      var k: nat :| Climb(p, start, k).Some? && OnCycle(p, Climb(p, start, k).value);
      var m := Climb(p, start, k).value;
      var c: nat :| c >= 1 && Climb(p, m, c) == Some(m);
      CycleRotates(p, m, c);
      ClimbStaysIn(p, done, start, k);
    }
  }

  /** The record-by-record half of the streamed validation. */
  method ValidateStreamTrees(normalize: Normalize, records: seq<Node>)
    returns (error: Option<TreeError>, parents: ParentMap, order: seq<Id>)
    ensures error.None? <==> SoundRecords(normalize, records)
    ensures error.None? ==> parents == Parents(records) && Enumerates(parents, order)
    ensures error.Some? ==> !error.value.MissingParent? && !error.value.HierarchyCycle?
  {
    error, parents, order := None, map[], [];
    var siblings: map<(Option<Id>, string), Id> := map[];
    for i := 0 to |records|
      invariant error.None? && SoundRecords(normalize, records[..i])
      invariant parents == Parents(records[..i]) && parents.Keys == Ids(records[..i])
      invariant order == IdOrder(records[..i])
      invariant siblings.Keys == SiblingKeys(normalize, records[..i])
    {
      var node := records[i];
      error := CheckRecord(normalize, node, parents.Keys, siblings);
      NextRecord(normalize, records, i);
      if error.Some? {
        return;
      }
      parents := parents[node.id := node.parent];
      order := order + [node.id];
      siblings := siblings[SiblingKey(normalize, node) := node.id];
    }
    assert records[..|records|] == records;
    IdOrderEnumerates(records);
  }

  /** The checks of one record against the records before it, in the order the source makes them. */
  method CheckRecord(normalize: Normalize, node: Node, ids: set<Id>, siblings: map<(Option<Id>, string), Id>)
    returns (error: Option<TreeError>)
    ensures error.None? <==>
            && node.id !in ids && SoundRecord(normalize, node) && SiblingKey(normalize, node) !in siblings
    ensures error.Some? ==> !error.value.MissingParent? && !error.value.HierarchyCycle?
  {
    if node.id in ids {
      return Some(DuplicateId(node.id));
    }
    if normalize(node.name) == "" {
      return Some(BlankName(node.id));
    }
    if !node.timesOk {
      return Some(BadTimes(node.id));
    }
    if node.parent == Some(node.id) {
      return Some(SelfParent(node.id));
    }
    var key := SiblingKey(normalize, node);
    if key in siblings {
      return Some(DuplicateSibling(siblings[key], node.id));
    }
    return None;
  }

  /** The whole streamed check of one tree. */
  method ValidateStreamTree(normalize: Normalize, records: seq<Node>) returns (error: Option<TreeError>)
    ensures error.None? <==> Forest(normalize, records)
  {
    var parents, order;
    error, parents, order := ValidateStreamTrees(normalize, records);
    if error.None? {
      error := ValidateStreamHierarchy(parents, order);
    }
  }

  /** `_portable_ids`: no id may occur twice. */
  method PortableIds(nodes: seq<Node>) returns (ids: set<Id>, error: Option<TreeError>)
    ensures error.None? <==> DistinctIds(nodes)
    ensures error.None? ==> ids == Ids(nodes)
    ensures error.Some? ==> error.value.DuplicateId?
  {
    ids := {};
    for i := 0 to |nodes|
      invariant DistinctIds(nodes[..i]) && ids == Ids(nodes[..i])
    {
      assert nodes[..i + 1] == nodes[..i] + [nodes[i]];
      if nodes[i].id in ids {
        return ids, Some(DuplicateId(nodes[i].id));
      }
      ids := ids + {nodes[i].id};
    }
    assert nodes[..|nodes|] == nodes;
    return ids, None;
  }

  /** The per-node loop of `_validate_portable_tree`. */
  method CheckNodes(normalize: Normalize, nodes: seq<Node>, ids: set<Id>) returns (error: Option<TreeError>)
    requires DistinctIds(nodes) && ids == Ids(nodes)
    ensures error.None? <==> SoundRecords(normalize, nodes) && forall n <- nodes :: n.parent.Some? ==> n.parent.value in ids
    ensures error.Some? ==> !error.value.HierarchyCycle?
  {
    var siblings: map<(Option<Id>, string), Id> := map[];
    for i := 0 to |nodes|
      invariant SoundRecords(normalize, nodes[..i])
      invariant forall n <- nodes[..i] :: n.parent.Some? ==> n.parent.value in ids
      invariant siblings.Keys == SiblingKeys(normalize, nodes[..i])
    {
      var node := nodes[i];
      assert nodes[..i + 1] == nodes[..i] + [node];
      NextRecord(normalize, nodes, i);
      IdIsNew(nodes, i);
      if normalize(node.name) == "" {
        return Some(BlankName(node.id));
      }
      if !node.timesOk {
        return Some(BadTimes(node.id));
      }
      if node.parent == Some(node.id) {
        return Some(SelfParent(node.id));
      }
      if node.parent.Some? && node.parent.value !in ids {
        return Some(MissingParent(node.id, node.parent.value));
      }
      var key := SiblingKey(normalize, node);
      if key in siblings {
        return Some(DuplicateSibling(siblings[key], node.id));
      }
      siblings := siblings[key := node.id];
    }
    assert nodes[..|nodes|] == nodes;
    return None;
  }

  lemma IdIsNew(nodes: seq<Node>, i: nat)
    requires DistinctIds(nodes) && i < |nodes|
    ensures nodes[i].id !in Ids(nodes[..i])
  {
    assert forall j | 0 <= j < i :: nodes[..i][j].id != nodes[i].id;
  }

  lemma ClosedMeansParentsListed(nodes: seq<Node>)
    requires DistinctIds(nodes)
    ensures ParentClosed(Parents(nodes)) <==> forall n <- nodes :: n.parent.Some? ==> n.parent.value in Ids(nodes)
  {
    var p := Parents(nodes);
    IdsAreKeys(nodes);
    forall i | 0 <= i < |nodes|
      ensures p[nodes[i].id] == nodes[i].parent
    {
      ParentsOf(nodes, i);
    }
    if ParentClosed(p) {
      forall n | n in nodes && n.parent.Some?
        ensures n.parent.value in Ids(nodes)
      {
        var i :| 0 <= i < |nodes| && nodes[i] == n;
        assert p[nodes[i].id] == n.parent;
      }
    }
  }

  /** `_validate_portable_tree` after `_portable_ids`: the in-memory check, without memoisation. */
  method ValidatePortableTree(normalize: Normalize, nodes: seq<Node>) returns (error: Option<TreeError>)
    ensures error.None? <==> Forest(normalize, nodes)
    ensures error.Some? && error.value.HierarchyCycle? ==> GenuineCycle(Parents(nodes), error.value.cycle)
  {
    var ids;
    ids, error := PortableIds(nodes);
    if error.Some? {
      return;
    }
    ClosedMeansParentsListed(nodes);
    error := CheckNodes(normalize, nodes, ids);
    if error.Some? {
      return;
    }
    IdOrderEnumerates(nodes);
    var cycle := UnmemoisedCycle(Parents(nodes), IdOrder(nodes));
    if cycle.Some? {
      return Some(HierarchyCycle(cycle.value));
    }
  }

  /** The closing loop of `_validate_portable_tree`: every node is walked all the way up. */
  method UnmemoisedCycle(p: ParentMap, order: seq<Id>) returns (cycle: Option<seq<Id>>)
    requires Enumerates(p, order) && ParentClosed(p)
    ensures cycle == FirstCycle(p, order)
    ensures cycle.None? <==> Acyclic(p)
    ensures cycle.Some? ==> GenuineCycle(p, cycle.value)
  {
    WalksRepeatExactlyWhenCyclic(p, order);
    FirstCycleIsGenuine(p, order);
    for i := 0 to |order|
      invariant FirstCycle(p, order) == FirstCycle(p, order[i..])
    {
      var start := order[i];
      assert order[i..][0] == start && order[i..][1..] == order[i + 1..];
      var chain: seq<Id> := [];
      var current := Some(start);
      while current.Some?
        invariant TrailTo(p, start, chain, current)
        invariant current.Some? ==> current.value in p
        invariant WalkFrom(p, start) == WalkOn(p, current, chain)
        decreases p.Keys - (set n | n in chain), current.Some?
      {
        if current.value in chain {
          var at := IndexOf(chain, current.value);
          return Some(chain[at..] + [current.value]);
        }
        TrailExtends(p, start, chain, current.value);
        assert current.value in p.Keys - (set n | n in chain);
        chain, current := chain + [current.value], p[current.value];
      }
    }
    assert order[|order|..] == [];
    return None;
  }
}
