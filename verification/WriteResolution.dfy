/**
 * The identity decision behind every agent write
 * (src/ah_there_it_is/agent/write_resolution.py:23-114): a query names an
 * entity only when exactly one row of the whole database matches it.
 */
module WriteResolution {
  import opened Prelude
  import opened ParentMaps
  import opened LocationPaths

  datatype Kind = Items | Places | Categories | Tags | Media

  datatype AliasRow = AliasRow(item: Id, name: string)

  datatype Db = Db(items: map<Id, string>, aliases: set<AliasRow>, places: Locations, categories: Locations)

  /** Canonicalisation of names, opaque: comparison keys, the path key of a relational phrase, keys of path parts. */
  datatype Naming = Naming(
    key: (Kind, string) -> string,
    relation: string -> Option<string>,
    partKeys: string -> seq<string>)

  // ----- what matches

  /** `_path`: the names from the root down; "" for a chain that dangles or cycles. */
  function NodePath(nodes: Locations, id: Id): string {
    match WalkFrom(ParentsOf(nodes), id)
    case ReachesRoot(trail) =>
      WalkIsTrail(ParentsOf(nodes), id, Some(id), []);
      PathText(nodes, trail)
    case _ => ""
  }

  predicate EndsWith(s: string, suffix: string) {
    |suffix| <= |s| && s[|s| - |suffix|..] == suffix
  }

  function JoinParts(parts: seq<string>): string {
    if parts == [] then "" else if |parts| == 1 then parts[0] else parts[0] + " / " + JoinParts(parts[1..])
  }

  /** The full path a slashed query spells; "" when a part is empty. */
  function SlashedPath(naming: Naming, query: string): string {
    var parts := naming.partKeys(query);
    if "" in parts then "" else JoinParts(parts)
  }

  /** The names from the outside in, with slashes between them. */
  ghost function Spelled(names: seq<string>): string
    requires names != []
  {
    var n := |names| - 1;
    if n == 0 then names[0] else Spelled(names[..n]) + " / " + names[n]
  }

  lemma {:induction false} JoinedIsSpelled(names: seq<string>)
    requires names != []
    ensures JoinParts(names) == Spelled(names)
  {
    var n := |names| - 1;
    if n > 0 {
      JoinedIsSpelled(names[..n]);
      JoinedMore(names[..n], names[n]);
      assert names[..n] + [names[n]] == names;
    }
  }

  lemma {:induction false} JoinedMore(names: seq<string>, last: string)
    requires names != []
    ensures JoinParts(names + [last]) == JoinParts(names) + " / " + last
  {
    if |names| == 1 {
      assert (names + [last])[1..] == [last];
    } else {
      assert (names + [last])[1..] == names[1..] + [last];
      JoinedMore(names[1..], last);
    }
  }

  /** This path leads to the place, from the root or from some place outside it. */
  ghost predicate LeadsTo(full: string, path: string) {
    full == path || exists outer: string :: full == outer + " / " + path
  }

  /** The slashed query names each place on the path. */
  ghost predicate NamesAll(parts: seq<string>, full: string) {
    parts != [] && "" !in parts && full == Spelled(parts)
  }

  /** A phrase matches the places it leads to; any other query the nodes of that name or of that full path. */
  ghost predicate NodeMatches(naming: Naming, nodes: Locations, relation: Option<string>, query: string, identity: string, id: Id) {
    id in nodes &&
    match relation
    case Some(path) => LeadsTo(NodePath(nodes, id), path)
    case None => nodes[id].name == identity || ('/' in identity && NamesAll(naming.partKeys(query), NodePath(nodes, id)))
  }

  lemma PathMatches(naming: Naming, query: string, full: string, path: string)
    ensures LeadsTo(full, path) <==> full == path || EndsWith(full, " / " + path)
    ensures NamesAll(naming.partKeys(query), full) <==> SlashedPath(naming, query) != "" && full == SlashedPath(naming, query)
  {
    EndMatches(full, path);
    PartsMatch(naming.partKeys(query));
  }

  lemma EndMatches(full: string, path: string)
    ensures EndsWith(full, " / " + path) <==> exists outer: string :: full == outer + " / " + path
  {
    var suffix := " / " + path;
    if EndsWith(full, suffix) {
      var outer := full[..|full| - |suffix|];
      assert full == outer + suffix == outer + " / " + path;
    }
    if exists outer: string :: full == outer + " / " + path {
      var outer: string :| full == outer + " / " + path;
      assert full == outer + suffix;
    }
  }

  lemma PartsMatch(parts: seq<string>)
    ensures parts != [] && "" !in parts ==> JoinParts(parts) == Spelled(parts) && Spelled(parts) != ""
  {
    if parts != [] && "" !in parts {
      JoinedIsSpelled(parts);
      assert parts[0] != "";
    }
  }

  function RelationOf(naming: Naming, kind: Kind, query: string): Option<string> {
    if kind.Places? then naming.relation(query) else None
  }

  ghost predicate IsMatch(naming: Naming, db: Db, kind: Kind, query: string, id: Id) {
    var identity := naming.key(kind, query);
    identity != "" &&
    match kind
    case Items => (id in db.items && db.items[id] == identity) || AliasRow(id, identity) in db.aliases
    case Places => NodeMatches(naming, db.places, naming.relation(query), query, identity, id)
    case Categories => NodeMatches(naming, db.categories, None, query, identity, id)
    case _ => false
  }

  /** The query names this entity and no other in the whole database. */
  ghost predicate UniqueMatch(naming: Naming, db: Db, kind: Kind, query: string, id: Id) {
    IsMatch(naming, db, kind, query, id) && forall other :: IsMatch(naming, db, kind, query, other) ==> other == id
  }

  // ----- the decision

  datatype Evidence = CanonicalName | CanonicalAlias | RelationalPath | FullPath

  datatype Decision = Resolved(id: Id, evidence: Evidence) | Ambiguous | NoExactIdentity

  method PathOf(nodes: Locations, id: Id) returns (path: string)
    ensures path == NodePath(nodes, id)
  {
    var walk, text := WalkPath(nodes, id);
    return if walk.ReachesRoot? then text else "";
  }

  /** The comprehension over all nodes, each path walked anew. */
  method MatchingNodes(naming: Naming, nodes: Locations, relation: Option<string>, query: string, identity: string)
    returns (ids: set<Id>)
    ensures forall id :: id in ids <==> NodeMatches(naming, nodes, relation, query, identity, id)
  {
    ids := {};
    var pending := nodes.Keys;
    while pending != {}
      invariant pending <= nodes.Keys
      invariant forall id :: id in ids <==> id in nodes && id !in pending && NodeMatches(naming, nodes, relation, query, identity, id)
      decreases |pending|
    {
      var id := Pick(pending);
      var path := PathOf(nodes, id);
      var matches := match relation
        case Some(wanted) => path == wanted || EndsWith(path, " / " + wanted)
        case None =>
          nodes[id].name == identity
          || ('/' in identity && SlashedPath(naming, query) != "" && path == SlashedPath(naming, query));
      PathMatches(naming, query, path, if relation.Some? then relation.value else "");
      if matches {
        ids := ids + {id};
      }
      pending := pending - {id};
    }
  }

  /** `resolve_with_evidence`: one match, several, or none. */
  method ResolveWithEvidence(naming: Naming, db: Db, kind: Kind, query: string) returns (decision: Decision)
    ensures decision.Resolved? ==> UniqueMatch(naming, db, kind, query, decision.id)
    ensures decision.Ambiguous? <==> exists a, b :: IsMatch(naming, db, kind, query, a) && IsMatch(naming, db, kind, query, b) && a != b
    ensures decision.NoExactIdentity? <==> forall id :: !IsMatch(naming, db, kind, query, id)
    ensures decision.Resolved? && kind.Items? ==>
      && (decision.evidence.CanonicalName? <==> decision.id in db.items && db.items[decision.id] == naming.key(kind, query))
      && (decision.evidence.CanonicalAlias? <==> !decision.evidence.CanonicalName?)
    ensures decision.Resolved? && !kind.Items? ==>
      decision.evidence == if kind.Places? && naming.relation(query).Some? then RelationalPath
                           else if '/' in naming.key(kind, query) then FullPath else CanonicalName
  {
    var identity := naming.key(kind, query);
    if identity == "" {
      return NoExactIdentity;
    }
    var relation := RelationOf(naming, kind, query);
    var direct: set<Id> := {};
    var ids: set<Id> := {};
    match kind {
      case Items =>
        direct := set id | id in db.items && db.items[id] == identity;
        ids := direct + set a | a in db.aliases && a.name == identity :: a.item;
        forall id ensures id in ids <==> IsMatch(naming, db, kind, query, id) {
          assert AliasRow(id, identity) in db.aliases ==> AliasRow(id, identity).item in ids;
        }
      case Places => ids := MatchingNodes(naming, db.places, relation, query, identity);
      case Categories => ids := MatchingNodes(naming, db.categories, None, query, identity);
      case _ => return NoExactIdentity;
    }
    assert forall id :: id in ids <==> IsMatch(naming, db, kind, query, id);
    if ids == {} {
      return NoExactIdentity;
    }
    var id := Pick(ids);
    var rest := ids - {id};
    if rest != {} {
      var other := Pick(rest);
      assert IsMatch(naming, db, kind, query, id) && IsMatch(naming, db, kind, query, other) && other != id;
      return Ambiguous;
    }
    assert ids == {id};
    var evidence := if kind.Items? then (if id in direct then CanonicalName else CanonicalAlias)
      else if relation.Some? then RelationalPath
      else if '/' in identity then FullPath else CanonicalName;
    return Resolved(id, evidence);
  }
}
