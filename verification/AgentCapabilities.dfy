/**
 * What an agent run may read and write
 * (src/ah_there_it_is/agent/tools.py:60-177, 621-1117).  Knowledge is learned
 * from tool results, frozen at the start of each round of calls, and every
 * referenced id is resolved again against the whole database when a write
 * happens.  Inventory operations are arbitrary changes of the database, search
 * returns arbitrary candidates; what an operation does depends on its own arguments.
 */
module AgentCapabilities {
  import opened Prelude
  import opened WriteResolution

  datatype Ref = Ref(kind: Kind, id: Id)

  /** A query that once resolved to an entity. */
  datatype Proof = Proof(ref: Ref, query: string)

  datatype Searched = Searched(kind: Kind, key: string)

  /** `ToolRunState`, or a frozen copy of it. */
  datatype Knowledge = Knowledge(seen: set<Ref>, resolved: set<Ref>, created: set<Ref>, evidence: set<Proof>, searches: set<Searched>)

  const NOTHING := Knowledge({}, {}, {}, {}, {})

  predicate Within(a: Knowledge, b: Knowledge) {
    a.seen <= b.seen && a.resolved <= b.resolved && a.created <= b.created && a.evidence <= b.evidence && a.searches <= b.searches
  }

  /** Resolved ids were seen, and are either created in this run or backed by a query. */
  ghost predicate Sound(k: Knowledge) {
    && k.resolved <= k.seen && k.created <= k.resolved
    && forall ref :: ref in k.resolved && ref !in k.created ==> exists query :: Proof(ref, query) in k.evidence
  }

  /** How search keys are compared before a creation. */
  datatype SearchKeys = SearchKeys(key: (Kind, string) -> string, isPath: string -> bool, signature: string -> seq<string>)

  /** `_require_prior_search`. */
  predicate SearchedBefore(keys: SearchKeys, searches: set<Searched>, kind: Kind, name: string) {
    var key := keys.key(kind, name);
    || Searched(kind, key) in searches
    || (!(kind.Places? && keys.isPath(key)) && keys.signature(key) != []
        && exists s :: s in searches && s.kind == kind && keys.signature(s.key) == keys.signature(key))
  }

  /** The name was looked up: by the same key, or by one with the same words unless a path is named. */
  ghost predicate LookedUp(keys: SearchKeys, searches: set<Searched>, kind: Kind, name: string) {
    exists s :: s in searches && s.kind == kind && SameName(keys, kind, s.key, keys.key(kind, name))
  }

  ghost predicate SameName(keys: SearchKeys, kind: Kind, searched: string, key: string) {
    || searched == key
    || (keys.signature(searched) == keys.signature(key) != [] && (kind == Places ==> !keys.isPath(key)))
  }

  lemma LookedUpIsSearchedBefore(keys: SearchKeys, searches: set<Searched>, kind: Kind, name: string)
    ensures SearchedBefore(keys, searches, kind, name) <==> LookedUp(keys, searches, kind, name)
  {
    var key := keys.key(kind, name);
    if SearchedBefore(keys, searches, kind, name) {
      var s :| s in searches && s.kind == kind && (s.key == key || (keys.signature(key) != []
                 && !(kind.Places? && keys.isPath(key)) && keys.signature(s.key) == keys.signature(key)));
      assert SameName(keys, kind, s.key, key);
    }
    if LookedUp(keys, searches, kind, name) {
      var s :| s in searches && s.kind == kind && SameName(keys, kind, s.key, key);
      assert s.key == key ==> s == Searched(kind, key);
    }
  }

  /** The inventory operations behind the mutating tools, with the ids they are given and their other arguments. */
  datatype Operation =
    | CreateItem(name: string, category: Option<Id>, location: Option<Id>, others: string)
    | UpdateItem(item: Id, category: Option<Id>, others: string)
    | MoveItem(item: Id, target: Id, others: string)
    | TakeItem(item: Id, others: string)
    | MarkLocationUnknown(item: Id)
    | ChangeQuantity(item: Id, others: string)
    | RemoveItem(item: Id, others: string)
    | RestoreItem(item: Id, location: Option<Id>, others: string)
    | AttachPhoto(item: Id, others: string)
    | CreateCategory(name: string, parent: Option<Id>, others: string)
    | CreateLocation(name: string, parent: Option<Id>, others: string)
    | EditPhoto(photo: Id, others: string)
    | UndoLastAction

  function Maybe(kind: Kind, id: Option<Id>): set<Ref> {
    match id
    case Some(known) => {Ref(kind, known)}
    case None => {}
  }

  /** The rows an operation is told to use. */
  function Given(op: Operation): set<Ref> {
    match op
    case CreateItem(_, category, location, _) => Maybe(Categories, category) + Maybe(Places, location)
    case UpdateItem(item, category, _) => {Ref(Items, item)} + Maybe(Categories, category)
    case MoveItem(item, location, _) => {Ref(Items, item), Ref(Places, location)}
    case RestoreItem(item, location, _) => {Ref(Items, item)} + Maybe(Places, location)
    case TakeItem(item, _) => {Ref(Items, item)}
    case MarkLocationUnknown(item) => {Ref(Items, item)}
    case ChangeQuantity(item, _) => {Ref(Items, item)}
    case RemoveItem(item, _) => {Ref(Items, item)}
    case AttachPhoto(item, _) => {Ref(Items, item)}
    case CreateCategory(_, parent, _) => Maybe(Categories, parent)
    case CreateLocation(_, parent, _) => Maybe(Places, parent)
    case EditPhoto(photo, _) => {Ref(Media, photo)}
    case UndoLastAction => {}
  }

  /** The nodes of a created path, from the outside in, those that are new, and the path texts of the others. */
  datatype LocationPath = LocationPath(path: seq<Id>, created: set<Id>, text: map<Id, string>)

  predicate Creates(op: Operation) {
    op.CreateItem? || op.CreateCategory? || op.CreateLocation?
  }

  function CreatedKind(op: Operation): Kind {
    if op.CreateItem? then Items else if op.CreateCategory? then Categories else Places
  }

  function TextOf(outcome: LocationPath, id: Id): string {
    if id in outcome.text then outcome.text[id] else ""
  }

  ghost function NewNodes(outcome: LocationPath): set<Id> {
    set id | id in outcome.path && id in outcome.created
  }

  ghost function OldNodes(outcome: LocationPath): set<Id> {
    set id | id in outcome.path && id !in outcome.created
  }

  /** What an operation does to a database: it fails, or leaves this one and returns a row, or a path. */
  datatype Effect = Fails | Leaves(db: Db, id: Id, outcome: LocationPath)

  predicate CreatesPath(effect: Effect) {
    effect.Leaves? && effect.outcome.created != {}
  }

  type Inventory = (Db, Operation) -> Effect

  /** The calls of an agent, with what the reading services answer. */
  datatype Call =
    | Search(kind: Kind, query: string, found: seq<Id>)
    | ReadSeen(ref: Ref, shown: set<Ref>)              // get, list and history tools
    | ReadResolved(ref: Ref, shown: set<Ref>)          // photo lists and location suggestions
    | Change(op: Operation)

  predicate Mutation(call: Call) {
    call.Change?
  }

  /** A write that happened: the operation, what was frozen for its round, the database it found. */
  datatype Write = Write(op: Operation, frozen: Knowledge, db: Db)

  /** Created earlier in the run, or again the unique match of one of its queries. */
  ghost predicate Backed(naming: Naming, frozen: Knowledge, db: Db, ref: Ref) {
    || ref in frozen.created
    || exists query :: Proof(ref, query) in frozen.evidence && UniqueMatch(naming, db, ref.kind, query, ref.id)
  }

  /** Each row was resolved before the round began and was backed at the moment of the write. */
  ghost predicate Allowed(naming: Naming, frozen: Knowledge, db: Db, refs: set<Ref>) {
    forall ref :: ref in refs ==> ref in frozen.resolved && Backed(naming, frozen, db, ref)
  }

  /** When an operation is let through and succeeds, by what is known, on this database. */
  ghost predicate Permitted(naming: Naming, keys: SearchKeys, inventory: Inventory, k: Knowledge, db: Db, op: Operation) {
    && inventory(db, op).Leaves?
    && match op
       case CreateItem(name, _, _, _) => LookedUp(keys, k.searches, Items, name) && Allowed(naming, k, db, Given(op))
       case CreateCategory(name, _, _) => LookedUp(keys, k.searches, Categories, name) && Allowed(naming, k, db, Given(op))
       case CreateLocation(name, _, _) =>
         && LookedUp(keys, k.searches, Places, name) && Allowed(naming, k, db, Given(op))
         && inventory(db, op).outcome.created != {}
       case EditPhoto(photo, _) => Ref(Media, photo) in k.seen
       case UndoLastAction => true
       case _ => Allowed(naming, k, db, Given(op))
  }

  /** What an operation that succeeded adds to the knowledge. */
  ghost function Gained(known: Knowledge, op: Operation, effect: Effect): Knowledge
    requires effect.Leaves?
  {
    match op
    case CreateItem(_, _, _, _) => WithCreated(known, {Ref(Items, effect.id)})
    case CreateCategory(_, _, _) => WithCreated(known, {Ref(Categories, effect.id)})
    case CreateLocation(_, _, _) =>
      WithReused(WithCreated(known, PlacesOf(NewNodes(effect.outcome))), effect.outcome)
    case AttachPhoto(_, _) => known.(seen := known.seen + {Ref(Media, effect.id)})
    case _ => known
  }

  ghost function WithCreated(known: Knowledge, refs: set<Ref>): Knowledge {
    known.(seen := known.seen + refs, resolved := known.resolved + refs, created := known.created + refs)
  }

  /** The nodes of a path that were there are resolved by their path text. */
  ghost function WithReused(known: Knowledge, outcome: LocationPath): Knowledge {
    var reused := OldNodes(outcome);
    known.(seen := known.seen + PlacesOf(reused), resolved := known.resolved + PlacesOf(reused),
           evidence := known.evidence + PathsOf(outcome.text, reused))
  }

  ghost function PlacesOf(ids: set<Id>): set<Ref> {
    set id | id in ids :: Ref(Places, id)
  }

  ghost function PathsOf(text: map<Id, string>, ids: set<Id>): set<Proof> {
    set id | id in ids :: Proof(Ref(Places, id), if id in text then text[id] else "")
  }

  lemma OnePlaceMore(text: map<Id, string>, ids: set<Id>, id: Id)
    ensures PlacesOf(ids + {id}) == PlacesOf(ids) + {Ref(Places, id)}
    ensures PathsOf(text, ids + {id}) == PathsOf(text, ids) + {Proof(Ref(Places, id), if id in text then text[id] else "")}
  {
    assert forall ref :: ref in PlacesOf(ids) + {Ref(Places, id)} ==> ref.kind == Places && ref.id in ids + {id};
    forall p | p in PathsOf(text, ids) ensures p in PathsOf(text, ids + {id}) {
      assert p.ref.id in ids + {id};
    }
    assert id in ids + {id};
  }

  /** What a search teaches: the rows it found were seen, and the one that matches alone is resolved. */
  ghost function Found(naming: Naming, keys: SearchKeys, known: Knowledge, db: Db, kind: Kind, query: string, found: seq<Id>): Knowledge {
    Searching(keys, known, kind, query, found, set id | id in found && UniqueMatch(naming, db, kind, query, id))
  }

  ghost function Searching(keys: SearchKeys, known: Knowledge, kind: Kind, query: string, found: seq<Id>, unique: set<Id>): Knowledge {
    var key := keys.key(kind, query);
    Knowledge(known.seen + (set id | id in found :: Ref(kind, id)),
              known.resolved + (set id | id in unique :: Ref(kind, id)),
              known.created,
              known.evidence + (set id | id in unique :: Proof(Ref(kind, id), query)),
              known.searches + if key == "" then {} else {Searched(kind, key)})
  }

  lemma UniqueIs(naming: Naming, db: Db, kind: Kind, query: string, found: seq<Id>, one: Option<Id>)
    requires forall id :: UniqueMatch(naming, db, kind, query, id) <==> one == Some(id)
    ensures (set id | id in found && UniqueMatch(naming, db, kind, query, id)) == if one.Some? && one.value in found then {one.value} else {}
  {
  }

  lemma SearchingOne(keys: SearchKeys, known: Knowledge, kind: Kind, query: string, found: seq<Id>, id: Id)
    requires id in found
    ensures var none, one := Searching(keys, known, kind, query, found, {}), Searching(keys, known, kind, query, found, {id});
            one == none.(seen := none.seen + {Ref(kind, id)}, resolved := none.resolved + {Ref(kind, id)},
                         evidence := none.evidence + {Proof(Ref(kind, id), query)})
  {
  }

  /** The path as far as its first nodes. */
  ghost function Upto(outcome: LocationPath, n: nat): LocationPath
    requires n <= |outcome.path|
  {
    outcome.(path := outcome.path[..n])
  }

  lemma NodesMore(outcome: LocationPath, i: nat)
    requires i < |outcome.path|
    ensures var id, some, more := outcome.path[i], Upto(outcome, i), Upto(outcome, i + 1);
            if id in outcome.created then NewNodes(more) == NewNodes(some) + {id} && OldNodes(more) == OldNodes(some)
            else NewNodes(more) == NewNodes(some) && OldNodes(more) == OldNodes(some) + {id}
  {
    assert outcome.path[..i + 1] == outcome.path[..i] + [outcome.path[i]];
  }

  lemma OneNodeMore(known: Knowledge, outcome: LocationPath, i: nat)
    requires i < |outcome.path|
    ensures var before := WithReused(WithCreated(known, PlacesOf(NewNodes(Upto(outcome, i)))), Upto(outcome, i));
            var after := WithReused(WithCreated(known, PlacesOf(NewNodes(Upto(outcome, i + 1)))), Upto(outcome, i + 1));
            var id := outcome.path[i];
            if id in outcome.created then after == WithCreated(before, {Ref(Places, id)})
            else after == before.(seen := before.seen + {Ref(Places, id)}, resolved := before.resolved + {Ref(Places, id)},
                                  evidence := before.evidence + {Proof(Ref(Places, id), if id in outcome.text then outcome.text[id] else "")})
  {
    NodesMore(outcome, i);
    var created, reused := PlacesOf(NewNodes(Upto(outcome, i))), PlacesOf(OldNodes(Upto(outcome, i)));
    var id, text := outcome.path[i], outcome.text;
    if id in outcome.created {
      OnePlaceMore(text, NewNodes(Upto(outcome, i)), id);
      CreatedOne(known, created, reused, PathsOf(text, OldNodes(Upto(outcome, i))), Ref(Places, id));
    } else {
      OnePlaceMore(text, OldNodes(Upto(outcome, i)), id);
      ReusedOne(known, created, reused, PathsOf(text, OldNodes(Upto(outcome, i))),
                Ref(Places, id), Proof(Ref(Places, id), if id in text then text[id] else ""));
    }
  }

  ghost function Both(known: Knowledge, created: set<Ref>, reused: set<Ref>, proofs: set<Proof>): Knowledge {
    known.(seen := known.seen + created + reused, resolved := known.resolved + created + reused,
           created := known.created + created, evidence := known.evidence + proofs)
  }

  lemma CreatedOne(known: Knowledge, created: set<Ref>, reused: set<Ref>, proofs: set<Proof>, x: Ref)
    ensures Both(known, created + {x}, reused, proofs) == WithCreated(Both(known, created, reused, proofs), {x})
  {
    assert known.seen + (created + {x}) + reused == known.seen + created + reused + {x};
    assert known.resolved + (created + {x}) + reused == known.resolved + created + reused + {x};
  }

  lemma ReusedOne(known: Knowledge, created: set<Ref>, reused: set<Ref>, proofs: set<Proof>, x: Ref, proof: Proof)
    ensures var before := Both(known, created, reused, proofs);
            Both(known, created, reused + {x}, proofs + {proof})
            == before.(seen := before.seen + {x}, resolved := before.resolved + {x}, evidence := before.evidence + {proof})
  {
  }

  ghost predicate Justified(naming: Naming, w: Write) {
    Allowed(naming, w.frozen, w.db, Given(w.op))
  }

  /** A round: what was known when it began, and the number of writes before it. */
  datatype Round = Round(known: Knowledge, first: nat)

  /** The writes of round j of these. */
  predicate InRound(rounds: seq<Round>, j: nat, k: nat)
    requires j < |rounds|
  {
    rounds[j].first <= k && (j + 1 < |rounds| ==> k < rounds[j + 1].first)
  }

  /** Every write belongs to a round and relied on what was known when that round began. */
  ghost predicate OwnRounds(rounds: seq<Round>, writes: seq<Write>) {
    && (rounds == [] ==> writes == [])
    && (rounds != [] ==> rounds[0].first == 0)
    && (forall j :: 0 <= j < |rounds| ==> rounds[j].first <= |writes|)
    && (forall j :: 0 <= j < |rounds| - 1 ==> rounds[j].first <= rounds[j + 1].first && Within(rounds[j].known, rounds[j + 1].known))
    && (forall j, k :: 0 <= j < |rounds| && 0 <= k < |writes| && InRound(rounds, j, k) ==> writes[k].frozen == rounds[j].known)
  }

  /** What was searched for may be created, by any name with that key; a run that has searched for nothing creates nothing. */
  lemma SearchAllowsCreation(naming: Naming, keys: SearchKeys, inventory: Inventory, known: Knowledge, searchedDb: Db, db: Db,
                             query: string, found: seq<Id>, op: Operation)
    requires op.CreateItem? && op.category.None? && op.location.None? && inventory(db, op).Leaves?
    requires keys.key(Items, query) == keys.key(Items, op.name) != ""
    ensures Permitted(naming, keys, inventory, Found(naming, keys, known, searchedDb, Items, query, found), db, op)
    ensures !Permitted(naming, keys, inventory, NOTHING, db, op)
  {
    var learned := Found(naming, keys, known, searchedDb, Items, query, found);
    var s := Searched(Items, keys.key(Items, query));
    assert s in learned.searches && SameName(keys, Items, s.key, keys.key(Items, op.name));
    assert Given(op) == {};
  }

  /** The one row a search found by its exact identity may be changed while it still has it alone. */
  lemma MatchAllowsChange(naming: Naming, keys: SearchKeys, inventory: Inventory, known: Knowledge, searchedDb: Db, db: Db,
                          query: string, found: seq<Id>, op: Operation)
    requires op.TakeItem? && op.item in found && inventory(db, op).Leaves?
    requires UniqueMatch(naming, searchedDb, Items, query, op.item)
    ensures UniqueMatch(naming, db, Items, query, op.item) ==>
      Permitted(naming, keys, inventory, Found(naming, keys, known, searchedDb, Items, query, found), db, op)
    ensures !Permitted(naming, keys, inventory, NOTHING, db, op)
  {
    var learned := Found(naming, keys, known, searchedDb, Items, query, found);
    assert Ref(Items, op.item) in learned.resolved && Proof(Ref(Items, op.item), query) in learned.evidence;
    assert Ref(Items, op.item) in Given(op) && Ref(Items, op.item) !in NOTHING.resolved;
  }

  class Dispatcher {
    const naming: Naming
    const keys: SearchKeys
    const inventory: Inventory
    var db: Db
    var known: Knowledge
    var round: Option<Knowledge>
    ghost var writes: seq<Write>
    ghost var rounds: seq<Round>

    ghost predicate Valid()
      reads this
    {
      && Sound(known)
      && (round.Some? ==> Within(round.value, known) && Sound(round.value))
      && (forall w :: w in writes ==> Justified(naming, w) && Within(w.frozen, known))
    }

    constructor (naming: Naming, keys: SearchKeys, inventory: Inventory, db: Db)
      ensures Valid() && known == NOTHING && round == None && writes == [] && rounds == []
      ensures this.db == db && this.naming == naming && this.inventory == inventory
    {
      this.naming, this.keys, this.inventory, this.db := naming, keys, inventory, db;
      known, round, writes, rounds := NOTHING, None, [], [];
    }

    /** `begin_round`: the knowledge the calls of this round may rely on. */
    method BeginRound()
      requires Valid()
      modifies `round, `rounds
      ensures Valid() && round == Some(known) && rounds == old(rounds) + [Round(known, |writes|)]
    {
      round := Some(known);
      rounds := rounds + [Round(known, |writes|)];
    }

    method EndRound()
      requires Valid()
      modifies `round
      ensures Valid() && round == None
    {
      round := None;
    }

    /** `session.rollback`: the database as it was; what the run learned stays. */
    method Rollback(snapshot: Db)
      requires Valid()
      modifies `db
      ensures Valid() && db == snapshot
    {
      db := snapshot;
    }

    function Visible(): Knowledge
      reads this
    {
      if round.Some? then round.value else known
    }

    /** What every call keeps: knowledge only grows, the frozen copy stays, writes are only added. */
    twostate predicate Grew()
      reads this
    {
      Within(old(known), known) && round == old(round) && old(writes) <= writes && rounds == old(rounds)
    }

    method RememberSeen(refs: set<Ref>)
      requires Valid()
      modifies `known
      ensures Valid() && Grew() && known == old(known).(seen := old(known).seen + refs)
    {
      known := known.(seen := known.seen + refs);
    }

    method RememberCreated(ref: Ref)
      requires Valid()
      modifies `known
      ensures Valid() && Grew() && known == WithCreated(old(known), {ref})
    {
      known := known.(seen := known.seen + {ref}, resolved := known.resolved + {ref}, created := known.created + {ref});
    }

    method RememberResolved(ref: Ref, query: string)
      requires Valid()
      modifies `known
      ensures Valid() && Grew()
      ensures known == old(known).(seen := old(known).seen + {ref}, resolved := old(known).resolved + {ref},
                                   evidence := old(known).evidence + {Proof(ref, query)})
    {
      ghost var before := known;
      known := known.(seen := known.seen + {ref}, resolved := known.resolved + {ref}, evidence := known.evidence + {Proof(ref, query)});
      forall r | r in known.resolved && r !in known.created ensures exists q :: Proof(r, q) in known.evidence {
        if r in before.resolved {
          var q :| Proof(r, q) in before.evidence;
          assert Proof(r, q) in known.evidence;
        } else {
          assert Proof(r, query) in known.evidence;
        }
      }
    }

    /** The search is noted, and the rows it found. */
    method Note(kind: Kind, query: string, found: seq<Id>)
      requires Valid()
      modifies `known
      ensures Valid() && Grew() && known == Searching(keys, old(known), kind, query, found, {})
    {
      var key := keys.key(kind, query);
      if key != "" {
        known := known.(searches := known.searches + {Searched(kind, key)});
      }
      RememberSeen(set id | id in found :: Ref(kind, id));
    }

    /** `_remember_search_candidates`: only the one exact identity is resolved, and only if it was returned. */
    method DoSearch(kind: Kind, query: string, found: seq<Id>) returns (ok: bool)
      requires Valid()
      modifies `known
      ensures Valid() && Grew() && ok && known == Found(naming, keys, old(known), db, kind, query, found)
    {
      Note(kind, query, found);
      var decision := ResolveWithEvidence(naming, db, kind, query);
      UniqueIs(naming, db, kind, query, found, if decision.Resolved? then Some(decision.id) else None);
      if decision.Resolved? && decision.id in found {
        SearchingOne(keys, old(known), kind, query, found, decision.id);
        RememberResolved(Ref(kind, decision.id), query);
      }
      return true;
    }

    /** Whether some query frozen for this round still resolves to the entity, and to it alone. */
    method StillResolves(ref: Ref) returns (ok: bool)
      requires Valid()
      ensures ok <==> exists query :: Proof(ref, query) in Visible().evidence && UniqueMatch(naming, db, ref.kind, query, ref.id)
    {
      var pending := set p | p in Visible().evidence && p.ref == ref;
      while pending != {}
        invariant pending <= Visible().evidence && forall p :: p in pending ==> p.ref == ref
        invariant forall query :: Proof(ref, query) in Visible().evidence && Proof(ref, query) !in pending ==>
                    !UniqueMatch(naming, db, ref.kind, query, ref.id)
        decreases |pending|
      {
        var proof := Pick(pending);
        var decision := ResolveWithEvidence(naming, db, ref.kind, proof.query);
        if decision.Resolved? && decision.id == ref.id {
          assert Proof(ref, proof.query) in Visible().evidence;
          return true;
        }
        assert proof == Proof(ref, proof.query) && !UniqueMatch(naming, db, ref.kind, proof.query, ref.id);
        pending := pending - {proof};
      }
      return false;
    }

    /** The checks of `_validated_write`, on the frozen knowledge and on the database as it is now. */
    method CheckReferences(refs: seq<Ref>) returns (ok: bool)
      requires Valid()
      ensures ok <==> forall ref :: ref in refs ==> ref in Visible().resolved && Backed(naming, Visible(), db, ref)
    {
      for i := 0 to |refs|
        invariant forall k :: 0 <= k < i ==> refs[k] in Visible().resolved
      {
        if refs[i] !in Visible().resolved {
          return false;
        }
        if refs[i] !in Visible().created && !exists p :: p in Visible().evidence && p.ref == refs[i] {
          assert false; // what is resolved was created or has a query
          return false;
        }
      }
      for i := 0 to |refs|
        invariant forall k :: 0 <= k < i ==> Backed(naming, Visible(), db, refs[k])
      {
        if refs[i] !in Visible().created {
          var still := StillResolves(refs[i]);
          if !still {
            assert !Backed(naming, Visible(), db, refs[i]);
            return false;
          }
        }
      }
      return true;
    }

    /** `_validated_write`: the write happens exactly when every reference is backed now and the operation succeeds. */
    method ValidatedWrite(refs: seq<Ref>, op: Operation) returns (ok: bool, effect: Effect)
      requires Valid() && forall ref :: ref in refs <==> ref in Given(op)
      modifies `db, `writes
      ensures Valid() && Grew()
      ensures ok <==> Allowed(naming, Visible(), old(db), Given(op)) && inventory(old(db), op).Leaves?
      ensures ok ==> effect == inventory(old(db), op) && db == effect.db && writes == old(writes) + [Write(op, Visible(), old(db))]
      ensures !ok ==> db == old(db) && writes == old(writes)
    {
      effect := Fails;
      ok := CheckReferences(refs);
      if !ok { return; }
      effect := inventory(db, op);
      if effect.Fails? {
        return false, effect;
      }
      writes := writes + [Write(op, Visible(), db)];
      db := effect.db;
    }

    method RequireResolved(refs: seq<Ref>) returns (ok: bool)
      ensures ok <==> forall ref :: ref in refs ==> ref in Visible().resolved
    {
      for i := 0 to |refs|
        invariant forall k :: 0 <= k < i ==> refs[k] in Visible().resolved
      {
        if refs[i] !in Visible().resolved {
          return false;
        }
      }
      return true;
    }

    /** The reference lists of the tools: exactly the rows their operations are given. */
    method References(op: Operation) returns (refs: seq<Ref>)
      requires !op.EditPhoto?
      ensures forall ref :: ref in refs <==> ref in Given(op)
    {
      refs := [];
      match op {
        case CreateItem(_, category, location, _) =>
          if category.Some? {
            refs := refs + [Ref(Categories, category.value)];
          }
          if location.Some? {
            refs := refs + [Ref(Places, location.value)];
          }
        case UpdateItem(item, category, _) =>
          refs := [Ref(Items, item)];
          if category.Some? {
            refs := refs + [Ref(Categories, category.value)];
          }
        case MoveItem(item, location, _) => refs := [Ref(Items, item), Ref(Places, location)];
        case RestoreItem(item, location, _) =>
          refs := [Ref(Items, item)];
          if location.Some? {
            refs := refs + [Ref(Places, location.value)];
          }
        case TakeItem(item, _) => refs := [Ref(Items, item)];
        case MarkLocationUnknown(item) => refs := [Ref(Items, item)];
        case ChangeQuantity(item, _) => refs := [Ref(Items, item)];
        case RemoveItem(item, _) => refs := [Ref(Items, item)];
        case AttachPhoto(item, _) => refs := [Ref(Items, item)];
        case CreateCategory(_, parent, _) =>
          if parent.Some? {
            refs := [Ref(Categories, parent.value)];
          }
        case CreateLocation(_, parent, _) =>
          if parent.Some? {
            refs := [Ref(Places, parent.value)];
          }
        case UndoLastAction =>
      }
    }

    /** The tools that change existing items, and the one that attaches a photo. */
    method DoMutate(op: Operation) returns (ok: bool)
      requires Valid() && !Creates(op) && !op.EditPhoto? && !op.UndoLastAction?
      modifies `db, `writes, `known
      ensures Valid() && Grew() && (!ok ==> db == old(db) && writes == old(writes) && known == old(known))
      ensures ok <==> Allowed(naming, old(Visible()), old(db), Given(op)) && inventory(old(db), op).Leaves?
      ensures ok ==> db == inventory(old(db), op).db && writes == old(writes) + [Write(op, old(Visible()), old(db))]
      ensures ok ==> known == Gained(old(known), op, inventory(old(db), op))
    {
      var refs := References(op);
      ok := RequireResolved(refs);
      if !ok {
        assert !Allowed(naming, Visible(), db, Given(op));
        return;
      }
      var effect;
      ok, effect := ValidatedWrite(refs, op);
      if ok && op.AttachPhoto? {
        RememberSeen({Ref(Media, effect.id)});
      }
    }

    /** `_create_item` and `_create_category`. */
    method DoCreate(op: Operation) returns (ok: bool)
      requires Valid() && (op.CreateItem? || op.CreateCategory?)
      modifies `db, `writes, `known
      ensures Valid() && Grew() && (!ok ==> db == old(db) && writes == old(writes) && known == old(known))
      ensures ok <==> Permitted(naming, keys, inventory, old(Visible()), old(db), op)
      ensures ok ==>
        && db == inventory(old(db), op).db && writes == old(writes) + [Write(op, old(Visible()), old(db))]
        && known == Gained(old(known), op, inventory(old(db), op))
    {
      LookedUpIsSearchedBefore(keys, Visible().searches, CreatedKind(op), op.name);
      if !SearchedBefore(keys, Visible().searches, CreatedKind(op), op.name) {
        return false;
      }
      var refs := References(op);
      ok := RequireResolved(refs);
      if !ok {
        assert !Allowed(naming, Visible(), db, Given(op));
        return;
      }
      var effect;
      ok, effect := ValidatedWrite(refs, op);
      if ok {
        RememberCreated(Ref(CreatedKind(op), effect.id));
      }
    }

    /** The nodes of a path: new ones are created, reused ones resolved by their path text. */
    method RememberPath(outcome: LocationPath)
      requires Valid()
      modifies `known
      ensures Valid() && Grew()
      ensures known == WithReused(WithCreated(old(known), PlacesOf(NewNodes(outcome))), outcome)
    {
      for i := 0 to |outcome.path|
        invariant Valid() && Grew()
        invariant known == WithReused(WithCreated(old(known), PlacesOf(NewNodes(Upto(outcome, i)))), Upto(outcome, i))
      {
        var id := outcome.path[i];
        OneNodeMore(old(known), outcome, i);
        if id in outcome.created {
          RememberCreated(Ref(Places, id));
        } else {
          RememberResolved(Ref(Places, id), TextOf(outcome, id));
        }
      }
      assert Upto(outcome, |outcome.path|) == outcome;
    }

    /** `_create_location`: a path with no new node is refused. */
    method DoCreateLocation(op: Operation) returns (ok: bool)
      requires Valid() && op.CreateLocation?
      modifies `db, `writes, `known
      ensures Valid() && Grew() && (!ok ==> db == old(db) && writes == old(writes) && known == old(known))
      ensures ok <==> Permitted(naming, keys, inventory, old(Visible()), old(db), op)
      ensures ok ==>
        && db == inventory(old(db), op).db && writes == old(writes) + [Write(op, old(Visible()), old(db))]
        && known == Gained(old(known), op, inventory(old(db), op))
    {
      LookedUpIsSearchedBefore(keys, Visible().searches, Places, op.name);
      if !SearchedBefore(keys, Visible().searches, Places, op.name) {
        return false;
      }
      var refs := References(op);
      ok := RequireResolved(refs);
      if !ok {
        assert !Allowed(naming, Visible(), db, Given(op));
        return;
      }
      var effect := inventory(db, op);
      if !CreatesPath(effect) {
        return false;
      }
      ok, effect := ValidatedWrite(refs, op);
      if ok {
        RememberPath(effect.outcome);
      }
    }

    /** Photo edits rely on the photo having been seen, undo on nothing the model names. */
    method DoOther(op: Operation) returns (ok: bool)
      requires Valid() && (op.EditPhoto? || op.UndoLastAction?)
      modifies `db
      ensures Valid() && Grew() && (!ok ==> db == old(db))
      ensures ok <==> Permitted(naming, keys, inventory, old(Visible()), old(db), op)
      ensures ok ==> db == inventory(old(db), op).db
    {
      if op.EditPhoto? && Ref(Media, op.photo) !in Visible().seen {
        return false;
      }
      var effect := inventory(db, op);
      ok := effect.Leaves?;
      if ok {
        db := effect.db;
      }
    }

    method DoChange(op: Operation) returns (ok: bool)
      requires Valid()
      modifies `db, `writes, `known
      ensures Valid() && Grew() && (!ok ==> db == old(db) && writes == old(writes) && known == old(known))
      ensures ok <==> Permitted(naming, keys, inventory, old(Visible()), old(db), op)
      ensures ok ==> db == inventory(old(db), op).db && known == Gained(old(known), op, inventory(old(db), op))
      ensures writes == old(writes) + if ok && !op.EditPhoto? && !op.UndoLastAction? then [Write(op, old(Visible()), old(db))] else []
    {
      if op.CreateLocation? {
        ok := DoCreateLocation(op);
      } else if Creates(op) {
        ok := DoCreate(op);
      } else if op.EditPhoto? || op.UndoLastAction? {
        ok := DoOther(op);
      } else {
        ok := DoMutate(op);
      }
    }

    /** Whether a call succeeds, by what it may rely on. */
    ghost predicate Answers(call: Call, relied: Knowledge, before: Db) {
      match call
      case Search(_, _, _) => true
      case ReadSeen(ref, _) => ref in relied.seen
      case ReadResolved(ref, _) => ref in relied.resolved
      case Change(op) => Permitted(naming, keys, inventory, relied, before, op)
    }

    /** The database after a call. */
    ghost function After(call: Call, ok: bool, before: Db): Db {
      if ok && call.Change? && inventory(before, call.op).Leaves? then inventory(before, call.op).db else before
    }

    /** What is known after a call. */
    ghost function Learned(call: Call, ok: bool, before: Knowledge, found: Db): Knowledge {
      if !ok then before
      else
        match call
        case Search(kind, query, rows) => Found(naming, keys, before, found, kind, query, rows)
        case ReadSeen(_, shown) => before.(seen := before.seen + shown)
        case ReadResolved(_, shown) => before.(seen := before.seen + shown)
        case Change(op) => if inventory(found, op).Leaves? then Gained(before, op, inventory(found, op)) else before
    }

    /** `execute`: one call of the model. */
    method Execute(call: Call) returns (ok: bool)
      requires Valid()
      modifies `db, `writes, `known
      ensures Valid() && Grew()
      ensures ok <==> Answers(call, old(Visible()), old(db))
      ensures db == After(call, ok, old(db)) && known == Learned(call, ok, old(known), old(db))
      ensures writes == old(writes)
        + if ok && call.Change? && !call.op.EditPhoto? && !call.op.UndoLastAction? then [Write(call.op, old(Visible()), old(db))] else []
    {
      match call
      case Search(kind, query, found) => ok := DoSearch(kind, query, found);
      case ReadSeen(ref, shown) =>
        ok := ref in Visible().seen;
        if ok { RememberSeen(shown); }
      case ReadResolved(ref, shown) =>
        ok := ref in Visible().resolved;
        if ok { RememberSeen(shown); }
      case Change(op) => ok := DoChange(op);
    }
  }
}
