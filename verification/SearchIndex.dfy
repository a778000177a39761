/**
 * The derived item search table and the nine triggers that maintain it
 * (src/ah_there_it_is/db/search_schema.py), with the read-only comparison of
 * src/ah_there_it_is/db/search_consistency.py.
 *
 * The four base tables change one statement at a time under immediate foreign
 * keys.  SQLite runs the foreign-key actions of a deleted row before that row's
 * own AFTER DELETE trigger and promises no order among the cascaded rows, so
 * the cascade loops below pick the next row arbitrarily.  `group_concat` has no
 * ORDER BY; it is one fixed but arbitrary function `concat` of the selected
 * rows.
 */
module SearchIndex {
  import opened Prelude

  /** `other` stands for every column that no trigger mentions. */
  datatype Item = Item(name: string, description: Option<string>, attributes: Option<string>, other: string)

  datatype Alias = Alias(itemId: int, name: string)

  datatype Row = Row(name: string, aliases: string, description: string, tags: string, attributes: string)

  datatype Tables = Tables(items: map<int, Item>, aliases: map<int, Alias>, tags: map<int, string>,
                           links: set<(int, int)>)

  type Concat = map<int, string> -> string

  // ----- what the index should contain: rebuild_fts_index

  function Coalesce(text: Option<string>): string {
    if text.Some? then text.value else ""
  }

  function AliasNames(t: Tables, item: int): map<int, string> {
    map a | a in t.aliases && t.aliases[a].itemId == item :: t.aliases[a].name
  }

  function TagNames(t: Tables, item: int): map<int, string> {
    map g | g in t.tags && (item, g) in t.links :: t.tags[g]
  }

  function Aggregate(concat: Concat, rows: map<int, string>): string {
    if rows == map[] then "" else concat(rows)
  }

  function RowOf(concat: Concat, t: Tables, item: int): Row
    requires item in t.items
  {
    Row(t.items[item].name,
        Aggregate(concat, AliasNames(t, item)),
        Coalesce(t.items[item].description),
        Aggregate(concat, TagNames(t, item)),
        Coalesce(t.items[item].attributes))
  }

  function Rebuilt(concat: Concat, t: Tables): map<int, Row> {
    map i | i in t.items :: RowOf(concat, t, i)
  }

  // ----- what a row of the index says

  /** These are the alias rows of the item. */
  ghost predicate AreAliases(names: map<int, string>, t: Tables, item: int) {
    && (forall a :: a in names <==> a in t.aliases && t.aliases[a].itemId == item)
    && (forall a <- names :: names[a] == t.aliases[a].name)
  }

  /** These are the tags linked to the item. */
  ghost predicate AreTags(names: map<int, string>, t: Tables, item: int) {
    && (forall g :: g in names <==> g in t.tags && (item, g) in t.links)
    && (forall g <- names :: names[g] == t.tags[g])
  }

  /** A column that may be NULL is indexed as it stands, and as the empty text if it is NULL. */
  ghost predicate IsText(text: string, column: Option<string>) {
    match column
    case Some(value) => text == value
    case None => text == ""
  }

  /** The names are concatenated; without any the text is empty. */
  ghost predicate Joins(concat: Concat, text: string, names: map<int, string>) {
    text == if |names| == 0 then "" else concat(names)
  }

  /** The row repeats the item's text and joins the names of its aliases and tags. */
  ghost predicate RowShows(concat: Concat, t: Tables, item: int, row: Row)
    requires item in t.items
  {
    && row.name == t.items[item].name
    && IsText(row.description, t.items[item].description) && IsText(row.attributes, t.items[item].attributes)
    && (exists names :: AreAliases(names, t, item) && Joins(concat, row.aliases, names))
    && (exists names :: AreTags(names, t, item) && Joins(concat, row.tags, names))
  }

  /** One row for each item, and each shows its item. */
  ghost predicate Shows(concat: Concat, t: Tables, fts: map<int, Row>) {
    fts.Keys == t.items.Keys && forall i <- t.items :: RowShows(concat, t, i, fts[i])
  }

  lemma NamesAre(t: Tables, item: int, aliases: map<int, string>, tags: map<int, string>)
    ensures AreAliases(aliases, t, item) <==> aliases == AliasNames(t, item)
    ensures AreTags(tags, t, item) <==> tags == TagNames(t, item)
  {
    if AreAliases(aliases, t, item) {
      var m := AliasNames(t, item);
      assert forall a :: a in aliases <==> a in m;
      assert aliases.Keys == m.Keys;
      assert forall a <- aliases :: aliases[a] == m[a];
    }
    if AreTags(tags, t, item) {
      var m := TagNames(t, item);
      assert forall g :: g in tags <==> g in m;
      assert tags.Keys == m.Keys;
      assert forall g <- tags :: tags[g] == m[g];
    }
  }

  lemma RowOfShows(concat: Concat, t: Tables, item: int, row: Row)
    requires item in t.items
    ensures RowShows(concat, t, item, row) <==> row == RowOf(concat, t, item)
  {
    var aliases, tags := AliasNames(t, item), TagNames(t, item);
    NamesAre(t, item, aliases, tags);
    assert |aliases| == 0 <==> aliases == map[];
    assert |tags| == 0 <==> tags == map[];
    if RowShows(concat, t, item, row) {
      var a :| AreAliases(a, t, item) && Joins(concat, row.aliases, a);
      var g :| AreTags(g, t, item) && Joins(concat, row.tags, g);
      NamesAre(t, item, a, g);
    } else if row == RowOf(concat, t, item) {
      assert Joins(concat, row.aliases, aliases) && Joins(concat, row.tags, tags);
    }
  }

  /** A rebuild shows every item, and nothing else does. */
  lemma RebuiltShows(concat: Concat, t: Tables, fts: map<int, Row>)
    ensures Shows(concat, t, fts) <==> fts == Rebuilt(concat, t)
  {
    forall i | i in t.items && i in fts ensures RowShows(concat, t, i, fts[i]) <==> fts[i] == Rebuilt(concat, t)[i] {
      RowOfShows(concat, t, i, fts[i]);
    }
    if Shows(concat, t, fts) {
      assert fts.Keys == Rebuilt(concat, t).Keys;
    }
  }

  // ----- what the trigger bodies do to the index

  function AliasesRefreshed(concat: Concat, t: Tables, fts: map<int, Row>, item: int): map<int, Row> {
    if item !in fts then fts
    else fts[item := fts[item].(aliases := Aggregate(concat, AliasNames(t, item)))]
  }

  function TagsRefreshed(concat: Concat, t: Tables, fts: map<int, Row>, item: int): map<int, Row> {
    if item !in fts then fts
    else fts[item := fts[item].(tags := Aggregate(concat, TagNames(t, item)))]
  }

  function TaggedRefreshed(concat: Concat, t: Tables, fts: map<int, Row>, tag: int): map<int, Row> {
    map i | i in fts ::
      if (i, tag) in t.links then fts[i].(tags := Aggregate(concat, TagNames(t, i))) else fts[i]
  }

  // ----- statements on the base tables

  datatype Statement =
    | InsertItem(id: int, item: Item)
    | UpdateItemText(id: int, name: string, description: Option<string>, attributes: Option<string>)
    | UpdateItemOther(id: int, other: string)
    | DeleteItem(id: int)
    | InsertAlias(id: int, alias: Alias)
    | UpdateAlias(id: int, alias: Alias)
    | DeleteAlias(id: int)
    | InsertTag(id: int, name: string)
    | RenameTag(id: int, name: string)
    | DeleteTag(id: int)
    | InsertLink(link: (int, int))
    | DeleteLink(link: (int, int))

  ghost predicate ForeignKeys(t: Tables) {
    && (forall a <- t.aliases :: t.aliases[a].itemId in t.items)
    && (forall l <- t.links :: l.0 in t.items && l.1 in t.tags)
  }

  /** Whether the primary and foreign keys let the statement through. */
  predicate Accepted(t: Tables, s: Statement) {
    match s
    case InsertItem(id, _) => id !in t.items
    case InsertAlias(id, alias) => id !in t.aliases && alias.itemId in t.items
    case UpdateAlias(id, alias) => id in t.aliases ==> alias.itemId in t.items
    case InsertTag(id, _) => id !in t.tags
    case InsertLink(link) => link !in t.links && link.0 in t.items && link.1 in t.tags
    case _ => true
  }

  /** The base tables after an accepted statement, ON DELETE CASCADE included. */
  function After(t: Tables, s: Statement): Tables {
    match s
    case InsertItem(id, item) => t.(items := t.items[id := item])
    case UpdateItemText(id, name, description, attributes) =>
      if id !in t.items then t
      else t.(items := t.items[id := Item(name, description, attributes, t.items[id].other)])
    case UpdateItemOther(id, other) =>
      if id !in t.items then t else t.(items := t.items[id := t.items[id].(other := other)])
    case DeleteItem(id) =>
      t.(items := t.items - {id},
         aliases := map a | a in t.aliases && t.aliases[a].itemId != id :: t.aliases[a],
         links := set l | l in t.links && l.0 != id)
    case InsertAlias(id, alias) => t.(aliases := t.aliases[id := alias])
    case UpdateAlias(id, alias) =>
      if id !in t.aliases then t else t.(aliases := t.aliases[id := alias])
    case DeleteAlias(id) => t.(aliases := t.aliases - {id})
    case InsertTag(id, name) => t.(tags := t.tags[id := name])
    case RenameTag(id, name) => if id !in t.tags then t else t.(tags := t.tags[id := name])
    case DeleteTag(id) => t.(tags := t.tags - {id}, links := set l | l in t.links && l.1 != id)
    case InsertLink(link) => t.(links := t.links + {link})
    case DeleteLink(link) => t.(links := t.links - {link})
  }

  function Replay(t: Tables, statements: seq<Statement>): Tables
    decreases |statements|
  {
    if statements == [] then t
    else
      var s := statements[0];
      Replay(if Accepted(t, s) then After(t, s) else t, statements[1..])
  }

  lemma {:induction false} ReplayAppend(t: Tables, statements: seq<Statement>, s: Statement)
    ensures Replay(t, statements + [s]) ==
            var u := Replay(t, statements);
            if Accepted(u, s) then After(u, s) else u
    decreases |statements|
  {
    if statements == [] {
      assert [s][1..] == [];
    } else {
      var first := statements[0];
      assert (statements + [s])[1..] == statements[1..] + [s];
      ReplayAppend(if Accepted(t, first) then After(t, first) else t, statements[1..], s);
    }
  }

  lemma ForeignKeysKept(t: Tables, s: Statement)
    requires ForeignKeys(t) && Accepted(t, s)
    ensures ForeignKeys(After(t, s))
  {
  }

  // ----- the live database

  datatype Consistency = Consistency(missing: set<int>, mismatched: set<int>, extra: set<int>) {
    /** `SearchConsistency.ok`: all three counts are zero. */
    predicate Ok() {
      |missing| == 0 && |mismatched| == 0 && |extra| == 0
    }
  }

  lemma EmptyReport(fts: map<int, Row>, rebuilt: map<int, Row>, report: Consistency)
    requires report.missing == rebuilt.Keys - fts.Keys && report.extra == fts.Keys - rebuilt.Keys
    requires report.mismatched == set i | i in fts && i in rebuilt && fts[i] != rebuilt[i]
    ensures report.Ok() <==> fts == rebuilt
  {
    if report.Ok() {
      assert report.missing == {} && report.mismatched == {} && report.extra == {};
      assert forall i :: i in fts <==> i in rebuilt by {
        forall i
          ensures i in fts <==> i in rebuilt
        {
          assert i !in report.missing && i !in report.extra;
        }
      }
      forall i | i in fts
        ensures fts[i] == rebuilt[i]
      {
        assert i !in report.mismatched;
      }
    }
  }

  class SearchDatabase {
    const concat: Concat
    var tables: Tables
    var fts: map<int, Row>

    /** The index holds exactly what a rebuild of the current tables would store. */
    ghost predicate Indexed()
      reads this
    {
      ForeignKeys(tables) && fts == Rebuilt(concat, tables)
    }

    constructor (concat: Concat)
      ensures Indexed() && this.concat == concat
      ensures tables == Tables(map[], map[], map[], {})
    {
      this.concat := concat;
      tables := Tables(map[], map[], map[], {});
      fts := map[];
    }

    // ----- trigger bodies

    /** Shared body of item_search_aliases_ai, _au and _ad. */
    method RefreshAliases(item: int)
      modifies this`fts
      ensures fts == AliasesRefreshed(concat, tables, old(fts), item)
    {
      if item in fts {
        fts := fts[item := fts[item].(aliases := Aggregate(concat, AliasNames(tables, item)))];
      }
    }

    /** Shared body of item_search_item_tags_ai and _ad. */
    method RefreshTags(item: int)
      modifies this`fts
      ensures fts == TagsRefreshed(concat, tables, old(fts), item)
    {
      if item in fts {
        fts := fts[item := fts[item].(tags := Aggregate(concat, TagNames(tables, item)))];
      }
    }

    /** item_search_tags_au: one UPDATE over every item that carries the tag. */
    method RefreshTagged(tag: int)
      modifies this`fts
      ensures fts == TaggedRefreshed(concat, tables, old(fts), tag)
    {
      fts := map i | i in fts ::
        if (i, tag) in tables.links
        then fts[i].(tags := Aggregate(concat, TagNames(tables, i)))
        else fts[i];
    }

    // ----- statements, each with the triggers it fires

    method ExecInsertItem(id: int, item: Item) returns (ok: bool)
      requires Indexed()
      modifies this`tables, this`fts
      ensures ok <==> Accepted(old(tables), InsertItem(id, item))
      ensures tables == if ok then After(old(tables), InsertItem(id, item)) else old(tables)
      ensures Indexed()
    {
      if id in tables.items {
        return false;
      }
      ItemInserted(concat, tables, id, item);
      tables := tables.(items := tables.items[id := item]);
      fts := fts[id := Row(item.name, "", Coalesce(item.description), "", Coalesce(item.attributes))];
      return true;
    }

    method ExecUpdateItemText(id: int, name: string, description: Option<string>, attributes: Option<string>)
      requires Indexed()
      modifies this`tables, this`fts
      ensures tables == After(old(tables), UpdateItemText(id, name, description, attributes))
      ensures Indexed()
    {
      if id !in tables.items {
        return;
      }
      ItemUpdated(concat, tables, id, Item(name, description, attributes, tables.items[id].other));
      tables := tables.(items := tables.items[id := Item(name, description, attributes, tables.items[id].other)]);
      if id in fts {
        fts := fts[id := fts[id].(name := name, description := Coalesce(description),
                                  attributes := Coalesce(attributes))];
      }
    }

    /** No trigger watches these columns; none is needed. */
    method ExecUpdateItemOther(id: int, other: string)
      requires Indexed()
      modifies this`tables, this`fts
      ensures tables == After(old(tables), UpdateItemOther(id, other)) && fts == old(fts)
      ensures Indexed()
    {
      if id !in tables.items {
        return;
      }
      ItemUpdated(concat, tables, id, tables.items[id].(other := other));
      tables := tables.(items := tables.items[id := tables.items[id].(other := other)]);
    }

    /** The foreign-key actions of a deleted item, in any order, each with its own trigger. */
    method CascadeFrom(ghost start: Tables, id: int, aliases: set<int>, links: set<(int, int)>)
      requires CascadeState(concat, start, tables, fts, id, aliases, links)
      modifies this`tables, this`fts
      ensures CascadeState(concat, start, tables, fts, id, {}, {})
    {
      var orphanAliases, orphanLinks := aliases, links;
      while orphanAliases != {} || orphanLinks != {}
        invariant CascadeState(concat, start, tables, fts, id, orphanAliases, orphanLinks)
        decreases |orphanAliases| + |orphanLinks|
      {
        if
        case orphanAliases != {} =>
          var a := Pick(orphanAliases);
          CascadeAlias(concat, start, tables, fts, id, orphanAliases, orphanLinks, a);
          tables := tables.(aliases := tables.aliases - {a});
          orphanAliases := orphanAliases - {a};
          RefreshAliases(id);
        case orphanLinks != {} =>
          var l := Pick(orphanLinks);
          CascadeLink(concat, start, tables, fts, id, orphanAliases, orphanLinks, l);
          tables := tables.(links := tables.links - {l});
          orphanLinks := orphanLinks - {l};
          RefreshTags(id);
      }
    }

    /**
     * Deleting an item cascades to its aliases and links, whose own delete
     * triggers rewrite a row that item_search_items_ad removes only at the end.
     */
    method ExecDeleteItem(id: int)
      requires Indexed()
      modifies this`tables, this`fts
      ensures tables == After(old(tables), DeleteItem(id))
      ensures Indexed()
    {
      if id !in tables.items {
        NothingToCascade(tables, id);
        return;
      }
      ghost var start := tables;
      var aliases := set a | a in tables.aliases && tables.aliases[a].itemId == id;
      var links := set l | l in tables.links && l.0 == id;
      tables := tables.(items := tables.items - {id});
      CascadeStarts(concat, start, fts, id, aliases, links);
      CascadeFrom(start, id, aliases, links);
      CascadeEnds(concat, start, tables, fts, id);
      fts := fts - {id};
    }

    method ExecInsertAlias(id: int, alias: Alias) returns (ok: bool)
      requires Indexed()
      modifies this`tables, this`fts
      ensures ok <==> Accepted(old(tables), InsertAlias(id, alias))
      ensures tables == if ok then After(old(tables), InsertAlias(id, alias)) else old(tables)
      ensures Indexed()
    {
      if id in tables.aliases || alias.itemId !in tables.items {
        return false;
      }
      AliasInserted(concat, tables, id, alias);
      tables := tables.(aliases := tables.aliases[id := alias]);
      RefreshAliases(alias.itemId);
      return true;
    }

    /** item_search_aliases_au refreshes the old owner, then the new one. */
    method ExecUpdateAlias(id: int, alias: Alias) returns (ok: bool)
      requires Indexed()
      modifies this`tables, this`fts
      ensures ok <==> Accepted(old(tables), UpdateAlias(id, alias))
      ensures tables == if ok then After(old(tables), UpdateAlias(id, alias)) else old(tables)
      ensures Indexed()
    {
      if id !in tables.aliases {
        return true;
      }
      if alias.itemId !in tables.items {
        return false;
      }
      var previousOwner := tables.aliases[id].itemId;
      AliasUpdated(concat, tables, id, alias);
      tables := tables.(aliases := tables.aliases[id := alias]);
      RefreshAliases(previousOwner);
      RefreshAliases(alias.itemId);
      return true;
    }

    method ExecDeleteAlias(id: int)
      requires Indexed()
      modifies this`tables, this`fts
      ensures tables == After(old(tables), DeleteAlias(id))
      ensures Indexed()
    {
      if id !in tables.aliases {
        assert tables.aliases - {id} == tables.aliases;
        return;
      }
      var owner := tables.aliases[id].itemId;
      AliasDeleted(concat, tables, id);
      tables := tables.(aliases := tables.aliases - {id});
      RefreshAliases(owner);
    }

    /** There is no trigger on tag insertion: a new tag has no links yet. */
    method ExecInsertTag(id: int, name: string) returns (ok: bool)
      requires Indexed()
      modifies this`tables, this`fts
      ensures ok <==> Accepted(old(tables), InsertTag(id, name))
      ensures tables == if ok then After(old(tables), InsertTag(id, name)) else old(tables)
      ensures Indexed() && fts == old(fts)
    {
      if id in tables.tags {
        return false;
      }
      TagInserted(concat, tables, id, name);
      tables := tables.(tags := tables.tags[id := name]);
      return true;
    }

    method ExecRenameTag(id: int, name: string)
      requires Indexed()
      modifies this`tables, this`fts
      ensures tables == After(old(tables), RenameTag(id, name))
      ensures Indexed()
    {
      if id !in tables.tags {
        return;
      }
      TagRenamed(concat, tables, id, name);
      tables := tables.(tags := tables.tags[id := name]);
      RefreshTagged(id);
    }

    /**
     * Deleting a tag cascades to its links.  There is no trigger on the tag row
     * itself; each cascaded link refreshes its own item, and until then that
     * item's row is stale.
     */
    method ExecDeleteTag(id: int)
      requires Indexed()
      modifies this`tables, this`fts
      ensures tables == After(old(tables), DeleteTag(id))
      ensures Indexed()
    {
      var start := tables;
      var stale := set l | l in tables.links && l.1 == id;
      tables := tables.(tags := tables.tags - {id});
      UntagStarts(concat, start, fts, id, stale);
      while stale != {}
        invariant UntagState(concat, start, tables, fts, id, stale)
        decreases |stale|
      {
        var l := Pick(stale);
        UntagLink(concat, start, tables, fts, id, stale, l);
        stale := stale - {l};
        tables := tables.(links := tables.links - {l});
        RefreshTags(l.0);
      }
      UntagEnds(concat, start, tables, fts, id);
    }

    method ExecInsertLink(link: (int, int)) returns (ok: bool)
      requires Indexed()
      modifies this`tables, this`fts
      ensures ok <==> Accepted(old(tables), InsertLink(link))
      ensures tables == if ok then After(old(tables), InsertLink(link)) else old(tables)
      ensures Indexed()
    {
      if link in tables.links || link.0 !in tables.items || link.1 !in tables.tags {
        return false;
      }
      LinkInserted(concat, tables, link);
      tables := tables.(links := tables.links + {link});
      RefreshTags(link.0);
      return true;
    }

    method ExecDeleteLink(link: (int, int))
      requires Indexed()
      modifies this`tables, this`fts
      ensures tables == After(old(tables), DeleteLink(link))
      ensures Indexed()
    {
      if link !in tables.links {
        return;
      }
      LinkDeleted(concat, tables, link);
      tables := tables.(links := tables.links - {link});
      RefreshTags(link.0);
    }

    method Execute(s: Statement) returns (ok: bool)
      requires Indexed()
      modifies this`tables, this`fts
      ensures ok <==> Accepted(old(tables), s)
      ensures tables == if ok then After(old(tables), s) else old(tables)
      ensures Indexed()
    {
      ok := true;
      match s
      case InsertItem(id, item) => ok := ExecInsertItem(id, item);
      case UpdateItemText(id, name, description, attributes) =>
        ExecUpdateItemText(id, name, description, attributes);
      case UpdateItemOther(id, other) => ExecUpdateItemOther(id, other);
      case DeleteItem(id) => ExecDeleteItem(id);
      case InsertAlias(id, alias) => ok := ExecInsertAlias(id, alias);
      case UpdateAlias(id, alias) => ok := ExecUpdateAlias(id, alias);
      case DeleteAlias(id) => ExecDeleteAlias(id);
      case InsertTag(id, name) => ok := ExecInsertTag(id, name);
      case RenameTag(id, name) => ExecRenameTag(id, name);
      case DeleteTag(id) => ExecDeleteTag(id);
      case InsertLink(link) => ok := ExecInsertLink(link);
      case DeleteLink(link) => ExecDeleteLink(link);
    }

    /** Any sequence of statements, accepted or refused, leaves the index equal to a rebuild. */
    method Run(statements: seq<Statement>)
      requires Indexed()
      modifies this`tables, this`fts
      ensures tables == Replay(old(tables), statements)
      ensures Indexed() && Shows(concat, tables, fts)
    {
      for k := 0 to |statements|
        invariant Indexed() && tables == Replay(old(tables), statements[..k])
      {
        ReplayAppend(old(tables), statements[..k], statements[k]);
        assert statements[..k + 1] == statements[..k] + [statements[k]];
        var _ := Execute(statements[k]);
      }
      assert statements[..|statements|] == statements;
      RebuiltShows(concat, tables, fts);
    }

    /** rebuild_fts_index, from any index content: clear the table, then one row per item. */
    method Rebuild()
      modifies this`fts
      ensures fts == Rebuilt(concat, tables) && Shows(concat, tables, fts)
    {
      fts := map[];
      var pending := tables.items.Keys;
      while pending != {}
        invariant pending <= tables.items.Keys && fts.Keys == tables.items.Keys - pending
        invariant forall i <- fts :: fts[i] == Rebuilt(concat, tables)[i]
      {
        var i := Pick(pending);
        fts := fts[i := RowOf(concat, tables, i)];
        pending := pending - {i};
      }
      RebuiltShows(concat, tables, fts);
    }

    /** search_consistency, on any tables and any index content. */
    method CheckConsistency() returns (report: Consistency)
      ensures report.Ok() <==> Shows(concat, tables, fts)
      ensures report.missing == Rebuilt(concat, tables).Keys - fts.Keys
      ensures report.extra == fts.Keys - Rebuilt(concat, tables).Keys
      ensures report.mismatched == set i | i in fts && i in tables.items && fts[i] != Rebuilt(concat, tables)[i]
    {
      var missing := set i | i in tables.items && i !in fts;
      var mismatched := set i | i in tables.items && i in fts && Differs(i);
      var extra := set i | i in fts && i !in tables.items;
      report := Consistency(missing, mismatched, extra);
      ghost var rebuilt := Rebuilt(concat, tables);
      forall i | i in fts && i in tables.items
        ensures Differs(i) <==> fts[i] != rebuilt[i]
      {
        assert rebuilt[i] == RowOf(concat, tables, i);
      }
      assert report.mismatched == set i | i in fts && i in tables.items && fts[i] != rebuilt[i];
      EmptyReport(fts, rebuilt, report);
      RebuiltShows(concat, tables, fts);
    }

    /** The WHERE clause of the mismatch query: any of the five columns differs. */
    predicate Differs(i: int)
      requires i in tables.items && i in fts
      reads this
    {
      || fts[i].name != tables.items[i].name
      || fts[i].description != Coalesce(tables.items[i].description)
      || fts[i].aliases != Aggregate(concat, AliasNames(tables, i))
      || fts[i].tags != Aggregate(concat, TagNames(tables, i))
      || fts[i].attributes != Coalesce(tables.items[i].attributes)
    }
  }

  // ----- lemmas about single changes

  ghost predicate SameAliases(t: Tables, u: Tables, item: int) {
    && (forall a <- t.aliases :: t.aliases[a].itemId == item ==> a in u.aliases && u.aliases[a] == t.aliases[a])
    && (forall a <- u.aliases :: u.aliases[a].itemId == item ==> a in t.aliases && u.aliases[a] == t.aliases[a])
  }

  lemma SameAliasNames(t: Tables, u: Tables, item: int)
    requires SameAliases(t, u, item)
    ensures AliasNames(t, item) == AliasNames(u, item)
  {
    var m, n := AliasNames(t, item), AliasNames(u, item);
    assert forall a :: a in m <==> a in n;
    assert m.Keys == n.Keys;
    assert forall a <- m :: m[a] == n[a];
    assert m == n;
  }

  lemma SameTagNames(t: Tables, u: Tables, item: int)
    requires forall g :: (item, g) in t.links <==> (item, g) in u.links
    requires forall g :: (item, g) in t.links ==> (g in t.tags <==> g in u.tags)
    requires forall g <- t.tags :: (item, g) in t.links ==> t.tags[g] == u.tags[g]
    ensures TagNames(t, item) == TagNames(u, item)
  {
    var m, n := TagNames(t, item), TagNames(u, item);
    assert forall g :: g in m <==> g in n;
    assert m.Keys == n.Keys;
    assert forall g <- m :: m[g] == n[g];
    assert m == n;
  }

  ghost predicate SameText(t: Tables, u: Tables, item: int)
    requires item in t.items && item in u.items
  {
    && t.items[item].name == u.items[item].name
    && t.items[item].description == u.items[item].description
    && t.items[item].attributes == u.items[item].attributes
  }

  /** A change that touches only what belongs to `item` leaves every other row alone. */
  lemma SameTextElsewhere(concat: Concat, before: Tables, now: Tables, item: int)
    requires forall i <- now.items :: i != item ==> i in before.items && SameText(before, now, i)
    requires forall i <- now.items :: i != item ==> SameAliases(before, now, i)
    requires now.tags == before.tags
    requires forall l: (int, int) :: l.0 != item ==> (l in before.links <==> l in now.links)
    ensures forall i <- now.items :: i != item ==> RowOf(concat, now, i) == RowOf(concat, before, i)
  {
    forall i | i in now.items && i != item
      ensures RowOf(concat, now, i) == RowOf(concat, before, i)
    {
      SameAliasNames(before, now, i);
      SameTagNames(before, now, i);
    }
  }

  lemma NoRowsYet(t: Tables, item: int)
    requires forall a <- t.aliases :: t.aliases[a].itemId != item
    requires forall l <- t.links :: l.0 != item
    ensures AliasNames(t, item) == map[] && TagNames(t, item) == map[]
  {
    var m, n := AliasNames(t, item), TagNames(t, item);
    assert forall a :: a !in m;
    assert forall g :: g !in n;
  }

  // ----- each statement's triggers turn a rebuild of the old tables into one of the new

  lemma ItemInserted(concat: Concat, t: Tables, id: int, item: Item)
    requires ForeignKeys(t) && id !in t.items
    ensures var u := After(t, InsertItem(id, item));
            ForeignKeys(u) && Rebuilt(concat, u) ==
              Rebuilt(concat, t)[id := Row(item.name, "", Coalesce(item.description), "", Coalesce(item.attributes))]
  {
    var u := After(t, InsertItem(id, item));
    NoRowsYet(u, id);
    SameTextElsewhere(concat, t, u, id);
  }

  lemma ItemUpdated(concat: Concat, t: Tables, id: int, item: Item)
    requires ForeignKeys(t) && id in t.items
    ensures var u := t.(items := t.items[id := item]);
            ForeignKeys(u) && Rebuilt(concat, u) ==
              Rebuilt(concat, t)[id := Rebuilt(concat, t)[id].(name := item.name,
                description := Coalesce(item.description), attributes := Coalesce(item.attributes))]
  {
    var u := t.(items := t.items[id := item]);
    SameAliasNames(t, u, id);
    SameTagNames(t, u, id);
    SameTextElsewhere(concat, t, u, id);
  }

  lemma AliasInserted(concat: Concat, t: Tables, id: int, alias: Alias)
    requires ForeignKeys(t) && Accepted(t, InsertAlias(id, alias))
    ensures var u := After(t, InsertAlias(id, alias));
            ForeignKeys(u) && AliasesRefreshed(concat, u, Rebuilt(concat, t), alias.itemId) == Rebuilt(concat, u)
  {
    var u := After(t, InsertAlias(id, alias));
    SameTextElsewhere(concat, t, u, alias.itemId);
    SameTagNames(t, u, alias.itemId);
  }

  lemma AliasUpdated(concat: Concat, t: Tables, id: int, alias: Alias)
    requires ForeignKeys(t) && id in t.aliases && alias.itemId in t.items
    ensures var u := After(t, UpdateAlias(id, alias));
            && ForeignKeys(u)
            && AliasesRefreshed(concat, u, AliasesRefreshed(concat, u, Rebuilt(concat, t), t.aliases[id].itemId),
                                alias.itemId) == Rebuilt(concat, u)
  {
    var u := After(t, UpdateAlias(id, alias));
    var once := AliasesRefreshed(concat, u, Rebuilt(concat, t), t.aliases[id].itemId);
    var twice := AliasesRefreshed(concat, u, once, alias.itemId);
    forall i | i in u.items
      ensures twice[i] == RowOf(concat, u, i)
    {
      SameTagNames(t, u, i);
      if i != t.aliases[id].itemId && i != alias.itemId {
        SameAliasNames(t, u, i);
      }
    }
  }

  lemma AliasDeleted(concat: Concat, t: Tables, id: int)
    requires ForeignKeys(t) && id in t.aliases
    ensures var u := After(t, DeleteAlias(id));
            && ForeignKeys(u)
            && AliasesRefreshed(concat, u, Rebuilt(concat, t), t.aliases[id].itemId) == Rebuilt(concat, u)
  {
    var u := After(t, DeleteAlias(id));
    SameTextElsewhere(concat, t, u, t.aliases[id].itemId);
    SameTagNames(t, u, t.aliases[id].itemId);
  }

  lemma TagInserted(concat: Concat, t: Tables, id: int, name: string)
    requires ForeignKeys(t) && id !in t.tags
    ensures var u := After(t, InsertTag(id, name));
            ForeignKeys(u) && Rebuilt(concat, u) == Rebuilt(concat, t)
  {
    var u := After(t, InsertTag(id, name));
    forall i | i in u.items
      ensures RowOf(concat, u, i) == RowOf(concat, t, i)
    {
      SameAliasNames(t, u, i);
      SameTagNames(t, u, i);
    }
  }

  lemma TagRenamed(concat: Concat, t: Tables, id: int, name: string)
    requires ForeignKeys(t) && id in t.tags
    ensures var u := After(t, RenameTag(id, name));
            ForeignKeys(u) && TaggedRefreshed(concat, u, Rebuilt(concat, t), id) == Rebuilt(concat, u)
  {
    var u := After(t, RenameTag(id, name));
    var refreshed := TaggedRefreshed(concat, u, Rebuilt(concat, t), id);
    forall i | i in u.items
      ensures refreshed[i] == RowOf(concat, u, i)
    {
      SameAliasNames(t, u, i);
      if (i, id) !in t.links {
        SameTagNames(t, u, i);
      }
    }
  }

  lemma LinkInserted(concat: Concat, t: Tables, link: (int, int))
    requires ForeignKeys(t) && Accepted(t, InsertLink(link))
    ensures var u := After(t, InsertLink(link));
            ForeignKeys(u) && TagsRefreshed(concat, u, Rebuilt(concat, t), link.0) == Rebuilt(concat, u)
  {
    var u := After(t, InsertLink(link));
    SameTextElsewhere(concat, t, u, link.0);
    SameAliasNames(t, u, link.0);
  }

  lemma LinkDeleted(concat: Concat, t: Tables, link: (int, int))
    requires ForeignKeys(t) && link in t.links
    ensures var u := After(t, DeleteLink(link));
            ForeignKeys(u) && TagsRefreshed(concat, u, Rebuilt(concat, t), link.0) == Rebuilt(concat, u)
  {
    var u := After(t, DeleteLink(link));
    SameTextElsewhere(concat, t, u, link.0);
    SameAliasNames(t, u, link.0);
  }

  lemma NothingToCascade(t: Tables, id: int)
    requires ForeignKeys(t) && id !in t.items
    ensures After(t, DeleteItem(id)) == t
  {
    var u := After(t, DeleteItem(id));
    assert forall a <- t.aliases :: a in u.aliases && u.aliases[a] == t.aliases[a];
    assert u.links == t.links;
  }

  /**
   * Midway through deleting item `id`: the remaining orphans are still stored,
   * everything else is in its final state, and only the doomed row may be stale.
   */
  ghost predicate CascadeState(concat: Concat, start: Tables, t: Tables, fts: map<int, Row>, id: int,
                               orphanAliases: set<int>, orphanLinks: set<(int, int)>)
  {
    && ForeignKeys(start) && id in start.items
    && t.items == start.items - {id} && t.tags == start.tags
    && (forall a <- orphanAliases :: a in start.aliases && start.aliases[a].itemId == id)
    && (forall l <- orphanLinks :: l in start.links && l.0 == id)
    && (forall a <- t.aliases :: a in start.aliases && t.aliases[a] == start.aliases[a])
    && (forall a <- start.aliases :: a in t.aliases <==> start.aliases[a].itemId != id || a in orphanAliases)
    && (forall l <- t.links :: l in start.links)
    && (forall l <- start.links :: l in t.links <==> l.0 != id || l in orphanLinks)
    && fts.Keys == start.items.Keys
    && (forall i <- t.items :: fts[i] == RowOf(concat, t, i))
  }

  lemma CascadeStarts(concat: Concat, start: Tables, fts: map<int, Row>, id: int,
                      orphanAliases: set<int>, orphanLinks: set<(int, int)>)
    requires ForeignKeys(start) && id in start.items && fts == Rebuilt(concat, start)
    requires orphanAliases == set a | a in start.aliases && start.aliases[a].itemId == id
    requires orphanLinks == set l | l in start.links && l.0 == id
    ensures CascadeState(concat, start, start.(items := start.items - {id}), fts, id, orphanAliases, orphanLinks)
  {
    var t := start.(items := start.items - {id});
    SameTextElsewhere(concat, start, t, id);
  }

  lemma CascadeAlias(concat: Concat, start: Tables, t: Tables, fts: map<int, Row>, id: int,
                     orphanAliases: set<int>, orphanLinks: set<(int, int)>, a: int)
    requires CascadeState(concat, start, t, fts, id, orphanAliases, orphanLinks) && a in orphanAliases
    ensures var u := t.(aliases := t.aliases - {a});
            CascadeState(concat, start, u, AliasesRefreshed(concat, u, fts, id), id, orphanAliases - {a}, orphanLinks)
  {
    var u := t.(aliases := t.aliases - {a});
    SameTextElsewhere(concat, t, u, id);
  }

  lemma CascadeLink(concat: Concat, start: Tables, t: Tables, fts: map<int, Row>, id: int,
                    orphanAliases: set<int>, orphanLinks: set<(int, int)>, l: (int, int))
    requires CascadeState(concat, start, t, fts, id, orphanAliases, orphanLinks) && l in orphanLinks
    ensures var u := t.(links := t.links - {l});
            CascadeState(concat, start, u, TagsRefreshed(concat, u, fts, id), id, orphanAliases, orphanLinks - {l})
  {
    var u := t.(links := t.links - {l});
    SameTextElsewhere(concat, t, u, id);
  }

  lemma CascadeEnds(concat: Concat, start: Tables, t: Tables, fts: map<int, Row>, id: int)
    requires CascadeState(concat, start, t, fts, id, {}, {})
    ensures t == After(start, DeleteItem(id)) && ForeignKeys(t) && fts - {id} == Rebuilt(concat, t)
  {
    var u := After(start, DeleteItem(id));
    assert forall a :: a in u.aliases <==> a in t.aliases;
    assert u.aliases.Keys == t.aliases.Keys;
    assert forall a <- t.aliases :: t.aliases[a] == u.aliases[a];
    assert t.aliases == u.aliases && t.links == u.links;
    assert (fts - {id}).Keys == t.items.Keys;
  }

  /**
   * Midway through deleting tag `id`: links to it that are still stored mark the
   * items whose tag text may be stale; every other row is already right.
   */
  ghost predicate UntagState(concat: Concat, start: Tables, t: Tables, fts: map<int, Row>, id: int,
                             stale: set<(int, int)>)
  {
    && ForeignKeys(start)
    && t.items == start.items && t.aliases == start.aliases && t.tags == start.tags - {id}
    && (forall l <- stale :: l in start.links && l.1 == id)
    && (forall l <- t.links :: l in start.links)
    && (forall l <- start.links :: l in t.links <==> l.1 != id || l in stale)
    && fts.Keys == t.items.Keys
    && (forall i <- t.items :: fts[i].(tags := "") == RowOf(concat, t, i).(tags := ""))
    && (forall i <- t.items :: (i, id) !in stale ==> fts[i] == RowOf(concat, t, i))
  }

  lemma UntagStarts(concat: Concat, start: Tables, fts: map<int, Row>, id: int, stale: set<(int, int)>)
    requires ForeignKeys(start) && fts == Rebuilt(concat, start)
    requires stale == set l | l in start.links && l.1 == id
    ensures UntagState(concat, start, start.(tags := start.tags - {id}), fts, id, stale)
  {
    var t := start.(tags := start.tags - {id});
    forall i | i in t.items
      ensures fts[i].(tags := "") == RowOf(concat, t, i).(tags := "")
      ensures (i, id) !in stale ==> fts[i] == RowOf(concat, t, i)
    {
      SameAliasNames(start, t, i);
      if (i, id) !in stale {
        SameTagNames(start, t, i);
      }
    }
  }

  lemma UntagEnds(concat: Concat, start: Tables, t: Tables, fts: map<int, Row>, id: int)
    requires UntagState(concat, start, t, fts, id, {})
    ensures t == After(start, DeleteTag(id)) && ForeignKeys(t) && fts == Rebuilt(concat, t)
  {
    assert t.links == After(start, DeleteTag(id)).links;
  }

  lemma UntagLink(concat: Concat, start: Tables, t: Tables, fts: map<int, Row>, id: int,
                  stale: set<(int, int)>, l: (int, int))
    requires UntagState(concat, start, t, fts, id, stale) && l in stale
    ensures l.0 in fts
    ensures var u := t.(links := t.links - {l});
            UntagState(concat, start, u, TagsRefreshed(concat, u, fts, l.0), id, stale - {l})
  {
    var u := t.(links := t.links - {l});
    SameTextElsewhere(concat, t, u, l.0);
    SameAliasNames(t, u, l.0);
    var row := fts[l.0].(tags := Aggregate(concat, TagNames(u, l.0)));
    assert row == fts[l.0].(tags := "").(tags := Aggregate(concat, TagNames(u, l.0)));
    assert RowOf(concat, u, l.0) == RowOf(concat, t, l.0).(tags := "").(tags := Aggregate(concat, TagNames(u, l.0)));
    forall i | i in u.items && i != l.0 && (i, id) !in stale - {l}
      ensures (i, id) !in stale
    {
      assert (i, id) != l;
    }
  }

  // ----- the statement that has no trigger

  /** UPDATE item_tags: no trigger fires, so the index keeps its old rows. */
  function Relinked(t: Tables, from: (int, int), to: (int, int)): Tables {
    t.(links := t.links - {from} + {to})
  }

  /** An untriggered relink is harmless exactly when neither item's tag text changes. */
  lemma RelinkKeepsIndexExactlyWhen(concat: Concat, t: Tables, from: (int, int), to: (int, int))
    requires ForeignKeys(t) && from in t.links && to !in t.links && to.0 in t.items && to.1 in t.tags
    ensures Rebuilt(concat, t) == Rebuilt(concat, Relinked(t, from, to)) <==>
            forall i <- {from.0, to.0} ::
              Aggregate(concat, TagNames(t, i)) == Aggregate(concat, TagNames(Relinked(t, from, to), i))
  {
    var u := Relinked(t, from, to);
    forall i | i in t.items
      ensures AliasNames(u, i) == AliasNames(t, i)
      ensures i != from.0 && i != to.0 ==> TagNames(u, i) == TagNames(t, i)
    {
    }
    if Rebuilt(concat, t) == Rebuilt(concat, u) {
      forall i | i in {from.0, to.0}
        ensures Aggregate(concat, TagNames(t, i)) == Aggregate(concat, TagNames(u, i))
      {
        assert Rebuilt(concat, t)[i].tags == Rebuilt(concat, u)[i].tags;
      }
    } else {
      assert Rebuilt(concat, t).Keys == Rebuilt(concat, u).Keys;
      var i :| i in t.items && Rebuilt(concat, t)[i] != Rebuilt(concat, u)[i];
      assert i in {from.0, to.0};
    }
  }

  /** One item, two tags, one link: repointing the link leaves the stored tag text stale. */
  lemma RelinkStalesIndex(concat: Concat)
    requires concat(map[1 := "tools"]) != concat(map[2 := "spares"])
    ensures var t := Tables(map[7 := Item("drill", None, None, "")], map[], map[1 := "tools", 2 := "spares"], {(7, 1)});
            ForeignKeys(t) && Rebuilt(concat, t) != Rebuilt(concat, Relinked(t, (7, 1), (7, 2)))
  {
    var t := Tables(map[7 := Item("drill", None, None, "")], map[], map[1 := "tools", 2 := "spares"], {(7, 1)});
    var u := Relinked(t, (7, 1), (7, 2));
    assert TagNames(t, 7) == map[1 := "tools"];
    assert TagNames(u, 7) == map[2 := "spares"];
    assert 7 in TagNames(t, 7) || TagNames(t, 7) != map[] by { assert 1 in TagNames(t, 7); }
    assert 2 in TagNames(u, 7);
    RelinkKeepsIndexExactlyWhen(concat, t, (7, 1), (7, 2));
  }
}
