/**
 * Importing an accepted portable document and exporting it again
 * (src/ah_there_it_is/storage.py:1655-1764 and 1376-1438).  A table is a
 * sequence of rows in primary-key order, which is the order the exporter asks
 * for; `links` is the item_tags table.
 */
module PortableRoundTrip {
  import opened Prelude
  import opened Sorting
  import opened TagIndex
  import opened TagOrderStability

  /** The columns that are copied as they are. */
  datatype Facts = Facts(text: string)

  datatype TreeRow = TreeRow(id: nat, parent: Option<nat>, facts: Facts)

  datatype ItemRow = ItemRow(id: nat, facts: Facts)

  datatype EventRow = EventRow(id: nat, facts: Facts)

  datatype PortableItem = PortableItem(row: ItemRow, aliases: seq<string>, tags: seq<string>)

  datatype Document = Document(categories: seq<TreeRow>, locations: seq<TreeRow>, items: seq<PortableItem>, events: seq<EventRow>)

  datatype AliasRow = AliasRow(itemId: nat, name: string)

  datatype Link = Link(itemId: nat, tagId: nat)

  datatype Tables = Tables(categories: seq<TreeRow>, locations: seq<TreeRow>, items: seq<ItemRow>,
                           aliases: seq<AliasRow>, tags: seq<string>, links: set<Link>, events: seq<EventRow>)

  const TREES_BY_ID: (TreeRow, TreeRow) -> bool := (a: TreeRow, b: TreeRow) => a.id <= b.id
  const ITEMS_BY_ID: (PortableItem, PortableItem) -> bool := (a: PortableItem, b: PortableItem) => a.row.id <= b.row.id
  const EVENTS_BY_ID: (EventRow, EventRow) -> bool := (a: EventRow, b: EventRow) => a.id <= b.id

  // ----- import

  function TaggedAll(items: seq<PortableItem>): (r: seq<Tagged>)
    ensures |r| == |items| && forall i :: 0 <= i < |r| ==> r[i] == Tagged(items[i].row.id, items[i].tags)
  {
    seq(|items|, i requires 0 <= i < |items| => Tagged(items[i].row.id, items[i].tags))
  }

  function RowsOf(items: seq<PortableItem>): (r: seq<ItemRow>)
    ensures |r| == |items| && forall i :: 0 <= i < |r| ==> r[i] == items[i].row
  {
    seq(|items|, i requires 0 <= i < |items| => items[i].row)
  }

  /** Alias rows get their keys in the order they are inserted. */
  function AliasRows(items: seq<PortableItem>): seq<AliasRow> {
    if items == [] then []
    else AliasRows(items[..|items| - 1]) + ItemAliases(items[|items| - 1])
  }

  function ItemAliases(item: PortableItem): (r: seq<AliasRow>)
    ensures |r| == |item.aliases| && forall i :: 0 <= i < |r| ==> r[i] == AliasRow(item.row.id, item.aliases[i])
  {
    seq(|item.aliases|, i requires 0 <= i < |item.aliases| => AliasRow(item.row.id, item.aliases[i]))
  }

  function Order(normalize: Normalize, items: seq<PortableItem>): seq<string> {
    TagOrder(normalize, Sort(BY_ID, TaggedAll(items)))
  }

  function Spellings(normalize: Normalize, items: seq<PortableItem>): map<string, string> {
    SpellingsOf(Occurrences(normalize, TaggedAll(items)))
  }

  function Spell(spellings: map<string, string>, names: seq<string>): (r: seq<string>)
    requires forall name :: name in names ==> name in spellings
    ensures |r| == |names| && forall i :: 0 <= i < |r| ==> r[i] == spellings[names[i]]
  {
    if names == [] then []
    else Spell(spellings, names[..|names| - 1]) + [spellings[names[|names| - 1]]]
  }

  /** The item_tags rows of these items, given the tag ids. */
  function Links(normalize: Normalize, items: seq<PortableItem>, ids: map<string, nat>): set<Link>
    requires forall item :: item in items ==> forall tag :: tag in item.tags ==> normalize(tag) in ids
  {
    set item, tag | item in items && tag in item.tags :: Link(item.row.id, ids[normalize(tag)])
  }

  lemma {:induction false} NumberedAt(names: seq<string>)
    requires Distinct(names)
    ensures forall name :: name in Numbered(names) <==> name in names
    ensures forall k :: 0 <= k < |names| ==> Numbered(names)[names[k]] == k + 1
  {
    if names != [] {
      var front, last := names[..|names| - 1], names[|names| - 1];
      NumberedAt(front);
      assert names == front + [last];
    }
  }

  lemma OrderCovers(normalize: Normalize, items: seq<PortableItem>)
    requires UniqueIds(TaggedAll(items))
    ensures Distinct(Order(normalize, items))
    ensures forall name :: name in Order(normalize, items) <==> name in Spellings(normalize, items)
    ensures forall item :: item in items ==> forall tag :: tag in item.tags ==> normalize(tag) in Order(normalize, items)
  {
    var tagged := TaggedAll(items);
    var sorted := Sort(BY_ID, tagged);
    SortedItems(tagged);
    TagOrderIsDistinct(normalize, sorted);
    TagOrderKeeps(normalize, sorted);
    KeepIsDistinct(Occurrences(normalize, sorted));
    SpellingsOccur(Occurrences(normalize, tagged));
    forall name ensures name in Order(normalize, items) <==> name in Spellings(normalize, items) {
      if name in Order(normalize, items) {
        var e :| e in Occurrences(normalize, sorted) && e.name == name;
        SortedOccurrences(normalize, tagged, e);
      }
      if name in Spellings(normalize, items) {
        var e :| e in Occurrences(normalize, tagged) && e.name == name;
        SortedOccurrences(normalize, tagged, e);
      }
    }
    forall item, tag | item in items && tag in item.tags ensures normalize(tag) in Order(normalize, items) {
      var i :| 0 <= i < |items| && items[i] == item;
      assert tagged[i] in sorted;
      var k :| 0 <= k < |sorted| && sorted[k] == tagged[i];
      var p :| 0 <= p < |item.tags| && item.tags[p] == tag;
      assert Names(normalize, sorted[k].tags)[p] == normalize(tag);
    }
  }

  /** `_write_portable_workspace_inventory` and `_write_portable_workspace_events`. */
  function Import(normalize: Normalize, d: Document): Tables
    requires UniqueIds(TaggedAll(d.items))
  {
    OrderCovers(normalize, d.items);
    NumberedAt(Order(normalize, d.items));
    Tables(
      Sort(TREES_BY_ID, d.categories), Sort(TREES_BY_ID, d.locations),
      RowsOf(Sort(ITEMS_BY_ID, d.items)), AliasRows(d.items),
      Spell(Spellings(normalize, d.items), Order(normalize, d.items)),
      Links(normalize, d.items, Numbered(Order(normalize, d.items))),
      Sort(EVENTS_BY_ID, d.events))
  }

  /** The alias rows, item by item in document order. */
  method WriteAliases(items: seq<PortableItem>) returns (rows: seq<AliasRow>)
    ensures rows == AliasRows(items)
  {
    rows := [];
    for i := 0 to |items|
      invariant rows == AliasRows(items[..i])
    {
      ghost var before := rows;
      for k := 0 to |items[i].aliases|
        invariant rows == before + ItemAliases(items[i])[..k]
      {
        rows := rows + [AliasRow(items[i].row.id, items[i].aliases[k])];
      }
      assert items[..i + 1][..i] == items[..i];
      assert ItemAliases(items[i])[..|items[i].aliases|] == ItemAliases(items[i]);
    }
    assert items[..|items|] == items;
  }

  /** The tag rows of the index, by tag id. */
  method WriteTags(ids: map<string, nat>, names: map<string, string>, ghost order: seq<string>) returns (tags: seq<string>)
    requires Distinct(order) && ids == Numbered(order) && forall name :: name in order ==> name in names
    ensures tags == Spell(names, order)
  {
    NumberedAt(order);
    DistinctLength(order, ids.Keys);
    tags := [];
    for id := 1 to |ids.Keys| + 1
      invariant |tags| == id - 1 && forall k :: 0 <= k < |tags| ==> tags[k] == names[order[k]]
    {
      assert order[id - 1] in ids;
      var name :| name in ids && ids[name] == id;
      assert name == order[id - 1];
      tags := tags + [names[name]];
    }
  }

  lemma {:induction false} DistinctLength(s: seq<string>, elements: set<string>)
    requires Distinct(s) && forall x :: x in elements <==> x in s
    ensures |elements| == |s|
  {
    if s == [] {
      assert elements == {};
    } else {
      var front, last := s[..|s| - 1], s[|s| - 1];
      assert s == front + [last];
      DistinctLength(front, elements - {last});
    }
  }

  /** The item_tags rows, item by item. */
  method WriteLinks(normalize: Normalize, items: seq<PortableItem>, ids: map<string, nat>) returns (links: set<Link>)
    requires forall item :: item in items ==> forall tag :: tag in item.tags ==> normalize(tag) in ids
    ensures links == Links(normalize, items, ids)
  {
    links := {};
    for i := 0 to |items|
      invariant links == Links(normalize, items[..i], ids)
    {
      var item := items[i];
      ghost var before := links;
      for k := 0 to |item.tags|
        invariant links == before + set tag | tag in item.tags[..k] :: Link(item.row.id, ids[normalize(tag)])
      {
        assert item.tags[..k + 1] == item.tags[..k] + [item.tags[k]];
        links := links + {Link(item.row.id, ids[normalize(item.tags[k])])};
      }
      assert item.tags[..|item.tags|] == item.tags && items[..i + 1] == items[..i] + [item];
    }
    assert items[..|items|] == items;
  }

  /** The whole import: the tables it leaves are `Import`. */
  method ImportInventory(normalize: Normalize, d: Document) returns (t: Tables)
    requires UniqueIds(TaggedAll(d.items))
    ensures t == Import(normalize, d)
  {
    OrderCovers(normalize, d.items);
    NumberedAt(Order(normalize, d.items));
    var aliases := WriteAliases(d.items);
    var ids, names := WorkspaceTagIndex(normalize, TaggedAll(d.items));
    var tags := WriteTags(ids, names, Order(normalize, d.items));
    var links := WriteLinks(normalize, d.items, ids);
    t := Tables(Sort(TREES_BY_ID, d.categories), Sort(TREES_BY_ID, d.locations), RowsOf(Sort(ITEMS_BY_ID, d.items)),
                aliases, tags, links, Sort(EVENTS_BY_ID, d.events));
  }

  // ----- export

  function AliasesOf(rows: seq<AliasRow>, id: nat): seq<string> {
    if rows == [] then []
    else
      var last := rows[|rows| - 1];
      AliasesOf(rows[..|rows| - 1], id) + (if last.itemId == id then [last.name] else [])
  }

  /** The names of an item's tags in tag-id order. */
  function TagsOf(tags: seq<string>, links: set<Link>, id: nat): seq<string> {
    if tags == [] then []
    else TagsOf(tags[..|tags| - 1], links, id) + (if Link(id, |tags|) in links then [tags[|tags| - 1]] else [])
  }

  function ExportItem(t: Tables, row: ItemRow): PortableItem {
    PortableItem(row, AliasesOf(t.aliases, row.id), TagsOf(t.tags, t.links, row.id))
  }

  function ExportItems(t: Tables, rows: seq<ItemRow>): (r: seq<PortableItem>)
    ensures |r| == |rows| && forall i :: 0 <= i < |r| ==> r[i] == ExportItem(t, rows[i])
  {
    seq(|rows|, i requires 0 <= i < |rows| => ExportItem(t, rows[i]))
  }

  function Export(t: Tables): Document {
    Document(t.categories, t.locations, ExportItems(t, t.items), t.events)
  }

  // ----- keyset paging

  const PAGE := 250

  /** `where id > after order by id limit n`. */
  function RowsAfter(rows: seq<ItemRow>, after: nat): seq<ItemRow> {
    if rows == [] then []
    else if rows[0].id > after then [rows[0]] + RowsAfter(rows[1..], after)
    else RowsAfter(rows[1..], after)
  }

  function Limit(rows: seq<ItemRow>, n: nat): seq<ItemRow> {
    if |rows| <= n then rows else rows[..n]
  }

  ghost predicate Ascending(rows: seq<ItemRow>) {
    forall i, j :: 0 <= i < j < |rows| ==> rows[i].id < rows[j].id
  }

  lemma {:induction false} RowsAfterIsSuffix(rows: seq<ItemRow>, k: nat)
    requires Ascending(rows) && k <= |rows|
    ensures k == 0 && (|rows| > 0 ==> rows[0].id > 0) ==> RowsAfter(rows, 0) == rows
    ensures k > 0 ==> RowsAfter(rows, rows[k - 1].id) == rows[k..]
  {
    if k == 0 {
      if |rows| > 0 && rows[0].id > 0 {
        AllAfter(rows, 0);
      }
    } else {
      var after := rows[k - 1].id;
      if k == 1 {
        AllAfter(rows[1..], after);
      } else {
        RowsAfterIsSuffix(rows[1..], k - 1);
        assert rows[1..][k - 1..] == rows[k..];
      }
    }
  }

  lemma {:induction false} AllAfter(rows: seq<ItemRow>, after: nat)
    requires Ascending(rows) && (|rows| > 0 ==> rows[0].id > after)
    ensures RowsAfter(rows, after) == rows
  {
    if |rows| > 0 {
      AllAfter(rows[1..], after);
      assert rows == [rows[0]] + rows[1..];
    }
  }

  function KeyBefore(rows: seq<ItemRow>, k: nat): nat
    requires k <= |rows|
  {
    if k == 0 then 0 else rows[k - 1].id
  }

  lemma NextPage(t: Tables, k: nat)
    requires Ascending(t.items) && (|t.items| > 0 ==> t.items[0].id > 0) && k <= |t.items|
    ensures var page := Limit(RowsAfter(t.items, KeyBefore(t.items, k)), PAGE);
            if page == [] then k == |t.items|
            else
              && k + |page| <= |t.items| && page[|page| - 1].id == KeyBefore(t.items, k + |page|)
              && ExportItems(t, t.items[..k]) + ExportItems(t, page) == ExportItems(t, t.items[..k + |page|])
  {
    RowsAfterIsSuffix(t.items, k);
    var rest := RowsAfter(t.items, KeyBefore(t.items, k));
    assert rest == t.items[k..];
    var page := Limit(rest, PAGE);
    assert page == t.items[k..k + |page|];
    assert t.items[..k + |page|] == t.items[..k] + page;
  }

  /** One query: the next rows in id order, at most a page of them, none left out. */
  method FetchPage(t: Tables, after: nat) returns (rows: seq<ItemRow>)
    ensures rows == Limit(RowsAfter(t.items, after), PAGE)
    ensures |rows| <= 250 && rows <= RowsAfter(t.items, after) && (rows == [] <==> RowsAfter(t.items, after) == [])
  {
    rows := Limit(RowsAfter(t.items, after), PAGE);
  }

  /** `_stream_item_dicts`: the pages together are every item once, in id order. */
  method StreamItems(t: Tables) returns (items: seq<PortableItem>)
    requires Ascending(t.items) && (|t.items| > 0 ==> t.items[0].id > 0)
    ensures items == ExportItems(t, t.items)
  {
    items := [];
    var after := 0;
    ghost var k := 0;
    while true
      invariant k <= |t.items| && items == ExportItems(t, t.items[..k])
      invariant after == KeyBefore(t.items, k)
      decreases |t.items| - k
    {
      NextPage(t, k);
      var rows := FetchPage(t, after);
      if rows == [] {
        assert t.items[..k] == t.items;
        return;
      }
      items := items + ExportItems(t, rows);
      k := k + |rows|;
      after := rows[|rows| - 1].id;
    }
  }

  /** The whole export, from tables whose rows are in id order. */
  method ExportInventory(t: Tables) returns (d: Document)
    requires Ascending(t.items) && (|t.items| > 0 ==> t.items[0].id > 0)
    ensures d == Export(t)
  {
    var items := StreamItems(t);
    return Document(t.categories, t.locations, items, t.events);
  }

  // ----- the round trip

  predicate UniqueItems(items: seq<PortableItem>) {
    forall i, j :: 0 <= i < j < |items| ==> items[i].row.id != items[j].row.id
  }

  /** All items spell a normalized tag the same way, as the document validators demand. */
  predicate OneSpelling(normalize: Normalize, items: seq<PortableItem>) {
    forall i, j :: 0 <= i < |items| && 0 <= j < |items| ==>
      forall s, t :: s in items[i].tags && t in items[j].tags && normalize(s) == normalize(t) ==> s == t
  }

  lemma UniqueIdsOfItems(items: seq<PortableItem>)
    ensures UniqueIds(TaggedAll(items)) <==> UniqueItems(items)
  {
  }

  lemma {:induction false} InsertCommutes(x: PortableItem, items: seq<PortableItem>)
    ensures TaggedAll(Insert(ITEMS_BY_ID, x, items)) == Insert(BY_ID, Tagged(x.row.id, x.tags), TaggedAll(items))
  {
    if items != [] {
      assert TaggedAll(items)[1..] == TaggedAll(items[1..]);
      InsertCommutes(x, items[1..]);
    }
  }

  lemma {:induction false} SortCommutes(items: seq<PortableItem>)
    ensures TaggedAll(Sort(ITEMS_BY_ID, items)) == Sort(BY_ID, TaggedAll(items))
  {
    if items != [] {
      assert TaggedAll(items)[1..] == TaggedAll(items[1..]);
      SortCommutes(items[1..]);
      InsertCommutes(items[0], Sort(ITEMS_BY_ID, items[1..]));
    }
  }

  lemma ItemsSort(items: seq<PortableItem>)
    requires UniqueItems(items)
    ensures var sorted := Sort(ITEMS_BY_ID, items);
            && Sorted(ITEMS_BY_ID, sorted) && UniqueItems(sorted) && |sorted| == |items|
            && (forall item :: item in sorted <==> item in items)
            && Ascending(RowsOf(sorted))
  {
    var sorted := Sort(ITEMS_BY_ID, items);
    SortSorts(ITEMS_BY_ID, items);
    SortKeepsDistinct(ITEMS_BY_ID, items);
    forall i, j | 0 <= i < j < |sorted| ensures sorted[i].row.id < sorted[j].row.id {
      assert sorted[i] in items && sorted[j] in items && sorted[i] != sorted[j];
      assert ITEMS_BY_ID(sorted[i], sorted[j]);
    }
  }

  lemma {:induction false} NoAliases(rows: seq<AliasRow>, id: nat)
    requires forall row :: row in rows ==> row.itemId != id
    ensures AliasesOf(rows, id) == []
  {
    if rows != [] {
      NoAliases(rows[..|rows| - 1], id);
    }
  }

  lemma {:induction false} AliasesInTwo(a: seq<AliasRow>, b: seq<AliasRow>, id: nat)
    ensures AliasesOf(a + b, id) == AliasesOf(a, id) + AliasesOf(b, id)
  {
    if b == [] {
      assert a + b == a;
    } else {
      assert (a + b)[..|a + b| - 1] == a + b[..|b| - 1];
      AliasesInTwo(a, b[..|b| - 1], id);
    }
  }

  lemma {:induction false} OwnAliases(item: PortableItem, n: nat)
    requires n <= |item.aliases|
    ensures AliasesOf(ItemAliases(item)[..n], item.row.id) == item.aliases[..n]
  {
    if n > 0 {
      OwnAliases(item, n - 1);
      assert ItemAliases(item)[..n][..n - 1] == ItemAliases(item)[..n - 1];
      assert item.aliases[..n] == item.aliases[..n - 1] + [item.aliases[n - 1]];
    }
  }

  lemma {:induction false} AliasRowsBelong(items: seq<PortableItem>, row: AliasRow)
    requires row in AliasRows(items)
    ensures exists i :: 0 <= i < |items| && items[i].row.id == row.itemId
  {
    var front, last := items[..|items| - 1], items[|items| - 1];
    if row in AliasRows(front) {
      AliasRowsBelong(front, row);
      var i :| 0 <= i < |front| && front[i].row.id == row.itemId;
      assert items[i].row.id == row.itemId;
    } else {
      assert row in ItemAliases(last);
    }
  }

  /** Every item gets its aliases back, in order. */
  lemma {:induction false} AliasesReturn(items: seq<PortableItem>, i: nat)
    requires UniqueItems(items) && i < |items|
    ensures AliasesOf(AliasRows(items), items[i].row.id) == items[i].aliases
  {
    var front, last := items[..|items| - 1], items[|items| - 1];
    var id := items[i].row.id;
    AliasesInTwo(AliasRows(front), ItemAliases(last), id);
    if i < |front| {
      AliasesReturn(front, i);
      NoAliases(ItemAliases(last), id);
    } else {
      forall row | row in AliasRows(front) ensures row.itemId != id {
        AliasRowsBelong(front, row);
      }
      NoAliases(AliasRows(front), id);
      OwnAliases(last, |last.aliases|);
      assert ItemAliases(last)[..|last.aliases|] == ItemAliases(last) && last.aliases[..|last.aliases|] == last.aliases;
    }
  }

  function NamesOfItem(normalize: Normalize, item: PortableItem): set<string> {
    Elements(Names(normalize, item.tags))
  }

  lemma LinkMeans(normalize: Normalize, items: seq<PortableItem>, ids: map<string, nat>, item: PortableItem, n: nat)
    requires UniqueItems(items) && item in items
    requires forall other :: other in items ==> forall tag :: tag in other.tags ==> normalize(tag) in ids
    ensures Link(item.row.id, n) in Links(normalize, items, ids)
            <==> exists tag :: tag in item.tags && ids[normalize(tag)] == n
  {
    if Link(item.row.id, n) in Links(normalize, items, ids) {
      var other, tag :| other in items && tag in other.tags && Link(other.row.id, ids[normalize(tag)]) == Link(item.row.id, n);
      assert other == item;
    }
  }

  lemma NameIsTagged(normalize: Normalize, item: PortableItem, name: string)
    ensures name in NamesOfItem(normalize, item) <==> exists tag :: tag in item.tags && normalize(tag) == name
  {
    if name in NamesOfItem(normalize, item) {
      var p :| 0 <= p < |item.tags| && Names(normalize, item.tags)[p] == name;
      assert item.tags[p] in item.tags;
    }
    forall tag | tag in item.tags && normalize(tag) == name ensures name in NamesOfItem(normalize, item) {
      var p :| 0 <= p < |item.tags| && item.tags[p] == tag;
      assert Names(normalize, item.tags)[p] == name;
    }
  }

  lemma LinkedTags(normalize: Normalize, items: seq<PortableItem>, ids: map<string, nat>, item: PortableItem, k: nat)
    requires UniqueItems(items) && item in items && k < |Order(normalize, items)|
    requires ids == Numbered(Order(normalize, items)) && Distinct(Order(normalize, items))
    requires forall other :: other in items ==> forall tag :: tag in other.tags ==> normalize(tag) in ids
    ensures Link(item.row.id, k + 1) in Links(normalize, items, ids)
            <==> Order(normalize, items)[k] in NamesOfItem(normalize, item)
  {
    var order := Order(normalize, items);
    NumberedAt(order);
    LinkMeans(normalize, items, ids, item, k + 1);
    NameIsTagged(normalize, item, order[k]);
    forall tag | tag in item.tags ensures ids[normalize(tag)] == k + 1 <==> normalize(tag) == order[k] {
      var n :| 0 <= n < |order| && order[n] == normalize(tag);
      assert ids[order[n]] == n + 1;
    }
  }

  lemma SpellOneMore(spellings: map<string, string>, names: seq<string>, name: string)
    requires name in spellings && forall x :: x in names ==> x in spellings
    ensures forall x :: x in names + [name] ==> x in spellings
    ensures Spell(spellings, names + [name]) == Spell(spellings, names) + [spellings[name]]
  {
    assert (names + [name])[..|names|] == names;
  }

  lemma {:induction false} TagsReturn(spellings: map<string, string>, order: seq<string>, links: set<Link>, id: nat, names: set<string>)
    requires forall name :: name in order ==> name in spellings
    requires forall k :: 0 <= k < |order| ==> (Link(id, k + 1) in links <==> order[k] in names)
    ensures forall name :: name in Kept(order, names) ==> name in spellings
    ensures TagsOf(Spell(spellings, order), links, id) == Spell(spellings, Kept(order, names))
  {
    KeptIn(order, names);
    if order != [] {
      var front, last := order[..|order| - 1], order[|order| - 1];
      TagsReturn(spellings, front, links, id, names);
      SpellOneMore(spellings, Kept(front, names), last);
      assert Spell(spellings, order)[..|front|] == Spell(spellings, front);
    }
  }

  /** The items of an imported document, exported: rows and aliases as they were, tags in tag order. */
  lemma ItemReturns(normalize: Normalize, d: Document, item: PortableItem)
    requires UniqueItems(d.items) && UniqueIds(TaggedAll(d.items)) && item in d.items
    ensures forall name :: name in Kept(Order(normalize, d.items), NamesOfItem(normalize, item)) ==> name in Spellings(normalize, d.items)
    ensures ExportItem(Import(normalize, d), item.row)
            == PortableItem(item.row, item.aliases,
                            Spell(Spellings(normalize, d.items), Kept(Order(normalize, d.items), NamesOfItem(normalize, item))))
  {
    var order, spellings := Order(normalize, d.items), Spellings(normalize, d.items);
    OrderCovers(normalize, d.items);
    NumberedAt(order);
    var t := Import(normalize, d);
    var i :| 0 <= i < |d.items| && d.items[i] == item;
    AliasesReturn(d.items, i);
    forall k | 0 <= k < |order| ensures Link(item.row.id, k + 1) in t.links <==> order[k] in NamesOfItem(normalize, item) {
      LinkedTags(normalize, d.items, Numbered(order), item, k);
    }
    TagsReturn(spellings, order, t.links, item.row.id, NamesOfItem(normalize, item));
  }

  /** What the v3 validators establish about the parts that matter here. */
  predicate Accepted(normalize: Normalize, d: Document) {
    && UniqueItems(d.items) && UniqueIds(TaggedAll(d.items)) && OneSpelling(normalize, d.items)
    && (forall i :: 0 <= i < |d.items| ==> d.items[i].row.id > 0)
  }

  lemma OccurrenceIsTag(normalize: Normalize, items: seq<PortableItem>, e: Occurrence)
    requires e in Occurrences(normalize, TaggedAll(items))
    ensures normalize(e.spelling) == e.name
    ensures exists i :: 0 <= i < |items| && e.spelling in items[i].tags
  {
    var tagged := TaggedAll(items);
    OccurrencesMembers(normalize, tagged, e);
    var t :| t in tagged && e in InItem(normalize, t);
    var i :| 0 <= i < |tagged| && tagged[i] == t;
    var p :| 0 <= p < |t.tags| && InItem(normalize, t)[p] == e;
    assert e.spelling in items[i].tags;
  }

  /** Every kept spelling is some item's tag. */
  lemma SpellingOccurs(normalize: Normalize, items: seq<PortableItem>, name: string)
    requires name in Spellings(normalize, items)
    ensures normalize(Spellings(normalize, items)[name]) == name
    ensures exists i :: 0 <= i < |items| && Spellings(normalize, items)[name] in items[i].tags
  {
    var o := Occurrences(normalize, TaggedAll(items));
    SpellingsOccur(o);
    var e :| e in o && e.name == name && e.spelling == SpellingsOf(o)[name];
    OccurrenceIsTag(normalize, items, e);
  }

  lemma TagIsSpelled(normalize: Normalize, items: seq<PortableItem>, item: PortableItem, tag: string)
    requires OneSpelling(normalize, items) && item in items && tag in item.tags
    ensures normalize(tag) in Spellings(normalize, items) && Spellings(normalize, items)[normalize(tag)] == tag
  {
    var tagged := TaggedAll(items);
    var i :| 0 <= i < |items| && items[i] == item;
    var p :| 0 <= p < |item.tags| && item.tags[p] == tag;
    var e := InItem(normalize, tagged[i])[p];
    OccurrencesMembers(normalize, tagged, e);
    SpellingsOccur(Occurrences(normalize, tagged));
    assert e in Occurrences(normalize, tagged) && e.name == normalize(tag);
    SpellingOccurs(normalize, items, normalize(tag));
  }

  /** One item of the exported document against the same item of the imported one. */
  ghost predicate SameItem(normalize: Normalize, order: seq<string>, before: PortableItem, after: PortableItem) {
    && after.row == before.row && after.aliases == before.aliases
    && Elements(after.tags) == Elements(before.tags)
    && Names(normalize, after.tags) == Kept(order, NamesOfItem(normalize, before))
  }

  lemma SpelledNames(normalize: Normalize, spellings: map<string, string>, kept: seq<string>)
    requires forall name :: name in kept ==> name in spellings && normalize(spellings[name]) == name
    ensures Names(normalize, Spell(spellings, kept)) == kept
  {
    forall k | 0 <= k < |kept| ensures Names(normalize, Spell(spellings, kept))[k] == kept[k] {
      assert kept[k] in kept;
    }
  }

  lemma SpelledElements(normalize: Normalize, spellings: map<string, string>, kept: seq<string>, tags: seq<string>)
    requires forall name :: name in kept ==> name in spellings && exists tag :: tag in tags && normalize(tag) == name
    requires forall tag :: tag in tags ==> normalize(tag) in kept && spellings[normalize(tag)] == tag
    ensures Elements(Spell(spellings, kept)) == Elements(tags)
  {
    var spelled := Spell(spellings, kept);
    forall tag | tag in spelled ensures tag in tags {
      var k :| 0 <= k < |spelled| && spelled[k] == tag;
      assert kept[k] in kept;
    }
    forall tag | tag in tags ensures tag in spelled {
      var k :| 0 <= k < |kept| && kept[k] == normalize(tag);
      assert spelled[k] == tag;
    }
  }

  lemma SpelledTags(normalize: Normalize, items: seq<PortableItem>, item: PortableItem)
    requires OneSpelling(normalize, items) && item in items && UniqueIds(TaggedAll(items))
    requires forall name :: name in Kept(Order(normalize, items), NamesOfItem(normalize, item)) ==> name in Spellings(normalize, items)
    ensures var kept := Kept(Order(normalize, items), NamesOfItem(normalize, item));
            var tags := Spell(Spellings(normalize, items), kept);
            Names(normalize, tags) == kept && Elements(tags) == Elements(item.tags)
  {
    var order, spellings := Order(normalize, items), Spellings(normalize, items);
    var kept := Kept(order, NamesOfItem(normalize, item));
    OrderCovers(normalize, items);
    KeptIn(order, NamesOfItem(normalize, item));
    forall name | name in kept ensures normalize(spellings[name]) == name && exists tag :: tag in item.tags && normalize(tag) == name {
      SpellingOccurs(normalize, items, name);
      NameIsTagged(normalize, item, name);
    }
    forall tag | tag in item.tags ensures normalize(tag) in kept && spellings[normalize(tag)] == tag {
      TagIsSpelled(normalize, items, item, tag);
      NameIsTagged(normalize, item, normalize(tag));
    }
    SpelledNames(normalize, spellings, kept);
    SpelledElements(normalize, spellings, kept, item.tags);
  }

  /** The same records in id order. */
  ghost predicate InIdOrder(document: Document, exported: Document) {
    && multiset(exported.categories) == multiset(document.categories) && multiset(exported.locations) == multiset(document.locations)
    && multiset(exported.events) == multiset(document.events) && |exported.items| == |document.items|
    && (forall i, j :: 0 <= i < j < |exported.categories| ==> exported.categories[i].id <= exported.categories[j].id)
    && (forall i, j :: 0 <= i < j < |exported.locations| ==> exported.locations[i].id <= exported.locations[j].id)
    && (forall i, j :: 0 <= i < j < |exported.events| ==> exported.events[i].id <= exported.events[j].id)
    && (forall i, j :: 0 <= i < j < |exported.items| ==> exported.items[i].row.id < exported.items[j].row.id)
  }

  lemma TreesInOrder(rows: seq<TreeRow>)
    ensures var sorted := Sort(TREES_BY_ID, rows);
            multiset(sorted) == multiset(rows) && forall i, j :: 0 <= i < j < |sorted| ==> sorted[i].id <= sorted[j].id
  {
    SortPermutes(TREES_BY_ID, rows);
    SortSorts(TREES_BY_ID, rows);
    var sorted := Sort(TREES_BY_ID, rows);
    forall i, j | 0 <= i < j < |sorted| ensures sorted[i].id <= sorted[j].id {
      assert TREES_BY_ID(sorted[i], sorted[j]);
    }
  }

  lemma EventsInOrder(rows: seq<EventRow>)
    ensures var sorted := Sort(EVENTS_BY_ID, rows);
            multiset(sorted) == multiset(rows) && forall i, j :: 0 <= i < j < |sorted| ==> sorted[i].id <= sorted[j].id
  {
    SortPermutes(EVENTS_BY_ID, rows);
    SortSorts(EVENTS_BY_ID, rows);
    var sorted := Sort(EVENTS_BY_ID, rows);
    forall i, j | 0 <= i < j < |sorted| ensures sorted[i].id <= sorted[j].id {
      assert EVENTS_BY_ID(sorted[i], sorted[j]);
    }
  }

  ghost predicate Same(a: PortableItem, b: PortableItem) {
    a.row == b.row && a.aliases == b.aliases && forall tag :: tag in a.tags <==> tag in b.tags
  }

  /** Each item of the document comes back, the same but for the order of its tags. */
  ghost predicate AllReturn(document: Document, exported: Document) {
    forall item :: item in document.items ==> exists k :: 0 <= k < |exported.items| && Same(item, exported.items[k])
  }

  /** Distinct positive ids, and one spelling for each tag. */
  lemma AcceptedMeans(normalize: Normalize, d: Document)
    ensures Accepted(normalize, d) <==>
      && (forall i, j :: 0 <= i < j < |d.items| ==> d.items[i].row.id != d.items[j].row.id)
      && (forall item :: item in d.items ==> item.row.id >= 1)
      && forall a, b, s, t :: a in d.items && b in d.items && s in a.tags && t in b.tags && normalize(s) == normalize(t) ==> s == t
  {
    UniqueIdsOfItems(d.items);
  }

  lemma ItemsReturn(normalize: Normalize, d: Document)
    requires Accepted(normalize, d)
    ensures AllReturn(d, Export(Import(normalize, d)))
  {
    ImportThenExport(normalize, d);
    ItemsSort(d.items);
    var e, sorted := Export(Import(normalize, d)), Sort(ITEMS_BY_ID, d.items);
    forall item | item in d.items
      ensures exists k :: 0 <= k < |e.items| && Same(item, e.items[k])
    {
      assert item in sorted;
      var k :| 0 <= k < |sorted| && sorted[k] == item;
      assert SameItem(normalize, Order(normalize, d.items), item, e.items[k]);
      forall tag ensures tag in e.items[k].tags <==> tag in item.tags {
        assert tag in Elements(e.items[k].tags) <==> tag in Elements(item.tags);
      }
      assert Same(item, e.items[k]);
    }
  }

  lemma ItemsInOrder(normalize: Normalize, d: Document)
    requires Accepted(normalize, d)
    ensures var items := Export(Import(normalize, d)).items;
            |items| == |d.items| && forall i, j :: 0 <= i < j < |items| ==> items[i].row.id < items[j].row.id
  {
    ItemsSort(d.items);
    var items, rows := Export(Import(normalize, d)).items, RowsOf(Sort(ITEMS_BY_ID, d.items));
    forall i, j | 0 <= i < j < |items| ensures items[i].row.id < items[j].row.id {
      assert items[i].row == rows[i] && items[j].row == rows[j];
    }
  }

  /**
   * An accepted document, imported and exported: the same trees and events and every item with its
   * row, aliases (in order) and set of tags, all in id order.
   */
  lemma NothingIsLost(normalize: Normalize, d: Document)
    requires Accepted(normalize, d)
    ensures InIdOrder(d, Export(Import(normalize, d))) && AllReturn(d, Export(Import(normalize, d)))
  {
    TreesInOrder(d.categories);
    TreesInOrder(d.locations);
    EventsInOrder(d.events);
    ItemsInOrder(normalize, d);
    ItemsReturn(normalize, d);
  }

  /**
   * Import then export keeps everything: the trees, items and events in id order, each item's row,
   * aliases (in order) and set of tags.
   */
  lemma ImportThenExport(normalize: Normalize, d: Document)
    requires Accepted(normalize, d)
    ensures var e := Export(Import(normalize, d));
            var sorted := Sort(ITEMS_BY_ID, d.items);
            && e.categories == Sort(TREES_BY_ID, d.categories) && e.locations == Sort(TREES_BY_ID, d.locations)
            && e.events == Sort(EVENTS_BY_ID, d.events)
            && |e.items| == |sorted| == |d.items|
            && forall i :: 0 <= i < |sorted| ==> SameItem(normalize, Order(normalize, d.items), sorted[i], e.items[i])
  {
    var e := Export(Import(normalize, d));
    var sorted := Sort(ITEMS_BY_ID, d.items);
    ItemsSort(d.items);
    forall i | 0 <= i < |sorted| ensures SameItem(normalize, Order(normalize, d.items), sorted[i], e.items[i]) {
      assert sorted[i] in d.items;
      ItemReturns(normalize, d, sorted[i]);
      SpelledTags(normalize, d.items, sorted[i]);
    }
  }

  lemma {:induction false} KeptSame(list: seq<string>, s: set<string>, t: set<string>)
    requires forall x :: x in list ==> (x in s <==> x in t)
    ensures Kept(list, s) == Kept(list, t)
  {
    if list != [] {
      KeptSame(list[..|list| - 1], s, t);
    }
  }

  lemma ExportedIsAccepted(normalize: Normalize, d: Document)
    requires Accepted(normalize, d)
    ensures var e := Export(Import(normalize, d)); Accepted(normalize, e) && Sorted(ITEMS_BY_ID, e.items)
  {
    var e := Export(Import(normalize, d));
    var sorted := Sort(ITEMS_BY_ID, d.items);
    ItemsSort(d.items);
    ImportThenExport(normalize, d);
    forall i | 0 <= i < |sorted| ensures e.items[i].row == sorted[i].row && sorted[i].row.id > 0 {
      assert SameItem(normalize, Order(normalize, d.items), sorted[i], e.items[i]);
      assert sorted[i] in d.items;
    }
    forall i, j | 0 <= i < |e.items| && 0 <= j < |e.items|
      ensures forall s, t :: s in e.items[i].tags && t in e.items[j].tags && normalize(s) == normalize(t) ==> s == t
    {
      assert SameItem(normalize, Order(normalize, d.items), sorted[i], e.items[i]);
      assert SameItem(normalize, Order(normalize, d.items), sorted[j], e.items[j]);
      assert sorted[i] in d.items && sorted[j] in d.items;
      forall s | s in e.items[i].tags ensures s in sorted[i].tags {
        assert s in Elements(e.items[i].tags);
      }
      forall t | t in e.items[j].tags ensures t in sorted[j].tags {
        assert t in Elements(e.items[j].tags);
      }
    }
    UniqueIdsOfItems(e.items);
  }

  lemma TagOrderReturns(normalize: Normalize, d: Document)
    requires Accepted(normalize, d)
    ensures Order(normalize, Export(Import(normalize, d)).items) == Order(normalize, d.items)
  {
    var e := Export(Import(normalize, d));
    var order := Order(normalize, d.items);
    var sorted := Sort(ITEMS_BY_ID, d.items);
    ExportedIsAccepted(normalize, d);
    ImportThenExport(normalize, d);
    SortCommutes(d.items);
    OrderCovers(normalize, d.items);
    forall i | 0 <= i < |sorted|
      ensures Names(normalize, TaggedAll(e.items)[i].tags) == Kept(order, Elements(Names(normalize, TaggedAll(sorted)[i].tags)))
    {
      assert SameItem(normalize, order, sorted[i], e.items[i]);
    }
    TagOrderIsStable(normalize, TaggedAll(sorted), TaggedAll(e.items), order);
    SortedStays(ITEMS_BY_ID, e.items);
    SortCommutes(e.items);
  }

  lemma SpellingsReturn(normalize: Normalize, d: Document, name: string)
    requires Accepted(normalize, d) && name in Order(normalize, d.items)
    ensures var e := Export(Import(normalize, d));
            name in Spellings(normalize, d.items) && name in Spellings(normalize, e.items)
            && Spellings(normalize, e.items)[name] == Spellings(normalize, d.items)[name]
  {
    var e := Export(Import(normalize, d));
    ExportedIsAccepted(normalize, d);
    ImportThenExport(normalize, d);
    TagOrderReturns(normalize, d);
    OrderCovers(normalize, d.items);
    OrderCovers(normalize, e.items);
    SpellingOccurs(normalize, e.items, name);
    var i :| 0 <= i < |e.items| && Spellings(normalize, e.items)[name] in e.items[i].tags;
    SpelledByOriginal(normalize, d, i, Spellings(normalize, e.items)[name]);
  }

  lemma SpelledByOriginal(normalize: Normalize, d: Document, i: nat, tag: string)
    requires Accepted(normalize, d) && i < |Export(Import(normalize, d)).items|
    requires tag in Export(Import(normalize, d)).items[i].tags
    ensures normalize(tag) in Spellings(normalize, d.items) && Spellings(normalize, d.items)[normalize(tag)] == tag
  {
    var e := Export(Import(normalize, d));
    var sorted := Sort(ITEMS_BY_ID, d.items);
    ImportThenExport(normalize, d);
    ItemsSort(d.items);
    assert SameItem(normalize, Order(normalize, d.items), sorted[i], e.items[i]);
    assert tag in Elements(e.items[i].tags) && sorted[i] in d.items;
    TagIsSpelled(normalize, d.items, sorted[i], tag);
  }

  lemma SecondExportSame(normalize: Normalize, d: Document, i: nat)
    requires Accepted(normalize, d) && i < |Sort(ITEMS_BY_ID, d.items)|
    requires Accepted(normalize, Export(Import(normalize, d)))
    ensures var e := Export(Import(normalize, d));
            i < |e.items| && ExportItem(Import(normalize, e), e.items[i].row) == e.items[i]
  {
    var e := Export(Import(normalize, d));
    var before := Sort(ITEMS_BY_ID, d.items)[i];
    var order, names := Order(normalize, d.items), NamesOfItem(normalize, before);
    ItemsSort(d.items);
    assert before in d.items;
    ImportThenExport(normalize, d);
    TagOrderReturns(normalize, d);
    ItemReturns(normalize, d, before);
    ItemReturns(normalize, e, e.items[i]);
    assert SameItem(normalize, order, before, e.items[i]);
    KeptIn(order, names);
    KeptSame(order, NamesOfItem(normalize, e.items[i]), names);
    var kept := Kept(order, names);
    forall k | 0 <= k < |kept|
      ensures Spellings(normalize, e.items)[kept[k]] == Spellings(normalize, d.items)[kept[k]]
    {
      assert kept[k] in order;
      SpellingsReturn(normalize, d, kept[k]);
    }
  }

  /** The tag numbers settle after one round: a second import and export changes nothing at all. */
  lemma ExportIsFixedPoint(normalize: Normalize, d: Document)
    requires Accepted(normalize, d)
    ensures var e := Export(Import(normalize, d));
            && Accepted(normalize, e)
            && Import(normalize, e).tags == Import(normalize, d).tags
            && Export(Import(normalize, e)) == e
  {
    var e := Export(Import(normalize, d));
    ExportedIsAccepted(normalize, d);
    var t := Import(normalize, e);
    ItemsSort(d.items);
    TagNamesReturn(normalize, d);
    SortedStays(ITEMS_BY_ID, e.items);
    SortSorts(TREES_BY_ID, d.categories);
    SortedStays(TREES_BY_ID, e.categories);
    SortSorts(TREES_BY_ID, d.locations);
    SortedStays(TREES_BY_ID, e.locations);
    SortSorts(EVENTS_BY_ID, d.events);
    SortedStays(EVENTS_BY_ID, e.events);
    forall i | 0 <= i < |e.items| ensures ExportItem(t, t.items[i]) == e.items[i] {
      SecondExportSame(normalize, d, i);
    }
    assert ExportItems(t, t.items) == e.items;
  }

  lemma TagNamesReturn(normalize: Normalize, d: Document)
    requires Accepted(normalize, d) && Accepted(normalize, Export(Import(normalize, d)))
    ensures Import(normalize, Export(Import(normalize, d))).tags == Import(normalize, d).tags
  {
    TagOrderReturns(normalize, d);
    var order := Order(normalize, d.items);
    forall k | 0 <= k < |order|
      ensures Import(normalize, Export(Import(normalize, d))).tags[k] == Import(normalize, d).tags[k]
    {
      SpellingsReturn(normalize, d, order[k]);
    }
  }
}
