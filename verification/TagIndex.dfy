/**
 * Tag numbering of the portable import.  `_workspace_tag_index`
 * (src/ah_there_it_is/storage.py:1822-1839) reads the item spool once, in any
 * order; its slower twin (storage.py:1547, 1580-1588) sorts the items and
 * takes first occurrences.  Both number the tags the same way.
 */
module TagIndex {
  import opened Prelude
  import opened Sorting

  /** `normalize_name`, an opaque function of the spelling. */
  type Normalize = string -> string

  datatype Tagged = Tagged(id: nat, tags: seq<string>)

  const BY_ID: (Tagged, Tagged) -> bool := (a: Tagged, b: Tagged) => a.id <= b.id

  predicate UniqueIds(items: seq<Tagged>) {
    forall i, j :: 0 <= i < j < |items| ==> items[i].id != items[j].id
  }

  // ----- the simple twin: items in id order, tags by first occurrence

  /** The keys of a dict after `setdefault` for each of these tags. */
  function AddTags(normalize: Normalize, known: seq<string>, tags: seq<string>): seq<string> {
    if tags == [] then known
    else
      var before := AddTags(normalize, known, tags[..|tags| - 1]);
      var name := normalize(tags[|tags| - 1]);
      if name in before then before else before + [name]
  }

  function TagOrder(normalize: Normalize, items: seq<Tagged>): seq<string> {
    if items == [] then []
    else AddTags(normalize, TagOrder(normalize, items[..|items| - 1]), items[|items| - 1].tags)
  }

  // ----- occurrences and first places

  datatype Place = Place(id: nat, position: nat) {
    predicate Before(other: Place) {
      id < other.id || (id == other.id && position < other.position)
    }
  }

  datatype Occurrence = Occurrence(name: string, spelling: string, place: Place)

  function InItem(normalize: Normalize, item: Tagged): (o: seq<Occurrence>)
    ensures |o| == |item.tags|
    ensures forall p :: 0 <= p < |o| ==> o[p] == Occurrence(normalize(item.tags[p]), item.tags[p], Place(item.id, p))
  {
    seq(|item.tags|, p requires 0 <= p < |item.tags| =>
      Occurrence(normalize(item.tags[p]), item.tags[p], Place(item.id, p)))
  }

  function Occurrences(normalize: Normalize, items: seq<Tagged>): seq<Occurrence> {
    if items == [] then []
    else Occurrences(normalize, items[..|items| - 1]) + InItem(normalize, items[|items| - 1])
  }

  /** `order` is exactly the first places of the names that occur. */
  ghost predicate FirstPlaces(o: seq<Occurrence>, order: map<string, Place>) {
    && (forall e :: e in o ==> e.name in order && !e.place.Before(order[e.name]))
    && (forall name :: name in order ==> exists e :: e in o && e.name == name && e.place == order[name])
  }

  /** The dict `setdefault` fills: each name with the spelling met first. */
  function SpellingsOf(o: seq<Occurrence>): map<string, string> {
    if o == [] then map[]
    else
      var before, last := SpellingsOf(o[..|o| - 1]), o[|o| - 1];
      if last.name in before then before else before[last.name := last.spelling]
  }

  lemma {:induction false} SpellingsOccur(o: seq<Occurrence>)
    ensures forall e :: e in o ==> e.name in SpellingsOf(o)
    ensures forall name :: name in SpellingsOf(o) ==>
              exists e :: e in o && e.name == name && e.spelling == SpellingsOf(o)[name]
  {
    if o != [] {
      var front, last := o[..|o| - 1], o[|o| - 1];
      SpellingsOccur(front);
      assert o == front + [last];
      forall name | name in SpellingsOf(o)
        ensures exists e :: e in o && e.name == name && e.spelling == SpellingsOf(o)[name]
      {
        if name in SpellingsOf(front) {
          var e :| e in front && e.name == name && e.spelling == SpellingsOf(front)[name];
          assert e in o;
        } else {
          assert last in o;
        }
      }
    }
  }

  lemma OneMoreOccurrence(o: seq<Occurrence>, e: Occurrence, order: map<string, Place>)
    requires FirstPlaces(o, order)
    ensures var better := e.name !in order || e.place.Before(order[e.name]);
            FirstPlaces(o + [e], if better then order[e.name := e.place] else order)
  {
    var better := e.name !in order || e.place.Before(order[e.name]);
    var now := if better then order[e.name := e.place] else order;
    forall name | name in now
      ensures exists f :: f in o + [e] && f.name == name && f.place == now[name]
    {
      if better && name == e.name {
        assert e in o + [e];
      } else {
        var f :| f in o && f.name == name && f.place == order[name];
        assert f in o + [e];
      }
    }
  }

  // ----- the sort of the names by their first place

  datatype Entry = Entry(place: Place, name: string)

  predicate EntryLeq(a: Entry, b: Entry) {
    a.place.Before(b.place) || (a.place == b.place && StringLeq(a.name, b.name))
  }

  const BY_PLACE: (Entry, Entry) -> bool := (a: Entry, b: Entry) => EntryLeq(a, b)

  lemma ByPlaceIsTotal()
    ensures TotalOrder(BY_PLACE)
  {
    forall a: Entry, b: Entry ensures BY_PLACE(a, b) || BY_PLACE(b, a) {
      StringLeqTotal(a.name, b.name);
    }
    forall a: Entry, b: Entry, c: Entry | BY_PLACE(a, b) && BY_PLACE(b, c) ensures BY_PLACE(a, c) {
      if a.place == b.place == c.place {
        StringLeqTransitive(a.name, b.name, c.name);
      }
    }
  }

  function Entries(order: map<string, Place>, keys: seq<string>): (r: seq<Entry>)
    requires forall key :: key in keys ==> key in order
    ensures |r| == |keys| && forall i :: 0 <= i < |r| ==> r[i] == Entry(order[keys[i]], keys[i])
  {
    seq(|keys|, i requires 0 <= i < |keys| => Entry(order[keys[i]], keys[i]))
  }

  function NamesOf(entries: seq<Entry>): (r: seq<string>)
    ensures |r| == |entries| && forall i :: 0 <= i < |r| ==> r[i] == entries[i].name
  {
    seq(|entries|, i requires 0 <= i < |entries| => entries[i].name)
  }

  /** `enumerate(names, start=1)` as a dict. */
  function Numbered(names: seq<string>): map<string, nat> {
    if names == [] then map[] else Numbered(names[..|names| - 1])[names[|names| - 1] := |names|]
  }

  // ----- the twin keeps first occurrences

  function Keep(o: seq<Occurrence>): seq<string> {
    if o == [] then []
    else
      var before := Keep(o[..|o| - 1]);
      var name := o[|o| - 1].name;
      if name in before then before else before + [name]
  }

  lemma {:induction false} AddTagsKeeps(normalize: Normalize, o: seq<Occurrence>, item: Tagged, n: nat)
    requires n <= |item.tags|
    ensures AddTags(normalize, Keep(o), item.tags[..n]) == Keep(o + InItem(normalize, item)[..n])
  {
    var add := InItem(normalize, item);
    if n == 0 {
      assert o + add[..0] == o;
    } else {
      AddTagsKeeps(normalize, o, item, n - 1);
      assert item.tags[..n][..n - 1] == item.tags[..n - 1];
      assert (o + add[..n])[..|o| + n - 1] == o + add[..n - 1];
    }
  }

  lemma {:induction false} TagOrderKeeps(normalize: Normalize, items: seq<Tagged>)
    ensures TagOrder(normalize, items) == Keep(Occurrences(normalize, items))
  {
    if items != [] {
      var front, last := items[..|items| - 1], items[|items| - 1];
      TagOrderKeeps(normalize, front);
      AddTagsKeeps(normalize, Occurrences(normalize, front), last, |last.tags|);
      assert last.tags[..|last.tags|] == last.tags;
      assert InItem(normalize, last)[..|last.tags|] == InItem(normalize, last);
    }
  }

  /** Some occurrence of the one comes before every occurrence of the other. */
  ghost predicate Precedes(o: seq<Occurrence>, x: string, y: string) {
    exists k :: 0 <= k < |o| && o[k].name == x && forall l :: 0 <= l < |o| && o[l].name == y ==> k < l
  }

  lemma {:induction false} KeepIsDistinct(o: seq<Occurrence>)
    ensures Distinct(Keep(o))
    ensures forall name :: name in Keep(o) <==> exists e :: e in o && e.name == name
  {
    if o != [] {
      var front, last := o[..|o| - 1], o[|o| - 1];
      KeepIsDistinct(front);
      assert o == front + [last];
    }
  }

  lemma {:induction false} KeepInOrder(o: seq<Occurrence>, i: nat, j: nat)
    requires i < j < |Keep(o)|
    ensures Precedes(o, Keep(o)[i], Keep(o)[j])
  {
    var front, last := o[..|o| - 1], o[|o| - 1];
    var kept := Keep(front);
    KeepIsDistinct(front);
    var k;
    if j < |kept| {
      KeepInOrder(front, i, j);
      k :| 0 <= k < |front| && front[k].name == kept[i] && forall l :: 0 <= l < |front| && front[l].name == kept[j] ==> k < l;
    } else {
      assert kept[i] in kept;
      k :| 0 <= k < |front| && front[k].name == kept[i];
      forall l | 0 <= l < |front| ensures front[l].name != last.name {
        assert front[l] in front;
      }
    }
    assert o[k].name == Keep(o)[i];
    forall l | 0 <= l < |o| && o[l].name == Keep(o)[j] ensures k < l {
      if l < |front| {
        assert front[l] == o[l];
      }
    }
  }

  // ----- both twins agree

  lemma {:induction false} OccurrencesMembers(normalize: Normalize, items: seq<Tagged>, e: Occurrence)
    ensures e in Occurrences(normalize, items) <==> exists item :: item in items && e in InItem(normalize, item)
  {
    if items != [] {
      var front, last := items[..|items| - 1], items[|items| - 1];
      OccurrencesMembers(normalize, front, e);
      assert items == front + [last];
    }
  }

  lemma SortedItems(items: seq<Tagged>)
    requires UniqueIds(items)
    ensures Sorted(BY_ID, Sort(BY_ID, items)) && UniqueIds(Sort(BY_ID, items))
    ensures forall item :: item in Sort(BY_ID, items) <==> item in items
  {
    SortKeepsDistinct(BY_ID, items);
    SortSorts(BY_ID, items);
    var sorted := Sort(BY_ID, items);
    forall i, j | 0 <= i < j < |sorted| ensures sorted[i].id != sorted[j].id {
      assert sorted[i] in items && sorted[j] in items && sorted[i] != sorted[j];
    }
  }

  lemma SortedOccurrences(normalize: Normalize, items: seq<Tagged>, e: Occurrence)
    requires UniqueIds(items)
    ensures e in Occurrences(normalize, Sort(BY_ID, items)) <==> e in Occurrences(normalize, items)
  {
    SortedItems(items);
    OccurrencesMembers(normalize, items, e);
    OccurrencesMembers(normalize, Sort(BY_ID, items), e);
  }

  ghost predicate Increasing(o: seq<Occurrence>) {
    forall k, l :: 0 <= k < l < |o| ==> o[k].place.Before(o[l].place)
  }

  lemma {:induction false} OccurrencesIncrease(normalize: Normalize, items: seq<Tagged>)
    requires Sorted(BY_ID, items) && UniqueIds(items)
    ensures Increasing(Occurrences(normalize, items))
  {
    if items != [] {
      var front, last := items[..|items| - 1], items[|items| - 1];
      OccurrencesIncrease(normalize, front);
      var o := Occurrences(normalize, front);
      forall k | 0 <= k < |o| ensures o[k].place.id < last.id {
        OccurrencesMembers(normalize, front, o[k]);
        var item :| item in front && o[k] in InItem(normalize, item);
        var i :| 0 <= i < |front| && front[i] == item;
        assert BY_ID(items[i], last) && items[i].id != last.id;
      }
    }
  }

  lemma FirstPlacesByMembers(o: seq<Occurrence>, other: seq<Occurrence>, order: map<string, Place>)
    requires FirstPlaces(o, order) && forall e :: e in o <==> e in other
    ensures FirstPlaces(other, order)
  {
    forall name | name in order ensures exists e :: e in other && e.name == name && e.place == order[name] {
      var e :| e in o && e.name == name && e.place == order[name];
      assert e in other;
    }
  }

  lemma KeptPlacesIncrease(o: seq<Occurrence>, order: map<string, Place>, i: nat, j: nat)
    requires Increasing(o) && FirstPlaces(o, order) && i < j < |Keep(o)|
    ensures Keep(o)[i] in order && Keep(o)[j] in order
    ensures order[Keep(o)[i]].Before(order[Keep(o)[j]])
  {
    var x, y := Keep(o)[i], Keep(o)[j];
    KeepIsDistinct(o);
    KeepInOrder(o, i, j);
    var k :| 0 <= k < |o| && o[k].name == x && forall l :: 0 <= l < |o| && o[l].name == y ==> k < l;
    assert o[k] in o && y in Keep(o);
    var e :| e in o && e.name == y && e.place == order[y];
    var l :| 0 <= l < |o| && o[l] == e;
    assert o[k].place.Before(o[l].place) && !o[k].place.Before(order[x]);
  }

  lemma SameMembersBothEmpty<T>(a: seq<T>, b: seq<T>)
    requires forall x :: x in a <==> x in b
    ensures a == [] <==> b == []
  {
    if a != [] {
      assert a[0] in b;
    }
    if b != [] {
      assert b[0] in a;
    }
  }

  /** Only one arrangement of the names is sorted by place when no two places are equal. */
  lemma {:induction false} ArrangementIsUnique(order: map<string, Place>, a: seq<string>, b: seq<string>)
    requires Distinct(a) && Distinct(b) && forall x :: x in a <==> x in b
    requires forall x :: x in a ==> x in order
    requires forall i, j :: 0 <= i < j < |a| ==> !order[a[j]].Before(order[a[i]])
    requires forall i, j :: 0 <= i < j < |b| ==> order[b[i]].Before(order[b[j]])
    ensures a == b
  {
    SameMembersBothEmpty(a, b);
    if a != [] {
      assert a[0] in b && b[0] in a;
      var i :| 0 <= i < |b| && b[i] == a[0];
      var j :| 0 <= j < |a| && a[j] == b[0];
      assert a[0] == b[0];
      DistinctTail(a);
      DistinctTail(b);
      ArrangementIsUnique(order, a[1..], b[1..]);
    }
  }

  lemma SortedByPlace(order: map<string, Place>, keys: seq<string>)
    requires Distinct(keys) && forall key :: key in keys <==> key in order
    ensures var names := NamesOf(Sort(BY_PLACE, Entries(order, keys)));
            && Distinct(names) && (forall x :: x in names <==> x in order)
            && forall i, j :: 0 <= i < j < |names| ==> !order[names[j]].Before(order[names[i]])
  {
    var entries := Entries(order, keys);
    var sorted := Sort(BY_PLACE, entries);
    ByPlaceIsTotal();
    SortSorts(BY_PLACE, entries);
    SortKeepsDistinct(BY_PLACE, entries);
    forall e | e in sorted ensures e.name in order && e.place == order[e.name] {
      assert e in entries;
    }
    var names := NamesOf(sorted);
    forall x | x in order ensures x in names {
      var i :| 0 <= i < |keys| && keys[i] == x;
      assert entries[i] in sorted;
      var k :| 0 <= k < |sorted| && sorted[k] == entries[i];
      assert names[k] == x;
    }
    forall i, j | 0 <= i < j < |names| ensures names[i] != names[j] && !order[names[j]].Before(order[names[i]]) {
      assert sorted[i] in sorted && sorted[j] in sorted && BY_PLACE(sorted[i], sorted[j]);
    }
  }

  /** The names sorted by first place are the twin's first occurrences over the sorted items. */
  lemma SortedPlacesAreFirstOccurrences(normalize: Normalize, items: seq<Tagged>, order: map<string, Place>, keys: seq<string>)
    requires UniqueIds(items) && FirstPlaces(Occurrences(normalize, items), order)
    requires Distinct(keys) && forall key :: key in keys <==> key in order
    ensures NamesOf(Sort(BY_PLACE, Entries(order, keys))) == TagOrder(normalize, Sort(BY_ID, items))
  {
    var sorted := Sort(BY_ID, items);
    var o := Occurrences(normalize, sorted);
    SortedItems(items);
    forall e ensures e in Occurrences(normalize, items) <==> e in o {
      SortedOccurrences(normalize, items, e);
    }
    FirstPlacesByMembers(Occurrences(normalize, items), o, order);
    OccurrencesIncrease(normalize, sorted);
    TagOrderKeeps(normalize, sorted);
    KeepIsDistinct(o);
    SortedByPlace(order, keys);
    var kept := Keep(o);
    forall i, j | 0 <= i < j < |kept| ensures kept[i] in order && kept[j] in order && order[kept[i]].Before(order[kept[j]]) {
      KeptPlacesIncrease(o, order, i, j);
    }
    forall x ensures x in order <==> x in kept {
    }
    ArrangementIsUnique(order, NamesOf(Sort(BY_PLACE, Entries(order, keys))), kept);
  }

  // ----- the one-pass index

  /** What the pass knows after the occurrences `o`; `keys` are the keys of `order` in insertion order. */
  ghost predicate Indexed(o: seq<Occurrence>, order: map<string, Place>, keys: seq<string>, names: map<string, string>) {
    && FirstPlaces(o, order) && names == SpellingsOf(o)
    && Distinct(keys) && (forall key :: key in keys <==> key in order)
    && (forall key :: key in names ==> key in order)
  }

  lemma IndexedStep(o: seq<Occurrence>, e: Occurrence, order: map<string, Place>, keys: seq<string>, names: map<string, string>)
    requires Indexed(o, order, keys, names)
    ensures var better := e.name !in order || e.place.Before(order[e.name]);
            Indexed(o + [e], if better then order[e.name := e.place] else order,
                    if e.name in order then keys else keys + [e.name],
                    if e.name in names then names else names[e.name := e.spelling])
  {
    OneMoreOccurrence(o, e, order);
    assert (o + [e])[..|o|] == o;
  }

  lemma TakeOneMore<T>(before: seq<T>, s: seq<T>, p: nat)
    requires p < |s|
    ensures before + s[..p + 1] == before + s[..p] + [s[p]]
  {
  }

  lemma TakeAll<T>(before: seq<T>, s: seq<T>)
    ensures before + s[..0] == before && before + s[..|s|] == before + s
  {
  }

  /**
   * `_workspace_tag_index`: the ids are those of the twin for every order of the items, the
   * names are spelled as they are met first in document order.
   */
  method WorkspaceTagIndex(normalize: Normalize, items: seq<Tagged>) returns (ids: map<string, nat>, names: map<string, string>)
    requires UniqueIds(items)
    ensures ids == Numbered(TagOrder(normalize, Sort(BY_ID, items)))
    ensures names == SpellingsOf(Occurrences(normalize, items))
  {
    var order: map<string, Place> := map[];
    var keys: seq<string> := [];
    names := map[];
    for i := 0 to |items|
      invariant Indexed(Occurrences(normalize, items[..i]), order, keys, names)
    {
      var item := items[i];
      ghost var before := Occurrences(normalize, items[..i]);
      TakeAll(before, InItem(normalize, item));
      for p := 0 to |item.tags|
        invariant Indexed(before + InItem(normalize, item)[..p], order, keys, names)
      {
        var name := normalize(item.tags[p]);
        var candidate := Place(item.id, p);
        ghost var o, e := before + InItem(normalize, item)[..p], Occurrence(name, item.tags[p], candidate);
        IndexedStep(o, e, order, keys, names);
        TakeOneMore(before, InItem(normalize, item), p);
        if name !in names {
          names := names[name := item.tags[p]];
        }
        if name !in order {
          keys := keys + [name];
        }
        if name !in order || candidate.Before(order[name]) {
          order := order[name := candidate];
        }
      }
      assert items[..i + 1][..i] == items[..i];
    }
    assert items[..|items|] == items;
    SortedPlacesAreFirstOccurrences(normalize, items, order, keys);
    ids := Numbered(NamesOf(Sort(BY_PLACE, Entries(order, keys))));
  }

  // ----- the spellings

  /** Occurrences of one tag are spelled alike, as the document validators demand. */
  ghost predicate SpelledOnce(o: seq<Occurrence>) {
    forall e, f :: e in o && f in o && e.name == f.name ==> e.spelling == f.spelling
  }

  /** Of a document with one spelling per tag the pass and its twin keep the same names. */
  lemma NamesAgree(normalize: Normalize, items: seq<Tagged>)
    requires UniqueIds(items) && SpelledOnce(Occurrences(normalize, items))
    ensures SpellingsOf(Occurrences(normalize, items)) == SpellingsOf(Occurrences(normalize, Sort(BY_ID, items)))
  {
    var o, p := Occurrences(normalize, items), Occurrences(normalize, Sort(BY_ID, items));
    forall e ensures e in p <==> e in o {
      SortedOccurrences(normalize, items, e);
    }
    SpellingsOccur(o);
    SpellingsOccur(p);
    forall name ensures name in SpellingsOf(o) <==> name in SpellingsOf(p) {
    }
  }

  /** Without that demand they need not: the pass keeps the spelling met first in the document. */
  lemma NamesMayDiffer(normalize: Normalize)
    requires normalize("Red") == normalize("red")
    ensures var items := [Tagged(2, ["Red"]), Tagged(1, ["red"])];
            SpellingsOf(Occurrences(normalize, items)) != SpellingsOf(Occurrences(normalize, Sort(BY_ID, items)))
  {
    var a, b := Tagged(2, ["Red"]), Tagged(1, ["red"]);
    var name := normalize("red");
    TwoOccurrences(normalize, a, b);
    TwoOccurrences(normalize, b, a);
    assert [a, b][1..] == [b] && [b][1..] == [];
    assert Sort(BY_ID, []) == [] && Insert(BY_ID, b, []) == [b] && Sort(BY_ID, [b]) == [b];
    assert Insert(BY_ID, a, []) == [a] && Insert(BY_ID, a, [b]) == [b] + [a];
    assert Sort(BY_ID, [a, b]) == [b, a];
    assert SpellingsOf(Occurrences(normalize, [a, b]))[name] == "Red";
    assert SpellingsOf(Occurrences(normalize, [b, a]))[name] == "red";
  }

  lemma TwoOccurrences(normalize: Normalize, a: Tagged, b: Tagged)
    requires |a.tags| == |b.tags| == 1 && normalize(a.tags[0]) == normalize(b.tags[0])
    ensures var first := Occurrence(normalize(a.tags[0]), a.tags[0], Place(a.id, 0));
            SpellingsOf(Occurrences(normalize, [a, b])) == map[first.name := first.spelling]
  {
    var first := Occurrence(normalize(a.tags[0]), a.tags[0], Place(a.id, 0));
    var second := Occurrence(normalize(b.tags[0]), b.tags[0], Place(b.id, 0));
    assert [a, b][..1] == [a] && [a][..0] == [];
    assert Occurrences(normalize, [a]) == [first];
    assert Occurrences(normalize, [a, b]) == [first, second];
    assert [first, second][..1] == [first] && [first][..0] == [];
    assert SpellingsOf([first]) == map[first.name := first.spelling];
  }
}
