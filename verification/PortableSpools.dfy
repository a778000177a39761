/**
 * What moving the four record arrays to disk means for a parsed document
 * (src/ah_there_it_is/portable_stream.py:16-21, 42-68), and why nothing is
 * lost: putting the records back in place of the markers restores the value.
 */
module PortableSpools {
  import opened Prelude
  import opened PortableJson

  type Path = seq<Str>

  function SpoolPath(section: Section): Path {
    match section
    case Categories => [Plain("inventory"), Plain("categories")]
    case Locations => [Plain("inventory"), Plain("locations")]
    case Items => [Plain("inventory"), Plain("items")]
    case Events => [Plain("history"), Plain("events")]
  }

  function SectionAt(path: Path): (r: Option<Section>)
    ensures forall section :: r == Some(section) <==> path == SpoolPath(section)
  {
    if path == [Plain("inventory"), Plain("categories")] then Some(Categories)
    else if path == [Plain("inventory"), Plain("locations")] then Some(Locations)
    else if path == [Plain("inventory"), Plain("items")] then Some(Items)
    else if path == [Plain("history"), Plain("events")] then Some(Events)
    else None
  }

  /** No spooled array can lie at such a path or anywhere below it. */
  predicate Barren(path: Path) {
    |path| > 2 || (|path| > 0 && path[0] != Plain("inventory") && path[0] != Plain("history")) || (|path| == 2 && SectionAt(path).None?)
  }

  lemma IndexIsBarren(path: Path, index: nat)
    ensures Barren(path + [Plain(Decimal(index))])
  {
    var s := Decimal(index);
    assert s[0] in s;
    if |path| == 1 {
      assert (path + [Plain(s)])[1] == Plain(s);
    }
  }

  /** One line of a spool file. */
  datatype Record = Record(section: Section, value: Json)

  // ----- the structure that stays in memory

  function Strip(path: Path, v: Json): Json
    decreases v
  {
    match v
    case List(_) =>
      (match SectionAt(path)
       case Some(section) => Marker(section)
       case None => v)
    case Dict(fields) => Dict(StripFields(path, fields))
    case _ => v
  }

  function StripFields(path: Path, fields: seq<Field>): seq<Field>
    decreases fields
  {
    if fields == [] then []
    else
      var last := fields[|fields| - 1];
      assert last.value < Dict(fields);
      StripFields(path, fields[..|fields| - 1]) + [Field(last.key, Strip(path + [last.key], last.value))]
  }

  lemma {:induction false} StripFieldAt(path: Path, fields: seq<Field>, i: nat)
    requires i < |fields|
    ensures |StripFields(path, fields)| == |fields|
    ensures StripFields(path, fields)[i] == Field(fields[i].key, Strip(path + [fields[i].key], fields[i].value))
    decreases fields
  {
    if |fields| > 1 {
      StripFieldAt(path, fields[..|fields| - 1], if i < |fields| - 1 then i else 0);
    }
  }

  // ----- the records that leave, in the order they are read

  function Spool(path: Path, v: Json): seq<Record>
    decreases v
  {
    match v
    case List(items) =>
      (match SectionAt(path)
       case Some(section) => Records(section, items)
       case None => [])
    case Dict(fields) => SpoolFields(path, fields)
    case _ => []
  }

  function SpoolFields(path: Path, fields: seq<Field>): seq<Record>
    decreases fields
  {
    if fields == [] then []
    else
      var last := fields[|fields| - 1];
      assert last.value < Dict(fields);
      SpoolFields(path, fields[..|fields| - 1]) + Spool(path + [last.key], last.value)
  }

  function Records(section: Section, items: seq<Json>): seq<Record> {
    if items == [] then []
    else Records(section, items[..|items| - 1]) + [Record(section, items[|items| - 1])]
  }

  lemma {:induction false} NothingBelow(path: Path, v: Json)
    requires Barren(path)
    ensures Strip(path, v) == v && Spool(path, v) == []
    decreases v
  {
    if v.Dict? {
      NoFieldBelow(path, v.fields);
    }
  }

  lemma {:induction false} NoFieldBelow(path: Path, fields: seq<Field>)
    requires Barren(path)
    ensures StripFields(path, fields) == fields && SpoolFields(path, fields) == []
    decreases fields
  {
    if fields != [] {
      var last := fields[|fields| - 1];
      NoFieldBelow(path, fields[..|fields| - 1]);
      assert last.value < Dict(fields);
      NothingBelow(path + [last.key], last.value);
    }
  }

  /** Every line of the log can be written. */
  predicate Writable(log: seq<Record>) {
    forall i :: 0 <= i < |log| ==> Encodable(log[i].value)
  }

  lemma {:induction false} EncodableIsWritable(path: Path, v: Json)
    requires Encodable(v)
    ensures Writable(Spool(path, v))
    decreases v
  {
    match v
    case List(items) =>
      if SectionAt(path).Some? {
        EncodableRecordsAreWritable(SectionAt(path).value, items);
      }
    case Dict(fields) => EncodableFieldsAreWritable(path, fields);
    case _ =>
  }

  lemma {:induction false} EncodableFieldsAreWritable(path: Path, fields: seq<Field>)
    requires forall i :: 0 <= i < |fields| ==> Encodable(fields[i].value)
    ensures Writable(SpoolFields(path, fields))
    decreases fields
  {
    if fields != [] {
      var last := fields[|fields| - 1];
      assert last.value < Dict(fields);
      EncodableFieldsAreWritable(path, fields[..|fields| - 1]);
      EncodableIsWritable(path + [last.key], last.value);
    }
  }

  lemma {:induction false} EncodableRecordsAreWritable(section: Section, items: seq<Json>)
    requires forall i :: 0 <= i < |items| ==> Encodable(items[i])
    ensures Writable(Records(section, items))
  {
    if items != [] {
      EncodableRecordsAreWritable(section, items[..|items| - 1]);
    }
  }

  /** What was spooled for the first fields is the beginning of what is spooled for all. */
  lemma {:induction false} SpoolFieldsPrefix(path: Path, first: seq<Field>, fields: seq<Field>)
    requires first <= fields
    ensures SpoolFields(path, first) <= SpoolFields(path, fields)
    decreases |fields|
  {
    if first == fields {
    } else {
      SpoolFieldsPrefix(path, first, fields[..|fields| - 1]);
    }
  }

  lemma {:induction false} RecordsAt(section: Section, items: seq<Json>, i: nat)
    requires i < |items|
    ensures |Records(section, items)| == |items| && Records(section, items)[i] == Record(section, items[i])
  {
    if |items| > 1 {
      RecordsAt(section, items[..|items| - 1], if i < |items| - 1 then i else 0);
    }
  }

  // ----- the spool files

  /** The lines one section's file receives. */
  function Filed(log: seq<Record>, section: Section): seq<Json> {
    if log == [] then []
    else
      var last := log[|log| - 1];
      Filed(log[..|log| - 1], section) + (if last.section == section then [last.value] else [])
  }

  lemma {:induction false} FiledAppend(a: seq<Record>, b: seq<Record>, section: Section)
    ensures Filed(a + b, section) == Filed(a, section) + Filed(b, section)
  {
    if b == [] {
      assert a + b == a;
    } else {
      assert (a + b)[..|a + b| - 1] == a + b[..|b| - 1];
      FiledAppend(a, b[..|b| - 1], section);
    }
  }

  lemma {:induction false} FiledRecords(section: Section, items: seq<Json>, other: Section)
    ensures Filed(Records(section, items), other) == if other == section then items else []
  {
    if items != [] {
      var front := items[..|items| - 1];
      assert Records(section, items)[..|Records(section, items)| - 1] == Records(section, front);
      FiledRecords(section, front, other);
      assert front + [items[|items| - 1]] == items;
    }
  }

  // ----- nothing is lost

  /** Objects have unique keys and no marker occurs: what an ordinary strict parser returns. */
  predicate Ordinary(v: Json) {
    match v
    case List(items) => forall i :: 0 <= i < |items| ==> Ordinary(items[i])
    case Dict(fields) => UniqueKeys(fields) && forall i :: 0 <= i < |fields| ==> Ordinary(fields[i].value)
    case Marker(_) => false
    case _ => true
  }

  predicate UniqueKeys(fields: seq<Field>) {
    forall i, j :: 0 <= i < j < |fields| ==> fields[i].key != fields[j].key
  }

  function FieldOf(fields: seq<Field>, key: Str): (r: Option<Json>)
    ensures r.None? <==> key !in KeysOf(fields)
  {
    if fields == [] then None
    else
      var last := fields[|fields| - 1];
      assert fields == fields[..|fields| - 1] + [last];
      if last.key == key then Some(last.value) else FieldOf(fields[..|fields| - 1], key)
  }

  /** The array that lies under these keys; empty when there is none. */
  function ItemsAt(v: Json, steps: Path): seq<Json>
    decreases steps
  {
    match v
    case List(items) => if steps == [] then items else []
    case Dict(fields) => if steps == [] then [] else ItemsUnder(fields, steps)
    case _ => []
  }

  function ItemsUnder(fields: seq<Field>, steps: Path): seq<Json>
    requires steps != []
    decreases steps, 0
  {
    match FieldOf(fields, steps[0])
    case Some(v) => ItemsAt(v, steps[1..])
    case None => []
  }

  function SectionItems(v: Json, section: Section): seq<Json> {
    ItemsAt(v, SpoolPath(section))
  }

  lemma {:induction false} FieldAt(fields: seq<Field>, i: nat)
    requires i < |fields| && UniqueKeys(fields)
    ensures FieldOf(fields, fields[i].key) == Some(fields[i].value)
  {
    if i < |fields| - 1 {
      FieldAt(fields[..|fields| - 1], i);
    }
  }

  /** Each section's file holds exactly the array under the section's path, so it is spooled at most once. */
  lemma {:induction false} SpooledIsTheArray(path: Path, v: Json, section: Section)
    requires Ordinary(v)
    ensures Filed(Spool(path, v), section)
            == if path <= SpoolPath(section) then ItemsAt(v, SpoolPath(section)[|path|..]) else []
    decreases v
  {
    match v
    case List(items) => SpooledListIsTheArray(path, items, section);
    case Dict(fields) => SpooledFieldsAreTheArray(path, fields, section);
    case _ =>
  }

  lemma SpooledListIsTheArray(path: Path, items: seq<Json>, section: Section)
    ensures Filed(Spool(path, List(items)), section)
            == if path <= SpoolPath(section) then ItemsAt(List(items), SpoolPath(section)[|path|..]) else []
  {
    var whole := SpoolPath(section);
    assert |whole| == 2;
    match SectionAt(path)
    case Some(other) =>
      assert |SpoolPath(other)| == 2;
      FiledRecords(other, items, section);
      assert path <= whole <==> path == whole;
      assert path == whole <==> other == section;
    case None => assert path != whole;
  }

  lemma {:induction false} SpooledFieldsAreTheArray(path: Path, fields: seq<Field>, section: Section)
    requires UniqueKeys(fields) && forall i :: 0 <= i < |fields| ==> Ordinary(fields[i].value)
    ensures Filed(SpoolFields(path, fields), section)
            == if path < SpoolPath(section) then ItemsUnder(fields, SpoolPath(section)[|path|..]) else []
    decreases fields
  {
    if fields != [] {
      var whole := SpoolPath(section);
      var front, last := fields[..|fields| - 1], fields[|fields| - 1];
      var below := path + [last.key];
      SpooledFieldsAreTheArray(path, front, section);
      assert last.value < Dict(fields);
      SpooledIsTheArray(below, last.value, section);
      FiledAppend(SpoolFields(path, front), Spool(below, last.value), section);
      OneLevelDown(path, last.key, whole);
      if path < whole {
        if last.key == whole[|path|] {
          assert FieldOf(front, last.key).None?;
          assert ItemsUnder(front, whole[|path|..]) == [];
        } else {
          assert FieldOf(fields, whole[|path|]) == FieldOf(front, whole[|path|]);
        }
      }
    }
  }

  lemma OneLevelDown(path: Path, key: Str, whole: Path)
    ensures path + [key] <= whole <==> path < whole && key == whole[|path|]
    ensures path < whole ==> whole[|path|..][0] == whole[|path|] && whole[|path|..][1..] == whole[|path| + 1..]
  {
  }

  /** The value with the records of the files back in place of the markers. */
  function Restore(v: Json, files: Section -> seq<Json>): Json
    decreases v
  {
    match v
    case Marker(section) => List(files(section))
    case Dict(fields) => Dict(RestoreFields(fields, files))
    case _ => v
  }

  function RestoreFields(fields: seq<Field>, files: Section -> seq<Json>): seq<Field>
    decreases fields
  {
    if fields == [] then []
    else
      var last := fields[|fields| - 1];
      assert last.value < Dict(fields);
      RestoreFields(fields[..|fields| - 1], files) + [Field(last.key, Restore(last.value, files))]
  }

  /** Whether the files agree with what lies below this path. */
  ghost predicate Agree(files: Section -> seq<Json>, path: Path, v: Json) {
    forall section :: path <= SpoolPath(section) ==> files(section) == ItemsAt(v, SpoolPath(section)[|path|..])
  }

  lemma {:induction false} RestoreUndoesStrip(path: Path, v: Json, files: Section -> seq<Json>)
    requires Ordinary(v) && Agree(files, path, v)
    ensures Restore(Strip(path, v), files) == v
    decreases v
  {
    match v
    case List(items) =>
      if SectionAt(path).Some? {
        assert files(SectionAt(path).value) == ItemsAt(v, []);
      }
    case Dict(fields) =>
      forall i | 0 <= i < |fields| ensures Agree(files, path + [fields[i].key], fields[i].value) {
        AgreeBelow(path, fields, files, i);
      }
      RestoreUndoesStripFields(path, fields, files);
    case _ =>
  }

  lemma AgreeBelow(path: Path, fields: seq<Field>, files: Section -> seq<Json>, i: nat)
    requires UniqueKeys(fields) && i < |fields| && Agree(files, path, Dict(fields))
    ensures Agree(files, path + [fields[i].key], fields[i].value)
  {
    var below := path + [fields[i].key];
    FieldAt(fields, i);
    forall section | below <= SpoolPath(section)
      ensures files(section) == ItemsAt(fields[i].value, SpoolPath(section)[|below|..])
    {
      var whole := SpoolPath(section);
      assert whole[|path|] == below[|path|];
      assert path <= whole;
      var steps := whole[|path|..];
      assert files(section) == ItemsAt(Dict(fields), steps) == ItemsUnder(fields, steps);
      assert steps[0] == fields[i].key && steps[1..] == whole[|below|..];
    }
  }

  lemma {:induction false} RestoreUndoesStripFields(path: Path, fields: seq<Field>, files: Section -> seq<Json>)
    requires forall i :: 0 <= i < |fields| ==> Ordinary(fields[i].value) && Agree(files, path + [fields[i].key], fields[i].value)
    ensures RestoreFields(StripFields(path, fields), files) == fields
    decreases fields
  {
    if fields != [] {
      var front, last := fields[..|fields| - 1], fields[|fields| - 1];
      RestoreUndoesStripFields(path, front, files);
      assert last.value < Dict(fields);
      RestoreUndoesStrip(path + [last.key], last.value, files);
      var stripped := StripFields(path, fields);
      assert stripped[..|stripped| - 1] == StripFields(path, front);
      assert front + [last] == fields;
    }
  }

  /** The whole of it: four files and a structure with markers hold the document, no more and no less. */
  lemma SpoolingLosesNothing(v: Json)
    requires Ordinary(v)
    ensures forall section :: Filed(Spool([], v), section) == SectionItems(v, section)
    ensures Restore(Strip([], v), section => SectionItems(v, section)) == v
  {
    forall section ensures Filed(Spool([], v), section) == SectionItems(v, section) {
      SpooledIsTheArray([], v, section);
      assert SpoolPath(section)[0..] == SpoolPath(section);
    }
    var files := section => SectionItems(v, section);
    forall section ensures files(section) == ItemsAt(v, SpoolPath(section)[0..]) {
      assert SpoolPath(section)[0..] == SpoolPath(section);
    }
    RestoreUndoesStrip([], v, files);
  }

  // ----- the ordinary parser returns ordinary values

  lemma {:induction false} ValueIsOrdinary(loads: Loads, s: string)
    ensures Value(loads, s).Parsed? ==> Ordinary(Value(loads, s).value)
    decreases |s|, 1
  {
    var t := SkipSpace(s);
    if Starts(t, '{') {
      MembersAreOrdinary(loads, OpeningAt(t[1..], '}').rest, []);
    } else if Starts(t, '[') {
      ElementsAreOrdinary(loads, OpeningAt(t[1..], ']').rest, []);
    }
  }

  lemma {:induction false} MembersAreOrdinary(loads: Loads, s: string, fields: seq<Field>)
    requires Ordinary(Dict(fields))
    ensures Members(loads, s, fields).Parsed? ==> Ordinary(Members(loads, s, fields).value)
    decreases |s|, 0
  {
    var entry := MemberAt(loads, s, KeysOf(fields));
    if entry.Entry? {
      ValueIsOrdinary(loads, KeyAt(loads, s, KeysOf(fields)).rest);
      forall i | 0 <= i < |fields| ensures fields[i].key != entry.value.key {
        assert fields[i].key in KeysOf(fields);
      }
      if !entry.last {
        MembersAreOrdinary(loads, entry.rest, fields + [entry.value]);
      }
    }
  }

  lemma {:induction false} ElementsAreOrdinary(loads: Loads, s: string, items: seq<Json>)
    requires Ordinary(List(items))
    ensures Elements(loads, s, items).Parsed? ==> Ordinary(Elements(loads, s, items).value)
    decreases |s|, 2
  {
    ValueIsOrdinary(loads, s);
    var entry := ElementAt(loads, s);
    if entry.Entry? && !entry.last {
      ElementsAreOrdinary(loads, entry.rest, items + [entry.value]);
    }
  }

  // ----- the ordinary parser only adds

  lemma {:induction false} MembersOnlyAdd(loads: Loads, s: string, fields: seq<Field>)
    requires Members(loads, s, fields).Parsed?
    ensures fields + [MemberAt(loads, s, KeysOf(fields)).value] <= Members(loads, s, fields).value.fields
    decreases |s|
  {
    var entry := MemberAt(loads, s, KeysOf(fields));
    if !entry.last {
      MembersOnlyAdd(loads, entry.rest, fields + [entry.value]);
    }
  }

  lemma {:induction false} ElementsOnlyAdd(loads: Loads, s: string, items: seq<Json>)
    requires Elements(loads, s, items).Parsed?
    ensures items + [ElementAt(loads, s).value] <= Elements(loads, s, items).value.items
    decreases |s|
  {
    var entry := ElementAt(loads, s);
    if !entry.last {
      ElementsOnlyAdd(loads, entry.rest, items + [entry.value]);
    }
  }
}
