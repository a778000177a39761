/**
 * The export as `_write_portable_stream` frames it by hand
 * (src/ah_there_it_is/storage.py:1330-1373), and the round trip through the
 * spooling parser.
 */
module PortableExport {
  import opened Prelude
  import opened Utf8
  import opened ChunkedText
  import opened PortableJson
  import opened PortableSpools
  import opened PortablePrinter
  import opened PortableParser

  /** The rows of the four streams and the values of the header. */
  datatype Export = Export(format: string, exportedAt: string, revision: string,
                           categories: seq<Json>, locations: seq<Json>, items: seq<Json>, events: seq<Json>,
                           excluded: seq<Json>)

  predicate OrdinaryRows(rows: seq<Json>) {
    forall i :: 0 <= i < |rows| ==> Ordinary(rows[i])
  }

  /** The rows hold strings of the database, which are UTF-8 there. */
  predicate EncodableRows(rows: seq<Json>) {
    forall i :: 0 <= i < |rows| ==> Encodable(rows[i])
  }

  predicate OrdinaryExport(e: Export) {
    && EncodableRows(e.categories) && EncodableRows(e.locations) && EncodableRows(e.items) && EncodableRows(e.events)
    && EncodableRows(e.excluded) && OrdinaryRows(e.categories) && OrdinaryRows(e.locations) && OrdinaryRows(e.items) && OrdinaryRows(e.events)
    && OrdinaryRows(e.excluded)
  }

  function Rows(rows: seq<Json>): Json {
    List(SortKeysOfAll(rows))
  }

  function SourceOf(e: Export): Json {
    Dict([Field(Plain("alembic_revision"), Text(Plain(e.revision)))])
  }

  function InventoryOf(e: Export): Json {
    Dict([Field(Plain("categories"), Rows(e.categories)), Field(Plain("locations"), Rows(e.locations)), Field(Plain("items"), Rows(e.items))])
  }

  function HistoryOf(e: Export): Json {
    Dict([Field(Plain("events"), Rows(e.events))])
  }

  /** The document the frame spells: its own keys stay in the order they are written. */
  function DocumentOf(e: Export): Json {
    Dict([
      Field(Plain("format"), Text(Plain(e.format))),
      Field(Plain("exported_at"), Text(Plain(e.exportedAt))),
      Field(Plain("source"), SourceOf(e)),
      Field(Plain("inventory"), InventoryOf(e)),
      Field(Plain("history"), HistoryOf(e)),
      Field(Plain("excluded"), Rows(e.excluded))])
  }

  predicate OrdinaryFrame(e: Export) {
    && Ordinary(Rows(e.categories)) && Ordinary(Rows(e.locations)) && Ordinary(Rows(e.items)) && Ordinary(Rows(e.events))
    && Ordinary(SourceOf(e)) && Ordinary(InventoryOf(e)) && Ordinary(HistoryOf(e)) && Ordinary(DocumentOf(e))
  }

  lemma RowsAreOrdinary(rows: seq<Json>)
    requires OrdinaryRows(rows)
    ensures Ordinary(Rows(rows))
  {
    SortedItemsAreOrdinary(rows);
  }

  lemma DocumentIsOrdinary(e: Export)
    requires OrdinaryExport(e)
    ensures OrdinaryFrame(e)
  {
    RowsAreOrdinary(e.categories);
    RowsAreOrdinary(e.locations);
    RowsAreOrdinary(e.items);
    RowsAreOrdinary(e.events);
    RowsAreOrdinary(e.excluded);
  }

  /** `json.dumps` leaves a key of ASCII letters and underscores as it is. */
  predicate Bareword(key: string) {
    forall c :: c in key ==> 'a' <= c <= 'z' || c == '_'
  }

  ghost predicate PlainKeys(codec: Codec) {
    forall key :: Bareword(key) ==> codec.quote(Plain(key)) == "\"" + key + "\""
  }

  // ----- the frame, piece by piece

  function Key(key: string): string {
    "\"" + key + "\":"
  }

  /** The key is printed as it stands. */
  ghost predicate PrintsPlainly(codec: Codec, key: string) {
    codec.quote(Plain(key)) + ":" == Key(key)
  }

  ghost predicate FramePrintsPlainly(codec: Codec) {
    && PrintsPlainly(codec, "format") && PrintsPlainly(codec, "exported_at") && PrintsPlainly(codec, "source")
    && PrintsPlainly(codec, "alembic_revision") && PrintsPlainly(codec, "inventory") && PrintsPlainly(codec, "categories")
    && PrintsPlainly(codec, "locations") && PrintsPlainly(codec, "items") && PrintsPlainly(codec, "history")
    && PrintsPlainly(codec, "events") && PrintsPlainly(codec, "excluded")
  }

  lemma PlainKeyPrints(codec: Codec, key: string)
    requires PlainKeys(codec) && Bareword(key)
    ensures PrintsPlainly(codec, key)
  {
  }

  lemma FrameKeysPrint(codec: Codec)
    requires PlainKeys(codec)
    ensures FramePrintsPlainly(codec)
  {
    PlainKeyPrints(codec, "format");
    PlainKeyPrints(codec, "exported_at");
    PlainKeyPrints(codec, "source");
    PlainKeyPrints(codec, "alembic_revision");
    PlainKeyPrints(codec, "inventory");
    PlainKeyPrints(codec, "categories");
    PlainKeyPrints(codec, "locations");
    PlainKeyPrints(codec, "items");
    PlainKeyPrints(codec, "history");
    PlainKeyPrints(codec, "events");
    PlainKeyPrints(codec, "excluded");
  }

  lemma BracesPrint(codec: Codec, fields: seq<Field>, tail: string)
    requires Ordinary(Dict(fields))
    ensures Print(codec, Dict(fields)) + tail == "{" + (PrintFields(codec, fields) + ("}" + tail))
  {
  }

  lemma LastFieldPrints(codec: Codec, field: Field, tail: string)
    requires field.key.Plain? && PrintsPlainly(codec, field.key.chars) && Ordinary(field.value)
    ensures PrintFields(codec, [field]) + tail == Key(field.key.chars) + (Print(codec, field.value) + tail)
  {
  }

  lemma FieldPrints(codec: Codec, fields: seq<Field>, tail: string)
    requires |fields| >= 2 && fields[0].key.Plain? && PrintsPlainly(codec, fields[0].key.chars)
    requires forall i :: 0 <= i < |fields| ==> Ordinary(fields[i].value)
    ensures PrintFields(codec, fields) + tail
            == Key(fields[0].key.chars) + (Print(codec, fields[0].value) + ("," + (PrintFields(codec, fields[1..]) + tail)))
  {
    var value, rest := Print(codec, fields[0].value), PrintFields(codec, fields[1..]);
    assert PrintFields(codec, fields) == Key(fields[0].key.chars) + value + "," + rest;
  }

  // What remains to be written before each member of the frame.

  function FromExcluded(codec: Codec, e: Export): string
    requires OrdinaryExport(e)
  {
    RowsAreOrdinary(e.excluded);
    Key("excluded") + (Print(codec, Rows(e.excluded)) + "}\n")
  }

  function FromHistory(codec: Codec, e: Export): string
    requires OrdinaryExport(e)
  {
    RowsAreOrdinary(e.events);
    Key("history") + ("{" + (Key("events") + (Print(codec, Rows(e.events)) + ("}" + ("," + FromExcluded(codec, e))))))
  }

  function FromInventory(codec: Codec, e: Export): string
    requires OrdinaryExport(e)
  {
    RowsAreOrdinary(e.categories);
    Key("inventory") + ("{" + (Key("categories") + (Print(codec, Rows(e.categories)) + ("," + FromLocations(codec, e)))))
  }

  function FromLocations(codec: Codec, e: Export): string
    requires OrdinaryExport(e)
  {
    RowsAreOrdinary(e.locations);
    RowsAreOrdinary(e.items);
    Key("locations") + (Print(codec, Rows(e.locations))
      + ("," + (Key("items") + (Print(codec, Rows(e.items)) + ("}" + ("," + FromHistory(codec, e)))))))
  }

  function FromSource(codec: Codec, e: Export): string
    requires OrdinaryExport(e)
  {
    Key("source") + ("{" + (Key("alembic_revision") + (codec.quote(Plain(e.revision)) + ("}" + ("," + FromInventory(codec, e))))))
  }

  function FromExportedAt(codec: Codec, e: Export): string
    requires OrdinaryExport(e)
  {
    Key("exported_at") + (codec.quote(Plain(e.exportedAt)) + ("," + FromSource(codec, e)))
  }

  function Frame(codec: Codec, e: Export): string
    requires OrdinaryExport(e)
  {
    "{" + (Key("format") + (codec.quote(Plain(e.format)) + ("," + FromExportedAt(codec, e))))
  }

  lemma HistoryPrints(codec: Codec, e: Export, tail: string)
    requires FramePrintsPlainly(codec) && OrdinaryExport(e) && Ordinary(HistoryOf(e)) && Ordinary(Rows(e.events))
    ensures Print(codec, HistoryOf(e)) + tail == "{" + (Key("events") + (Print(codec, Rows(e.events)) + ("}" + tail)))
  {
    BracesPrint(codec, HistoryOf(e).fields, tail);
    LastFieldPrints(codec, HistoryOf(e).fields[0], "}" + tail);
  }

  lemma SourcePrints(codec: Codec, e: Export, tail: string)
    requires FramePrintsPlainly(codec) && Ordinary(SourceOf(e))
    ensures Print(codec, SourceOf(e)) + tail == "{" + (Key("alembic_revision") + (codec.quote(Plain(e.revision)) + ("}" + tail)))
  {
    BracesPrint(codec, SourceOf(e).fields, tail);
    LastFieldPrints(codec, SourceOf(e).fields[0], "}" + tail);
  }

  lemma InventoryPrints(codec: Codec, e: Export, tail: string)
    requires FramePrintsPlainly(codec) && Ordinary(InventoryOf(e))
    requires Ordinary(Rows(e.categories)) && Ordinary(Rows(e.locations)) && Ordinary(Rows(e.items))
    ensures Print(codec, InventoryOf(e)) + tail
            == "{" + (Key("categories") + (Print(codec, Rows(e.categories)) + ("," + (
               Key("locations") + (Print(codec, Rows(e.locations)) + ("," + (
               Key("items") + (Print(codec, Rows(e.items)) + ("}" + tail)))))))))
  {
    var fields := InventoryOf(e).fields;
    BracesPrint(codec, fields, tail);
    FieldPrints(codec, fields, "}" + tail);
    FieldPrints(codec, fields[1..], "}" + tail);
    assert fields[1..][1..] == [fields[2]];
    LastFieldPrints(codec, fields[2], "}" + tail);
  }

  const END := "}\n"

  lemma ExcludedSpelled(codec: Codec, e: Export)
    requires FramePrintsPlainly(codec) && OrdinaryExport(e) && OrdinaryFrame(e)
    ensures PrintFields(codec, DocumentOf(e).fields[5..]) + END == FromExcluded(codec, e)
  {
    var fields := DocumentOf(e).fields;
    assert fields[5..] == [fields[5]];
    LastFieldPrints(codec, fields[5], END);
  }

  lemma HistorySpelled(codec: Codec, e: Export)
    requires FramePrintsPlainly(codec) && OrdinaryExport(e) && OrdinaryFrame(e)
    ensures PrintFields(codec, DocumentOf(e).fields[4..]) + END == FromHistory(codec, e)
  {
    var fields := DocumentOf(e).fields;
    ExcludedSpelled(codec, e);
    OneField(codec, fields, 4, END, FromExcluded(codec, e));
    HistoryPrints(codec, e, "," + FromExcluded(codec, e));
  }

  lemma InventorySpelled(codec: Codec, e: Export)
    requires FramePrintsPlainly(codec) && OrdinaryExport(e) && OrdinaryFrame(e)
    ensures PrintFields(codec, DocumentOf(e).fields[3..]) + END == FromInventory(codec, e)
  {
    var fields := DocumentOf(e).fields;
    HistorySpelled(codec, e);
    OneField(codec, fields, 3, END, FromHistory(codec, e));
    InventoryPrints(codec, e, "," + FromHistory(codec, e));
  }

  lemma FromSourceIs(codec: Codec, e: Export)
    requires FramePrintsPlainly(codec) && OrdinaryExport(e) && Ordinary(SourceOf(e))
    ensures FromSource(codec, e) == Key("source") + (Print(codec, SourceOf(e)) + ("," + FromInventory(codec, e)))
  {
    SourcePrints(codec, e, "," + FromInventory(codec, e));
  }

  lemma SourceSpelled(codec: Codec, e: Export)
    requires FramePrintsPlainly(codec) && OrdinaryExport(e) && OrdinaryFrame(e)
    ensures PrintFields(codec, DocumentOf(e).fields[2..]) + END == FromSource(codec, e)
  {
    InventorySpelled(codec, e);
    OneField(codec, DocumentOf(e).fields, 2, END, FromInventory(codec, e));
    FromSourceIs(codec, e);
  }

  lemma ExportedAtSpelled(codec: Codec, e: Export)
    requires FramePrintsPlainly(codec) && OrdinaryExport(e) && OrdinaryFrame(e)
    ensures PrintFields(codec, DocumentOf(e).fields[1..]) + END == FromExportedAt(codec, e)
  {
    var fields := DocumentOf(e).fields;
    SourceSpelled(codec, e);
    OneField(codec, fields, 1, END, FromSource(codec, e));
  }

  /** The frame written by hand spells exactly the document. */
  lemma FrameSpellsDocument(codec: Codec, e: Export)
    requires PlainKeys(codec) && OrdinaryExport(e) && OrdinaryFrame(e)
    ensures Print(codec, DocumentOf(e)) + "\n" == Frame(codec, e)
  {
    FrameKeysPrint(codec);
    var fields := DocumentOf(e).fields;
    ExportedAtSpelled(codec, e);
    WholeSpelled(codec, fields, FromExportedAt(codec, e));
  }

  lemma WholeSpelled(codec: Codec, fields: seq<Field>, rest: string)
    requires |fields| >= 2 && fields[0].key.Plain? && PrintsPlainly(codec, fields[0].key.chars) && Ordinary(Dict(fields))
    requires PrintFields(codec, fields[1..]) + END == rest
    ensures Print(codec, Dict(fields)) + "\n"
            == "{" + (Key(fields[0].key.chars) + (Print(codec, fields[0].value) + ("," + rest)))
  {
    assert fields[0..] == fields && "}" + "\n" == END;
    OneField(codec, fields, 0, END, rest);
    BracesPrint(codec, fields, "\n");
  }

  lemma OneField(codec: Codec, fields: seq<Field>, i: nat, tail: string, rest: string)
    requires i + 1 < |fields| && fields[i].key.Plain? && PrintsPlainly(codec, fields[i].key.chars) && Ordinary(Dict(fields))
    requires PrintFields(codec, fields[i + 1..]) + tail == rest
    ensures PrintFields(codec, fields[i..]) + tail
            == Key(fields[i].key.chars) + (Print(codec, fields[i].value) + ("," + rest))
  {
    FieldPrints(codec, fields[i..], tail);
    assert fields[i..][1..] == fields[i + 1..];
  }

  /** A text handle opened for writing. */
  class TextHandle {
    var text: string

    constructor ()
      ensures text == ""
    {
      text := "";
    }

    method Write(piece: string, ghost rest: string)
      modifies this
      ensures text == old(text) + piece
      ensures text + rest == old(text) + (piece + rest)
    {
      text := text + piece;
    }
  }

  lemma {:induction false} PrintOneMore(codec: Codec, items: seq<Json>, x: Json)
    requires OrdinaryRows(items) && Ordinary(x)
    ensures OrdinaryRows(items + [x])
    ensures PrintItems(codec, items + [x])
            == PrintItems(codec, items) + (if items == [] then "" else ",") + Print(codec, x)
  {
    if |items| >= 1 {
      PrintOneMore(codec, items[1..], x);
      assert (items + [x])[1..] == items[1..] + [x];
    }
  }

  lemma OneMoreRow(codec: Codec, rows: seq<Json>, i: nat)
    requires OrdinaryRows(rows) && i < |rows|
    ensures OrdinaryRows(SortKeysOfAll(rows[..i])) && OrdinaryRows(SortKeysOfAll(rows[..i + 1])) && Ordinary(SortKeys(rows[i]))
    ensures PrintItems(codec, SortKeysOfAll(rows[..i + 1]))
            == PrintItems(codec, SortKeysOfAll(rows[..i])) + (if i == 0 then "" else ",") + Print(codec, SortKeys(rows[i]))
  {
    SortedItemsAreOrdinary(rows[..i]);
    SortedItemsAreOrdinary(rows[..i + 1]);
    SortedKeysAreOrdinary(rows[i]);
    PrintOneMore(codec, SortKeysOfAll(rows[..i]), SortKeys(rows[i]));
    assert SortKeysOfAll(rows[..i + 1]) == SortKeysOfAll(rows[..i]) + [SortKeys(rows[i])];
  }

  lemma RowAppended(start: string, printed: string, row: string)
    ensures ((start + printed) + ",") + row == start + (printed + "," + row)
    ensures printed == "" ==> (start + printed) + row == start + (printed + "" + row)
  {
  }

  lemma ArrayClosed(before: string, printed: string, rest: string)
    ensures (((before + "[") + printed) + "]") + rest == before + (("[" + printed + "]") + rest)
  {
  }

  /** `_write_json_array`. */
  method WriteJsonArray(handle: TextHandle, codec: Codec, rows: seq<Json>, ghost rest: string) returns (count: nat)
    requires OrdinaryRows(rows) && Ordinary(Rows(rows))
    modifies handle
    ensures count == |rows|
    ensures handle.text + rest == old(handle.text) + (Print(codec, Rows(rows)) + rest)
  {
    handle.Write("[", "");
    count := 0;
    ghost var start := handle.text;
    ghost var printed := "";
    assert rows[..0] == [];
    while count < |rows|
      invariant count <= |rows| && OrdinaryRows(SortKeysOfAll(rows[..count]))
      invariant printed == PrintItems(codec, SortKeysOfAll(rows[..count])) && (count == 0 ==> printed == "")
      invariant handle.text == start + printed
    {
      OneMoreRow(codec, rows, count);
      ghost var row := Print(codec, SortKeys(rows[count]));
      RowAppended(start, printed, row);
      if count > 0 {
        handle.Write(",", "");
      }
      handle.Write(Print(codec, SortKeys(rows[count])), "");
      printed := printed + (if count == 0 then "" else ",") + row;
      count := count + 1;
    }
    assert rows[..count] == rows;
    handle.Write("]", rest);
    ArrayClosed(old(handle.text), printed, rest);
  }

  method WriteHeader(handle: TextHandle, codec: Codec, e: Export)
    requires OrdinaryExport(e)
    modifies handle
    ensures handle.text + FromInventory(codec, e) == old(handle.text) + Frame(codec, e)
  {
    ghost var third := FromInventory(codec, e);
    ghost var second := FromSource(codec, e);
    ghost var first := FromExportedAt(codec, e);
    handle.Write("{", Key("format") + (codec.quote(Plain(e.format)) + ("," + first)));
    handle.Write(Key("format"), codec.quote(Plain(e.format)) + ("," + first));
    handle.Write(codec.quote(Plain(e.format)), "," + first);
    handle.Write(",", first);
    handle.Write(Key("exported_at"), codec.quote(Plain(e.exportedAt)) + ("," + second));
    handle.Write(codec.quote(Plain(e.exportedAt)), "," + second);
    handle.Write(",", second);
    handle.Write(Key("source"), "{" + (Key("alembic_revision") + (codec.quote(Plain(e.revision)) + ("}" + ("," + third)))));
    handle.Write("{", Key("alembic_revision") + (codec.quote(Plain(e.revision)) + ("}" + ("," + third))));
    handle.Write(Key("alembic_revision"), codec.quote(Plain(e.revision)) + ("}" + ("," + third)));
    handle.Write(codec.quote(Plain(e.revision)), "}" + ("," + third));
    handle.Write("}", "," + third);
    handle.Write(",", third);
  }

  method WriteInventory(handle: TextHandle, codec: Codec, e: Export) returns (categories: nat, locations: nat, items: nat)
    requires OrdinaryExport(e) && OrdinaryFrame(e)
    modifies handle
    ensures handle.text + FromHistory(codec, e) == old(handle.text) + FromInventory(codec, e)
    ensures categories == |e.categories| && locations == |e.locations| && items == |e.items|
  {
    ghost var third := FromHistory(codec, e);
    ghost var afterItems := "}" + ("," + third);
    ghost var second := Key("items") + (Print(codec, Rows(e.items)) + afterItems);
    ghost var first := FromLocations(codec, e);
    handle.Write(Key("inventory"), "{" + (Key("categories") + (Print(codec, Rows(e.categories)) + ("," + first))));
    handle.Write("{", Key("categories") + (Print(codec, Rows(e.categories)) + ("," + first)));
    handle.Write(Key("categories"), Print(codec, Rows(e.categories)) + ("," + first));
    categories := WriteJsonArray(handle, codec, e.categories, "," + first);
    handle.Write(",", first);
    handle.Write(Key("locations"), Print(codec, Rows(e.locations)) + ("," + second));
    locations := WriteJsonArray(handle, codec, e.locations, "," + second);
    handle.Write(",", second);
    handle.Write(Key("items"), Print(codec, Rows(e.items)) + afterItems);
    items := WriteJsonArray(handle, codec, e.items, afterItems);
    handle.Write("}", "," + third);
    handle.Write(",", third);
  }

  method WriteHistory(handle: TextHandle, codec: Codec, e: Export) returns (events: nat)
    requires OrdinaryExport(e) && OrdinaryFrame(e)
    modifies handle
    ensures handle.text + FromExcluded(codec, e) == old(handle.text) + FromHistory(codec, e)
    ensures events == |e.events|
  {
    ghost var rest := FromExcluded(codec, e);
    ghost var afterEvents := "}" + ("," + rest);
    handle.Write(Key("history"), "{" + (Key("events") + (Print(codec, Rows(e.events)) + afterEvents)));
    handle.Write("{", Key("events") + (Print(codec, Rows(e.events)) + afterEvents));
    handle.Write(Key("events"), Print(codec, Rows(e.events)) + afterEvents);
    events := WriteJsonArray(handle, codec, e.events, afterEvents);
    handle.Write("}", "," + rest);
    handle.Write(",", rest);
  }

  method WriteExcluded(handle: TextHandle, codec: Codec, e: Export)
    requires OrdinaryExport(e)
    modifies handle
    ensures handle.text == old(handle.text) + FromExcluded(codec, e)
  {
    RowsAreOrdinary(e.excluded);
    handle.Write(Key("excluded"), Print(codec, Rows(e.excluded)) + END);
    var _ := WriteJsonArray(handle, codec, e.excluded, END);
    handle.Write(END, "");
  }

  /** `_write_portable_stream`: the text is the printed document and a newline, the counts are the row counts. */
  method WritePortableStream(handle: TextHandle, codec: Codec, e: Export)
    returns (categories: nat, locations: nat, items: nat, events: nat)
    requires PlainKeys(codec) && OrdinaryExport(e) && OrdinaryFrame(e)
    modifies handle
    ensures handle.text == old(handle.text) + (Print(codec, DocumentOf(e)) + "\n")
    ensures categories == |e.categories| && locations == |e.locations| && items == |e.items| && events == |e.events|
  {
    FrameSpellsDocument(codec, e);
    WriteHeader(handle, codec, e);
    categories, locations, items := WriteInventory(handle, codec, e);
    events := WriteHistory(handle, codec, e);
    WriteExcluded(handle, codec, e);
  }

  lemma FileFieldsFound(e: Export)
    ensures FieldOf(DocumentOf(e).fields, Plain("inventory")) == Some(InventoryOf(e))
    ensures FieldOf(DocumentOf(e).fields, Plain("history")) == Some(HistoryOf(e))
  {
    FieldAt(DocumentOf(e).fields, 3);
    FieldAt(DocumentOf(e).fields, 4);
  }

  lemma SectionsOfDocument(e: Export)
    ensures SectionItems(DocumentOf(e), Categories) == SortKeysOfAll(e.categories)
    ensures SectionItems(DocumentOf(e), Locations) == SortKeysOfAll(e.locations)
    ensures SectionItems(DocumentOf(e), Items) == SortKeysOfAll(e.items)
    ensures SectionItems(DocumentOf(e), Events) == SortKeysOfAll(e.events)
  {
    FileFieldsFound(e);
    FieldAt(InventoryOf(e).fields, 0);
    FieldAt(InventoryOf(e).fields, 1);
    FieldAt(InventoryOf(e).fields, 2);
    FieldAt(HistoryOf(e).fields, 0);
    TwoSteps(DocumentOf(e).fields, Plain("inventory"), InventoryOf(e).fields, Plain("categories"), SortKeysOfAll(e.categories));
    TwoSteps(DocumentOf(e).fields, Plain("inventory"), InventoryOf(e).fields, Plain("locations"), SortKeysOfAll(e.locations));
    TwoSteps(DocumentOf(e).fields, Plain("inventory"), InventoryOf(e).fields, Plain("items"), SortKeysOfAll(e.items));
    TwoSteps(DocumentOf(e).fields, Plain("history"), HistoryOf(e).fields, Plain("events"), SortKeysOfAll(e.events));
  }

  lemma TwoSteps(fields: seq<Field>, first: Str, inner: seq<Field>, second: Str, items: seq<Json>)
    requires FieldOf(fields, first) == Some(Dict(inner)) && FieldOf(inner, second) == Some(List(items))
    ensures ItemsAt(Dict(fields), [first, second]) == items
  {
    assert [first, second][1..] == [second] && [second][1..] == [];
    assert ItemsAt(List(items), []) == items;
    assert ItemsUnder(inner, [second]) == items;
    assert ItemsAt(Dict(inner), [second]) == items;
  }

  /** The structure left in memory: the document with markers in exactly the four places. */
  function MarkedDocument(e: Export): Json {
    Dict([
      Field(Plain("format"), Text(Plain(e.format))),
      Field(Plain("exported_at"), Text(Plain(e.exportedAt))),
      Field(Plain("source"), SourceOf(e)),
      Field(Plain("inventory"), Dict([Field(Plain("categories"), Marker(Categories)), Field(Plain("locations"), Marker(Locations)),
                               Field(Plain("items"), Marker(Items))])),
      Field(Plain("history"), Dict([Field(Plain("events"), Marker(Events))])),
      Field(Plain("excluded"), Rows(e.excluded))])
  }

  lemma FieldIsMarked(fields: seq<Field>, i: nat, marked: Json)
    requires i < |fields| && Strip([fields[i].key], fields[i].value) == marked
    ensures |StripFields([], fields)| == |fields| && StripFields([], fields)[i] == Field(fields[i].key, marked)
  {
    StripFieldAt([], fields, i);
    assert [] + [fields[i].key] == [fields[i].key];
  }

  lemma DocumentIsMarked(e: Export)
    ensures Strip([], DocumentOf(e)) == MarkedDocument(e)
  {
    var fields, marked := DocumentOf(e).fields, MarkedDocument(e).fields;
    NothingBelow([Plain("source")], SourceOf(e));
    InventoryIsMarked(e);
    HistoryIsMarked(e);
    NothingBelow([Plain("excluded")], Rows(e.excluded));
    FieldIsMarked(fields, 0, marked[0].value);
    FieldIsMarked(fields, 1, marked[1].value);
    FieldIsMarked(fields, 2, marked[2].value);
    FieldIsMarked(fields, 3, marked[3].value);
    FieldIsMarked(fields, 4, marked[4].value);
    FieldIsMarked(fields, 5, marked[5].value);
    SixFields(StripFields([], fields), marked);
  }

  lemma SixFields(a: seq<Field>, b: seq<Field>)
    requires |a| == |b| == 6
    requires a[0] == b[0] && a[1] == b[1] && a[2] == b[2] && a[3] == b[3] && a[4] == b[4] && a[5] == b[5]
    ensures a == b
  {
  }

  lemma InventoryIsMarked(e: Export)
    ensures Strip([Plain("inventory")], InventoryOf(e)) == MarkedDocument(e).fields[3].value
  {
    var fields := InventoryOf(e).fields;
    StripFieldAt([Plain("inventory")], fields, 0);
    StripFieldAt([Plain("inventory")], fields, 1);
    StripFieldAt([Plain("inventory")], fields, 2);
    SpooledArray(Categories, SortKeysOfAll(e.categories));
    SpooledArray(Locations, SortKeysOfAll(e.locations));
    SpooledArray(Items, SortKeysOfAll(e.items));
    assert [Plain("inventory")] + [Plain("categories")] == SpoolPath(Categories);
    assert [Plain("inventory")] + [Plain("locations")] == SpoolPath(Locations);
    assert [Plain("inventory")] + [Plain("items")] == SpoolPath(Items);
  }

  lemma HistoryIsMarked(e: Export)
    ensures Strip([Plain("history")], HistoryOf(e)) == MarkedDocument(e).fields[4].value
  {
    StripFieldAt([Plain("history")], HistoryOf(e).fields, 0);
    SpooledArray(Events, SortKeysOfAll(e.events));
    assert [Plain("history")] + [Plain("events")] == SpoolPath(Events);
  }

  /** The printed text holds exactly the document, for the ordinary parser. */
  lemma PrintedDocumentParses(codec: Codec, e: Export)
    requires Faithful(codec) && OrdinaryExport(e) && Ordinary(DocumentOf(e))
    ensures ParseDocument(codec.loads, Print(codec, DocumentOf(e)) + "\n") == Document(DocumentOf(e))
  {
    PrintReads(codec, DocumentOf(e), "\n");
    assert SkipSpace("\n") == "";
  }

  lemma ExportedFileReads(codec: Codec, e: Export, file: seq<Byte>)
    requires Faithful(codec) && OrdinaryExport(e) && Ordinary(DocumentOf(e))
    requires file == Encode(Print(codec, DocumentOf(e)) + "\n")
    ensures ValidUtf8(file) && Decode(file).chars == Print(codec, DocumentOf(e)) + "\n"
    ensures ParseDocument(codec.loads, Decode(file).chars) == Document(DocumentOf(e)) && Holds(codec.loads, Decode(file).chars)
  {
    DecodeEncoded(Print(codec, DocumentOf(e)) + "\n");
    PrintedDocumentParses(codec, e);
    DocumentIsWritable(e);
  }

  lemma RowsAreEncodable(rows: seq<Json>)
    requires EncodableRows(rows)
    ensures Encodable(Rows(rows))
  {
    SortedItemsAreEncodable(rows);
  }

  lemma FieldsAreEncodable(fields: seq<Field>)
    requires forall i :: 0 <= i < |fields| ==> fields[i].key.Plain? && Encodable(fields[i].value)
    ensures Encodable(Dict(fields))
  {
  }

  /** Everything an export spools can be written. */
  lemma DocumentIsWritable(e: Export)
    requires OrdinaryExport(e)
    ensures Writable(Spool([], DocumentOf(e)))
  {
    RowsAreEncodable(e.categories);
    RowsAreEncodable(e.locations);
    RowsAreEncodable(e.items);
    RowsAreEncodable(e.events);
    RowsAreEncodable(e.excluded);
    FieldsAreEncodable(SourceOf(e).fields);
    FieldsAreEncodable(InventoryOf(e).fields);
    FieldsAreEncodable(HistoryOf(e).fields);
    FieldsAreEncodable(DocumentOf(e).fields);
    EncodableIsWritable([], DocumentOf(e));
  }

  /** The beginning of a text that is a document with one line end behind it is no document, unless only that line end is missing. */
  lemma NoShorterDocument(loads: Loads, text: string, v: Json, short: string)
    requires Value(loads, text) == Parsed(v, "\n") && Starts(text, '{') && short < text
    ensures ParseDocument(loads, short).Document? ==> text[|short|] == '\n'
  {
    if ParseDocument(loads, short).Document? {
      var tail := text[|short|..];
      assert short + tail == text;
      ValueEnds(loads, short, tail);
      assert (Value(loads, short).rest + tail)[|Value(loads, short).rest|] == tail[0];
    }
  }

  lemma ExportAccepted(codec: Codec, e: Export, file: seq<Byte>, size: nat)
    requires Faithful(codec) && OrdinaryExport(e) && Ordinary(DocumentOf(e)) && size >= 1
    requires file == Encode(Print(codec, DocumentOf(e)) + "\n")
    ensures Accepts(codec.loads, Delivered(file, size)) <==> EveryChunkCompletes(file, size)
    ensures EveryChunkCompletes(file, size) ==> Delivered(file, size).chars == Decode(file).chars
    ensures size >= 4 ==> EveryChunkCompletes(file, size)
  {
    ExportedFileReads(codec, e, file);
    DeliveredInFull(file, size);
    AcceptedFiles(codec.loads, file, size);
    if size >= 4 {
      FourBytesComplete(file, size);
    }
    if !EveryChunkCompletes(file, size) {
      var text := Decode(file).chars;
      PrintReads(codec, DocumentOf(e), "\n");
      assert text[0] == '{';
      NoShorterDocument(codec.loads, text, DocumentOf(e), Delivered(file, size).chars);
    }
  }

  /**
   * Export, encode as UTF-8, and read back in chunks of any size: the file is accepted exactly when
   * every chunk completes a character, as chunks of four bytes and more do.  Then the markers stand
   * in the four places, and the spools hold exactly the printed rows.
   */
  method ExportThenRead(codec: Codec, e: Export, chunkSize: nat) returns (r: Outcome<Json>, workspace: Workspace)
    requires Faithful(codec) && PlainKeys(codec) && OrdinaryExport(e)
    requires chunkSize >= 1 && (chunkSize < 4 ==> AsciiScalars(codec.loads))
    ensures OrdinaryFrame(e) && (r.Ok? <==> EveryChunkCompletes(Encode(Print(codec, DocumentOf(e)) + "\n"), chunkSize))
    ensures chunkSize >= 4 ==> r.Ok?
    ensures r.Ok? ==> r.value == MarkedDocument(e) && workspace.Valid() && HoldsRows(workspace, e)
  {
    DocumentIsOrdinary(e);
    var handle := new TextHandle();
    var categories, locations, items, events := WritePortableStream(handle, codec, e);
    ghost var text := Print(codec, DocumentOf(e)) + "\n";
    assert handle.text == "" + text == text;
    var file := Encode(handle.text);
    ExportedFileReads(codec, e, file);
    ExportAccepted(codec, e, file, chunkSize);
    r, workspace := ReadPortableWorkspace(codec.loads, file, chunkSize);
    if r.Ok? {
      ReadRows(workspace, r.value, e);
    }
  }

  ghost predicate HoldsRows(workspace: Workspace, e: Export)
    reads workspace
  {
    && workspace.RecordsOf(Categories) == SortKeysOfAll(e.categories) && workspace.RecordsOf(Locations) == SortKeysOfAll(e.locations)
    && workspace.RecordsOf(Items) == SortKeysOfAll(e.items) && workspace.RecordsOf(Events) == SortKeysOfAll(e.events)
  }

  lemma ReadRows(workspace: Workspace, structure: Json, e: Export)
    requires Reads(workspace, structure, DocumentOf(e))
    ensures structure == MarkedDocument(e) && HoldsRows(workspace, e)
  {
    SectionsOfDocument(e);
    DocumentIsMarked(e);
  }

  // ----- a string that UTF-8 cannot hold

  /** {"inventory":{"items":["\ud800"]}} as a value. */
  function LoneSurrogate(): Json {
    Dict([Field(Plain("inventory"), Dict([Field(Plain("items"), List([Text(Surrogated([0xD800]))]))]))])
  }

  /**
   * The ordinary parser accepts an item with a lone surrogate, named by an escape; the spooling parser
   * does not, because the record cannot be written.
   */
  lemma LoneSurrogateIsRefused(codec: Codec, size: nat)
    requires Faithful(codec) && PlainKeys(codec) && codec.quote(Surrogated([0xD800])) == "\"\\ud800\"" && size >= 1
    ensures var text := SurrogateText();
            && ValidUtf8(Encode(text)) && Decode(Encode(text)).chars == text
            && ParseDocument(codec.loads, text) == Document(LoneSurrogate())
            && (size >= 4 ==> !Accepts(codec.loads, Delivered(Encode(text), size)))
  {
    var v := LoneSurrogate();
    var text := Print(codec, v);
    SurrogatePrints(codec);
    PrintReads(codec, v, "");
    assert text + "" == text;
    DecodeEncoded(text);
    AcceptedFiles(codec.loads, Encode(text), size);
    SurrogateSpools();
  }

  lemma SpoolFirst(path: Path, fields: seq<Field>, i: nat)
    requires i < |fields|
    ensures SpoolFields(path, fields[..i + 1]) == SpoolFields(path, fields[..i]) + Spool(path + [fields[i].key], fields[i].value)
    ensures SpoolFields(path, fields[..0]) == [] && fields[..|fields|] == fields
  {
    assert fields[..i + 1][..i] == fields[..i];
  }

  lemma SurrogateSpools()
    ensures !Writable(Spool([], LoneSurrogate()))
  {
    var v := LoneSurrogate();
    var items := [Text(Surrogated([0xD800]))];
    SpoolFirst([], v.fields, 0);
    SpoolFirst([Plain("inventory")], v.fields[0].value.fields, 0);
    SpooledArray(Items, items);
    assert [] + [Plain("inventory")] == [Plain("inventory")];
    assert [Plain("inventory")] + [Plain("items")] == SpoolPath(Items);
    RecordsAt(Items, items, 0);
    assert Spool([], v) == Records(Items, items);
  }

  function SurrogateText(): string {
    "{" + (Key("inventory") + ("{" + (Key("items") + ("[" + "\"\\ud800\"" + "]" + ("}" + ("}" + ""))))))
  }

  lemma SurrogatePrints(codec: Codec)
    requires PlainKeys(codec) && codec.quote(Surrogated([0xD800])) == "\"\\ud800\""
    ensures Ordinary(LoneSurrogate()) && Print(codec, LoneSurrogate()) == SurrogateText()
  {
    var v := LoneSurrogate();
    var inner := v.fields[0].value;
    FrameKeysPrint(codec);
    BracesPrint(codec, v.fields, "");
    LastFieldPrints(codec, v.fields[0], "}" + "");
    BracesPrint(codec, inner.fields, "}" + "");
    LastFieldPrints(codec, inner.fields[0], "}" + ("}" + ""));
    assert Print(codec, v) + "" == Print(codec, v);
    assert Print(codec, inner.fields[0].value) == "[" + "\"\\ud800\"" + "]";
  }
}
