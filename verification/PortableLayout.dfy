/**
 * White space between the tokens of a document (section 2 of RFC 8259;
 * src/ah_there_it_is/portable_stream.py:243-245): a value written with any of
 * it around its brackets, commas, colons, keys and elements reads as the value
 * written without.
 */
module PortableLayout {
  import opened Prelude
  import opened Utf8
  import opened ChunkedText
  import opened PortableJson
  import opened PortableSpools
  import opened PortablePrinter
  import opened PortableParser

  /** A value with the white space to be written inside it. */
  datatype Laid =
    | LaidText(text: Str)
    | LaidScalar(atom: Atom)
    | LaidList(gap: string, items: seq<LaidItem>)
    | LaidDict(gap: string, fields: seq<LaidField>)

  datatype LaidItem = LaidItem(before: string, value: Laid, after: string)

  datatype LaidField = LaidField(before: string, key: Str, behindKey: string, beforeValue: string, value: Laid, after: string)

  predicate Blank(s: string) {
    forall c :: c in s ==> c == ' ' || c == '\t' || c == '\r' || c == '\n'
  }

  predicate Spaced(l: Laid)
    decreases l
  {
    match l
    case LaidText(_) => true
    case LaidScalar(_) => true
    case LaidList(gap, items) =>
      Blank(gap) && forall i :: 0 <= i < |items| ==> Blank(items[i].before) && Spaced(items[i].value) && Blank(items[i].after)
    case LaidDict(gap, fields) => Blank(gap) && forall i :: 0 <= i < |fields| ==> FieldSpaced(fields[i])
  }

  predicate FieldSpaced(f: LaidField)
    decreases f
  {
    Blank(f.before) && Blank(f.behindKey) && Blank(f.beforeValue) && Spaced(f.value) && Blank(f.after)
  }

  /** The value without its white space. */
  function Bared(l: Laid): Json
    decreases l
  {
    match l
    case LaidText(text) => Text(text)
    case LaidScalar(atom) => Json.Scalar(atom)
    case LaidList(_, items) => List(BaredItems(items))
    case LaidDict(_, fields) => Dict(BaredFields(fields))
  }

  function BaredItems(items: seq<LaidItem>): (r: seq<Json>)
    ensures |r| == |items|
    decreases items
  {
    if items == [] then [] else [Bared(items[0].value)] + BaredItems(items[1..])
  }

  function BaredFields(fields: seq<LaidField>): (r: seq<Field>)
    ensures |r| == |fields|
    decreases fields
  {
    if fields == [] then [] else [Field(fields[0].key, Bared(fields[0].value))] + BaredFields(fields[1..])
  }

  /** The value written in front of `tail`. */
  function Written(codec: Codec, l: Laid, tail: string): string
    decreases l
  {
    match l
    case LaidText(text) => codec.quote(text) + tail
    case LaidScalar(atom) => codec.scalar(atom) + tail
    case LaidList(gap, items) => "[" + if items == [] then gap + ("]" + tail) else WrittenItems(codec, items, tail)
    case LaidDict(gap, fields) => "{" + if fields == [] then gap + ("}" + tail) else WrittenFields(codec, fields, tail)
  }

  function WrittenItems(codec: Codec, items: seq<LaidItem>, tail: string): string
    requires items != []
    decreases items
  {
    var item := items[0];
    item.before + Written(codec, item.value, item.after
      + if |items| == 1 then "]" + tail else "," + WrittenItems(codec, items[1..], tail))
  }

  function WrittenFields(codec: Codec, fields: seq<LaidField>, tail: string): string
    requires fields != []
    decreases fields
  {
    var f := fields[0];
    f.before + (codec.quote(f.key) + (f.behindKey + (":" + (f.beforeValue + Written(codec, f.value, f.after
      + if |fields| == 1 then "}" + tail else "," + WrittenFields(codec, fields[1..], tail))))))
  }

  // ----- white space is skipped

  lemma {:induction false} BlankIsSkipped(w: string, s: string)
    requires Blank(w)
    ensures SkipSpace(w + s) == SkipSpace(s)
  {
    if w == "" {
      assert w + s == s;
    } else {
      assert w[0] in w && (w + s)[1..] == w[1..] + s;
      forall c | c in w[1..] ensures c in w {
      }
      BlankIsSkipped(w[1..], s);
    }
  }

  lemma ValueSkips(loads: Loads, w: string, s: string)
    requires Blank(w)
    ensures Value(loads, w + s) == Value(loads, s)
  {
    BlankIsSkipped(w, s);
  }

  /** What may stand behind a value: nothing, white space, a comma or a closing bracket. */
  predicate Behind(tail: string) {
    tail != "" ==> tail[0] == ' ' || tail[0] == '\t' || tail[0] == '\r' || tail[0] == '\n' || tail[0] == ',' || tail[0] == ']' || tail[0] == '}'
  }

  lemma BlankBehind(w: string, tail: string)
    requires Blank(w) && Behind(tail)
    ensures Behind(w + tail) && Follows(w + tail)
  {
    if w != "" {
      assert w[0] in w;
    }
  }

  /** A written value begins like a value: not with white space nor a closing bracket. */
  lemma WrittenStart(codec: Codec, l: Laid, tail: string)
    requires Faithful(codec)
    ensures var s := Written(codec, l, tail); s != "" && !EndsScalar(s[0])
  {
    match l
    case LaidText(text) => assert Quoted(codec.quote(text));
    case LaidScalar(atom) =>
      var token := codec.scalar(atom);
      assert PortablePrinter.Bare(token) && token[0] in token;
    case LaidList(_, _) => assert Written(codec, l, tail)[0] == '[';
    case LaidDict(_, _) => assert Written(codec, l, tail)[0] == '{';
  }

  // ----- a value with white space inside reads as the value

  lemma {:induction false} LaidReads(codec: Codec, l: Laid, tail: string)
    requires Faithful(codec) && Spaced(l) && Ordinary(Bared(l)) && Behind(tail)
    ensures Value(codec.loads, Written(codec, l, tail)) == Parsed(Bared(l), tail)
    decreases l, 1
  {
    BlankBehind("", tail);
    assert "" + tail == tail;
    match l
    case LaidText(text) =>
      QuotedReads(codec, text, tail);
      assert Quoted(codec.quote(text));
      assert SkipSpace(Written(codec, l, tail)) == Written(codec, l, tail);
    case LaidScalar(atom) => ScalarReads(codec, atom, tail);
    case LaidList(gap, items) => LaidListReads(codec, gap, items, tail);
    case LaidDict(gap, fields) => LaidDictReads(codec, gap, fields, tail);
  }

  lemma {:induction false} LaidListReads(codec: Codec, gap: string, items: seq<LaidItem>, tail: string)
    requires Faithful(codec) && Spaced(LaidList(gap, items)) && Ordinary(List(BaredItems(items))) && Behind(tail)
    ensures Value(codec.loads, Written(codec, LaidList(gap, items), tail)) == Parsed(List(BaredItems(items)), tail)
    decreases items, 1
  {
    var s := Written(codec, LaidList(gap, items), tail);
    assert SkipSpace(s) == s;
    if items == [] {
      assert s[1..] == gap + ("]" + tail);
      BlankIsSkipped(gap, "]" + tail);
      assert ("]" + tail)[1..] == tail;
    } else {
      assert s[1..] == WrittenItems(codec, items, tail);
      ItemsOpen(codec, items, tail);
      LaidItemsRead(codec, items, [], OpeningAt(s[1..], ']').rest, tail);
      assert [] + BaredItems(items) == BaredItems(items);
    }
  }

  /** Behind the opening bracket the first element begins. */
  lemma ItemsOpen(codec: Codec, items: seq<LaidItem>, tail: string)
    requires Faithful(codec) && items != [] && Blank(items[0].before)
    ensures var s := WrittenItems(codec, items, tail);
            exists u :: OpeningAt(s, ']') == Filled(u) && items[0].before + u == s
  {
    var item := items[0];
    var u := Written(codec, item.value, item.after + if |items| == 1 then "]" + tail else "," + WrittenItems(codec, items[1..], tail));
    BlankIsSkipped(item.before, u);
    WrittenStart(codec, item.value, item.after + if |items| == 1 then "]" + tail else "," + WrittenItems(codec, items[1..], tail));
    assert SkipSpace(u) == u;
    assert OpeningAt(WrittenItems(codec, items, tail), ']') == Filled(u);
  }

  /** The elements, with or without the white space in front of the first. */
  lemma {:induction false} LaidItemsRead(codec: Codec, items: seq<LaidItem>, before: seq<Json>, s: string, tail: string)
    requires Faithful(codec) && items != [] && Spaced(LaidList("", items)) && Behind(tail)
    requires Ordinary(List(BaredItems(items)))
    requires s == WrittenItems(codec, items, tail) || items[0].before + s == WrittenItems(codec, items, tail)
    ensures Elements(codec.loads, s, before) == Parsed(List(before + BaredItems(items)), tail)
    decreases items, 0
  {
    var item := items[0];
    var rest := if |items| == 1 then "]" + tail else "," + WrittenItems(codec, items[1..], tail);
    var u := Written(codec, item.value, item.after + rest);
    assert WrittenItems(codec, items, tail) == item.before + u;
    assert (item.before + s)[|item.before|..] == s && (item.before + u)[|item.before|..] == u;
    assert Ordinary(Bared(item.value)) by {
      assert BaredItems(items)[0] == Bared(item.value);
    }
    BlankBehind(item.after, rest);
    LaidReads(codec, item.value, item.after + rest);
    ValueSkips(codec.loads, item.before, u);
    BlankIsSkipped(item.after, rest);
    assert SkipSpace(rest) == rest;
    var value := Bared(item.value);
    if |items| == 1 {
      assert rest[1..] == tail;
      assert ElementAt(codec.loads, s) == Entry(value, true, tail);
      assert BaredItems(items) == [value];
    } else {
      var more := WrittenItems(codec, items[1..], tail);
      assert rest[1..] == more;
      assert ElementAt(codec.loads, s) == Entry(value, false, more);
      RestIsOrdinary(items);
      LaidItemsRead(codec, items[1..], before + [value], more, tail);
      assert before + BaredItems(items) == (before + [value]) + BaredItems(items[1..]);
    }
  }

  lemma {:induction false} RestIsOrdinary(items: seq<LaidItem>)
    requires items != [] && Ordinary(List(BaredItems(items))) && Spaced(LaidList("", items))
    ensures Ordinary(List(BaredItems(items[1..]))) && Spaced(LaidList("", items[1..]))
  {
    assert BaredItems(items)[1..] == BaredItems(items[1..]);
  }

  lemma {:induction false} LaidDictReads(codec: Codec, gap: string, fields: seq<LaidField>, tail: string)
    requires Faithful(codec) && Spaced(LaidDict(gap, fields)) && Ordinary(Dict(BaredFields(fields))) && Behind(tail)
    ensures Value(codec.loads, Written(codec, LaidDict(gap, fields), tail)) == Parsed(Dict(BaredFields(fields)), tail)
    decreases fields, 3
  {
    var s := Written(codec, LaidDict(gap, fields), tail);
    assert SkipSpace(s) == s;
    if fields == [] {
      assert s[1..] == gap + ("}" + tail);
      BlankIsSkipped(gap, "}" + tail);
      assert ("}" + tail)[1..] == tail;
    } else {
      assert s[1..] == WrittenFields(codec, fields, tail);
      FieldsOpen(codec, fields, tail);
      assert [] + BaredFields(fields) == BaredFields(fields);
      LaidFieldsRead(codec, fields, [], OpeningAt(s[1..], '}').rest, tail);
    }
  }

  /** What follows the white space in front of the first member. */
  function FromKey(codec: Codec, fields: seq<LaidField>, tail: string): string
    requires fields != []
  {
    codec.quote(fields[0].key) + (fields[0].behindKey + (":" + FromValue(codec, fields, tail)))
  }

  function FromValue(codec: Codec, fields: seq<LaidField>, tail: string): string
    requires fields != []
  {
    var f := fields[0];
    f.beforeValue + Written(codec, f.value, f.after + FromDelimiter(codec, fields, tail))
  }

  function FromDelimiter(codec: Codec, fields: seq<LaidField>, tail: string): string
    requires fields != []
  {
    if |fields| == 1 then "}" + tail else "," + WrittenFields(codec, fields[1..], tail)
  }

  lemma FieldsOpen(codec: Codec, fields: seq<LaidField>, tail: string)
    requires Faithful(codec) && fields != [] && Blank(fields[0].before)
    ensures OpeningAt(WrittenFields(codec, fields, tail), '}') == Filled(FromKey(codec, fields, tail))
    ensures WrittenFields(codec, fields, tail) == fields[0].before + FromKey(codec, fields, tail)
  {
    var u := FromKey(codec, fields, tail);
    assert Quoted(codec.quote(fields[0].key));
    BlankIsSkipped(fields[0].before, u);
    assert u[0] == '"' && SkipSpace(u) == u;
  }

  /** A key with its colon, and the white space around both. */
  lemma LaidKeyReads(codec: Codec, fields: seq<LaidField>, seen: set<Str>, s: string, tail: string)
    requires Faithful(codec) && fields != [] && FieldSpaced(fields[0]) && fields[0].key !in seen
    requires s == FromKey(codec, fields, tail) || s == fields[0].before + FromKey(codec, fields, tail)
    ensures KeyAt(codec.loads, s, seen) == Parsed(fields[0].key, FromValue(codec, fields, tail))
  {
    var f, u := fields[0], FromKey(codec, fields, tail);
    var colon := ":" + FromValue(codec, fields, tail);
    assert Quoted(codec.quote(f.key));
    assert u[0] == '"' && SkipSpace(u) == u;
    BlankIsSkipped(f.before, u);
    QuotedReads(codec, f.key, f.behindKey + colon);
    BlankIsSkipped(f.behindKey, colon);
    assert SkipSpace(colon) == colon && colon[1..] == FromValue(codec, fields, tail);
  }

  /** What stands behind a member: white space, its delimiter, the rest. */
  lemma DelimiterReads(codec: Codec, fields: seq<LaidField>, first: Field, tail: string)
    requires fields != [] && Blank(fields[0].after)
    ensures Delimited(first, fields[0].after + FromDelimiter(codec, fields, tail), '}')
            == if |fields| == 1 then Entry(first, true, tail) else Entry(first, false, WrittenFields(codec, fields[1..], tail))
    ensures Behind(fields[0].after + FromDelimiter(codec, fields, tail))
  {
    var rest := FromDelimiter(codec, fields, tail);
    BlankBehind(fields[0].after, rest);
    BlankIsSkipped(fields[0].after, rest);
    assert SkipSpace(rest) == rest;
    assert |fields| == 1 ==> rest[1..] == tail;
    assert |fields| > 1 ==> rest[1..] == WrittenFields(codec, fields[1..], tail);
  }

  lemma {:induction false} LaidValueReads(codec: Codec, fields: seq<LaidField>, tail: string)
    requires Faithful(codec) && fields != [] && FieldSpaced(fields[0]) && Ordinary(Bared(fields[0].value))
    ensures Value(codec.loads, FromValue(codec, fields, tail))
            == Parsed(Bared(fields[0].value), fields[0].after + FromDelimiter(codec, fields, tail))
    decreases fields, 0
  {
    var f, behind := fields[0], fields[0].after + FromDelimiter(codec, fields, tail);
    DelimiterReads(codec, fields, Field(f.key, Bared(f.value)), tail);
    assert f in fields;
    LaidReads(codec, f.value, behind);
    ValueSkips(codec.loads, f.beforeValue, Written(codec, f.value, behind));
  }

  lemma {:induction false} LaidMemberReads(codec: Codec, fields: seq<LaidField>, seen: set<Str>, s: string, tail: string)
    requires Faithful(codec) && fields != [] && FieldSpaced(fields[0]) && fields[0].key !in seen
    requires Ordinary(Bared(fields[0].value))
    requires s == FromKey(codec, fields, tail) || s == fields[0].before + FromKey(codec, fields, tail)
    ensures MemberAt(codec.loads, s, seen)
            == if |fields| == 1 then Entry(Field(fields[0].key, Bared(fields[0].value)), true, tail)
               else Entry(Field(fields[0].key, Bared(fields[0].value)), false, WrittenFields(codec, fields[1..], tail))
    decreases fields, 1
  {
    LaidKeyReads(codec, fields, seen, s, tail);
    LaidValueReads(codec, fields, tail);
    DelimiterReads(codec, fields, Field(fields[0].key, Bared(fields[0].value)), tail);
  }

  /** The members, with or without the white space in front of the first. */
  lemma {:induction false} LaidFieldsRead(codec: Codec, fields: seq<LaidField>, before: seq<Field>, s: string, tail: string)
    requires Faithful(codec) && fields != [] && Spaced(LaidDict("", fields)) && Behind(tail)
    requires UniqueKeys(before + BaredFields(fields))
    requires forall i :: 0 <= i < |fields| ==> Ordinary(BaredFields(fields)[i].value)
    requires s == FromKey(codec, fields, tail) || s == fields[0].before + FromKey(codec, fields, tail)
    ensures Members(codec.loads, s, before) == Parsed(Dict(before + BaredFields(fields)), tail)
    decreases fields, 2
  {
    var bared := BaredFields(fields);
    var first := Field(fields[0].key, Bared(fields[0].value));
    assert bared[0] == first && bared[1..] == BaredFields(fields[1..]);
    FirstKeyIsNew(before, bared);
    LaidMemberReads(codec, fields, KeysOf(before), s, tail);
    MoveFirst(before, bared);
    if |fields| == 1 {
      assert bared == [first];
    } else {
      FieldsOpen(codec, fields[1..], tail);
      forall i | 0 <= i < |fields[1..]| ensures Ordinary(BaredFields(fields[1..])[i].value) {
        assert BaredFields(fields[1..])[i] == bared[i + 1];
      }
      LaidFieldsRead(codec, fields[1..], before + [first], WrittenFields(codec, fields[1..], tail), tail);
    }
  }

  // ----- whole documents

  /** White space anywhere between the tokens changes nothing: the document is that of the compact text. */
  lemma LayoutIsImmaterial(codec: Codec, l: Laid, before: string, after: string)
    requires Faithful(codec) && Spaced(l) && Ordinary(Bared(l)) && Blank(before) && Blank(after)
    ensures ParseDocument(codec.loads, before + Written(codec, l, after)) == Document(Bared(l))
    ensures ParseDocument(codec.loads, Print(codec, Bared(l))) == Document(Bared(l))
  {
    BlankBehind(after, "");
    assert after + "" == after;
    LaidReads(codec, l, after);
    ValueSkips(codec.loads, before, Written(codec, l, after));
    BlankIsSkipped(after, "");
    PrintReads(codec, Bared(l), "");
    assert Print(codec, Bared(l)) + "" == Print(codec, Bared(l));
  }

  /**
   * So every such file that is delivered in full is accepted exactly if its records can be written,
   * and holds the document of the compact text.
   */
  lemma LaidOutFile(codec: Codec, l: Laid, before: string, after: string, file: seq<Byte>, chunkSize: nat)
    requires Faithful(codec) && Spaced(l) && Ordinary(Bared(l)) && Blank(before) && Blank(after) && chunkSize >= 1
    requires ValidUtf8(file) && EveryChunkCompletes(file, chunkSize)
    requires Decode(file).chars == before + Written(codec, l, after)
    ensures Accepts(codec.loads, Delivered(file, chunkSize)) <==> Writable(Spool([], Bared(l)))
    ensures ParseDocument(codec.loads, Delivered(file, chunkSize).chars) == Document(Bared(l))
            == ParseDocument(codec.loads, Print(codec, Bared(l)))
  {
    LayoutIsImmaterial(codec, l, before, after);
    AcceptedFiles(codec.loads, file, chunkSize);
  }

  /** No other character is skipped: a document that begins with one is refused unless a scalar does. */
  lemma OnlyBlanksAreSkipped(loads: Loads, c: char, s: string)
    requires c !in " \t\r\n{[\"" && !loads("").LoadedAtom?
    requires forall token :: token != "" && token[0] == c ==> !loads(token).LoadedAtom?
    ensures ParseDocument(loads, [c] + s).Invalid?
  {
    var text := [c] + s;
    assert SkipSpace(text) == text && text[0] == c;
    var token := ScalarToken(text);
    assert token == "" || token[0] == c;
  }
}
