/**
 * The hand-framed export (src/ah_there_it_is/storage.py:1330-1373): every
 * value is printed compactly by `json.dumps` with sorted keys, the frame
 * around the four row streams is written piece by piece.  Printing then
 * parsing is the identity.
 */
module PortablePrinter {
  import opened Prelude
  import opened Utf8
  import opened PortableJson
  import opened PortableSpools
  import Sorting

  /**
   * `json.dumps` of strings and of other scalars, and `json.loads`.  The exporter prints without ASCII
   * escapes; a string with a surrogate, which the database cannot hold, is printed by an escape.
   */
  datatype Codec = Codec(quote: Str -> string, scalar: Atom -> string, loads: Loads)

  /** A lexeme that starts nothing else and contains no delimiter. */
  predicate Bare(token: string) {
    token != "" && token[0] !in "{[\"" && forall c :: c in token ==> c !in " \t\r\n,]}"
  }

  /** A quoted lexeme ends at its only unescaped quote after the first. */
  predicate Quoted(lexeme: string) {
    lexeme != "" && lexeme[0] == '"' && ScanString(lexeme[1..], false) == Scanned(lexeme[1..], "")
  }

  /** What the model needs of the `json` module: its lexemes are well shaped and load back. */
  ghost predicate Faithful(codec: Codec) {
    && (forall text :: Quoted(codec.quote(text)) && codec.loads(codec.quote(text)) == LoadedText(text))
    && (forall atom :: Bare(codec.scalar(atom)) && codec.loads(codec.scalar(atom)) == LoadedAtom(atom))
  }

  // ----- json.dumps with compact separators, keys in the order of the fields

  function Print(codec: Codec, v: Json): string
    requires Ordinary(v)
    decreases v
  {
    match v
    case Text(text) => codec.quote(text)
    case Scalar(atom) => codec.scalar(atom)
    case List(items) => "[" + PrintItems(codec, items) + "]"
    case Dict(fields) => "{" + PrintFields(codec, fields) + "}"
  }

  function PrintItems(codec: Codec, items: seq<Json>): string
    requires forall i :: 0 <= i < |items| ==> Ordinary(items[i])
    decreases items
  {
    if items == [] then ""
    else if |items| == 1 then Print(codec, items[0])
    else Print(codec, items[0]) + "," + PrintItems(codec, items[1..])
  }

  function PrintFields(codec: Codec, fields: seq<Field>): string
    requires forall i :: 0 <= i < |fields| ==> Ordinary(fields[i].value)
    decreases fields
  {
    if fields == [] then ""
    else if |fields| == 1 then PrintField(codec, fields[0])
    else PrintField(codec, fields[0]) + "," + PrintFields(codec, fields[1..])
  }

  function PrintField(codec: Codec, field: Field): string
    requires Ordinary(field.value)
    decreases field
  {
    codec.quote(field.key) + ":" + Print(codec, field.value)
  }

  // ----- printing then parsing

  /** What may follow a value without changing how it is read. */
  predicate Follows(tail: string) {
    tail == "" || EndsScalar(tail[0])
  }

  lemma {:induction false} ScanStringExtends(s: string, escaped: bool, tail: string)
    requires ScanString(s, escaped) == Scanned(s, "")
    ensures ScanString(s + tail, escaped) == Scanned(s, tail)
  {
    if s[0] == '"' && !escaped {
      assert (s + tail)[1..] == tail;
    } else {
      assert (s + tail)[1..] == s[1..] + tail;
      var inner := ScanString(s[1..], s[0] == '\\' && !escaped);
      assert ([s[0]] + inner.raw)[1..] == s[1..];
      ScanStringExtends(s[1..], s[0] == '\\' && !escaped, tail);
    }
  }

  lemma QuotedReads(codec: Codec, text: Str, tail: string)
    requires Faithful(codec)
    ensures StringAt(codec.loads, codec.quote(text) + tail) == Parsed(text, tail)
  {
    var lexeme := codec.quote(text);
    assert Quoted(lexeme);
    ScanStringExtends(lexeme[1..], false, tail);
    assert (lexeme + tail)[1..] == lexeme[1..] + tail;
    assert "\"" + lexeme[1..] == lexeme;
  }

  lemma {:induction false} TokenReads(token: string, tail: string)
    requires forall c :: c in token ==> !EndsScalar(c)
    requires Follows(tail)
    ensures ScalarToken(token + tail) == token
  {
    if token == "" {
      assert token + tail == tail;
    } else {
      assert token[0] in token;
      assert (token + tail)[1..] == token[1..] + tail;
      TokenReads(token[1..], tail);
    }
  }

  lemma ScalarReads(codec: Codec, atom: Atom, tail: string)
    requires Faithful(codec) && Follows(tail)
    ensures Value(codec.loads, codec.scalar(atom) + tail) == Parsed(Json.Scalar(atom), tail)
  {
    var token := codec.scalar(atom);
    var s := token + tail;
    assert Bare(token);
    assert token[0] in token && s[0] == token[0];
    assert SkipSpace(s) == s;
    TokenReads(token, tail);
    assert s[|token|..] == tail;
  }

  /** An ordinary value, printed and followed by a delimiter, reads back as itself. */
  lemma {:induction false} PrintReads(codec: Codec, v: Json, tail: string)
    requires Faithful(codec) && Ordinary(v) && Follows(tail)
    ensures Value(codec.loads, Print(codec, v) + tail) == Parsed(v, tail)
    decreases v, 1
  {
    var s := Print(codec, v) + tail;
    match v
    case Text(text) =>
      QuotedReads(codec, text, tail);
      assert Quoted(codec.quote(text));
      assert s[0] == '"' && SkipSpace(s) == s;
    case Scalar(atom) => ScalarReads(codec, atom, tail);
    case List(items) => ListReads(codec, items, tail);
    case Dict(fields) => DictReads(codec, fields, tail);
  }

  lemma {:induction false} ListReads(codec: Codec, items: seq<Json>, tail: string)
    requires Faithful(codec) && forall i :: 0 <= i < |items| ==> Ordinary(items[i])
    ensures Value(codec.loads, Print(codec, List(items)) + tail) == Parsed(List(items), tail)
    decreases items, 1
  {
    var s := Print(codec, List(items)) + tail;
    assert SkipSpace(s) == s;
    if items == [] {
      assert s[1..] == "]" + tail && s[1..][1..] == tail;
      assert OpeningAt(s[1..], ']') == Empty(tail);
    } else {
      var body := PrintItems(codec, items) + "]" + tail;
      assert s[1..] == body == PrintItems(codec, items) + ("]" + tail);
      ItemsStart(codec, items, "]" + tail);
      ItemsRead(codec, items, [], tail);
      assert [] + items == items;
    }
  }

  lemma {:induction false} DictReads(codec: Codec, fields: seq<Field>, tail: string)
    requires Faithful(codec) && Ordinary(Dict(fields))
    ensures Value(codec.loads, Print(codec, Dict(fields)) + tail) == Parsed(Dict(fields), tail)
    decreases fields, 1
  {
    var s := Print(codec, Dict(fields)) + tail;
    assert SkipSpace(s) == s;
    if fields == [] {
      assert s[1..] == "}" + tail && s[1..][1..] == tail;
      assert OpeningAt(s[1..], '}') == Empty(tail);
    } else {
      var body := PrintFields(codec, fields) + "}" + tail;
      assert s[1..] == body == PrintFields(codec, fields) + ("}" + tail);
      FieldsStart(codec, fields, "}" + tail);
      assert [] + fields == fields;
      FieldsRead(codec, fields, [], tail);
    }
  }

  /** The first character of a printed value is neither white space nor a closing bracket. */
  lemma PrintStart(codec: Codec, v: Json)
    requires Faithful(codec) && Ordinary(v)
    ensures var s := Print(codec, v); s != "" && !EndsScalar(s[0])
  {
    match v
    case Text(text) => assert Quoted(codec.quote(text));
    case Scalar(atom) =>
      var token := codec.scalar(atom);
      assert Bare(token) && token[0] in token;
    case List(items) => assert Print(codec, v)[0] == '[';
    case Dict(fields) => assert Print(codec, v)[0] == '{';
  }

  lemma ItemsStart(codec: Codec, items: seq<Json>, tail: string)
    requires Faithful(codec) && items != [] && forall i :: 0 <= i < |items| ==> Ordinary(items[i])
    ensures var s := PrintItems(codec, items) + tail; OpeningAt(s, ']') == Filled(s)
  {
    PrintStart(codec, items[0]);
    var s := PrintItems(codec, items) + tail;
    assert s[0] == Print(codec, items[0])[0];
  }

  lemma FieldsStart(codec: Codec, fields: seq<Field>, tail: string)
    requires Faithful(codec) && fields != [] && forall i :: 0 <= i < |fields| ==> Ordinary(fields[i].value)
    ensures var s := PrintFields(codec, fields) + tail; OpeningAt(s, '}') == Filled(s)
  {
    var first := PrintField(codec, fields[0]);
    assert Quoted(codec.quote(fields[0].key));
    assert first != "" && first[0] == '"';
    assert first <= PrintFields(codec, fields);
    var s := PrintFields(codec, fields) + tail;
    assert s[0] == '"';
  }

  lemma {:induction false} ItemsRead(codec: Codec, items: seq<Json>, before: seq<Json>, tail: string)
    requires Faithful(codec) && items != [] && forall i :: 0 <= i < |items| ==> Ordinary(items[i])
    ensures Elements(codec.loads, PrintItems(codec, items) + "]" + tail, before) == Parsed(List(before + items), tail)
    decreases items, 0
  {
    var s := PrintItems(codec, items) + "]" + tail;
    var first := Print(codec, items[0]);
    if |items| == 1 {
      assert s == first + ("]" + tail);
      PrintReads(codec, items[0], "]" + tail);
      assert ElementAt(codec.loads, s) == Entry(items[0], true, ("]" + tail)[1..]);
      assert before + [items[0]] == before + items;
    } else {
      var rest := PrintItems(codec, items[1..]) + "]" + tail;
      assert s == first + ("," + rest);
      PrintReads(codec, items[0], "," + rest);
      assert ("," + rest)[1..] == rest;
      assert ElementAt(codec.loads, s) == Entry(items[0], false, rest);
      ItemsRead(codec, items[1..], before + [items[0]], tail);
      assert (before + [items[0]]) + items[1..] == before + items;
    }
  }

  lemma MemberReads(codec: Codec, field: Field, seen: set<Str>, tail: string)
    requires Faithful(codec) && Ordinary(field.value) && field.key !in seen && Follows(tail)
    requires Value(codec.loads, Print(codec, field.value) + tail) == Parsed(field.value, tail)
    ensures MemberAt(codec.loads, PrintField(codec, field) + tail, seen) == Delimited(field, tail, '}')
  {
    var s := PrintField(codec, field) + tail;
    var after := ":" + (Print(codec, field.value) + tail);
    assert s == codec.quote(field.key) + after;
    assert Quoted(codec.quote(field.key));
    assert SkipSpace(s) == s;
    QuotedReads(codec, field.key, after);
    assert SkipSpace(after) == after && after[1..] == Print(codec, field.value) + tail;
  }

  lemma FirstKeyIsNew(before: seq<Field>, fields: seq<Field>)
    requires fields != [] && UniqueKeys(before + fields)
    ensures fields[0].key !in KeysOf(before)
  {
    forall i | 0 <= i < |before| ensures before[i].key != fields[0].key {
      assert (before + fields)[i] == before[i] && (before + fields)[|before|] == fields[0];
    }
  }

  /** What stands behind the first member: its delimiter, then the rest. */
  function AfterFirst(codec: Codec, fields: seq<Field>, tail: string): string
    requires fields != [] && forall i :: 0 <= i < |fields| ==> Ordinary(fields[i].value)
  {
    if |fields| == 1 then "}" + tail else "," + (PrintFields(codec, fields[1..]) + "}" + tail)
  }

  lemma FirstFieldSplits(codec: Codec, fields: seq<Field>, tail: string)
    requires fields != [] && forall i :: 0 <= i < |fields| ==> Ordinary(fields[i].value)
    ensures PrintFields(codec, fields) + "}" + tail == PrintField(codec, fields[0]) + AfterFirst(codec, fields, tail)
  {
    var first := PrintField(codec, fields[0]);
    if |fields| == 1 {
      assert first + "}" + tail == first + ("}" + tail);
    } else {
      Reassociate(first, ",", PrintFields(codec, fields[1..]), "}", tail);
    }
  }

  lemma Reassociate(a: string, b: string, c: string, d: string, e: string)
    ensures (a + b + c) + d + e == a + (b + (c + d + e))
  {
  }

  lemma AfterFirstDelimits(codec: Codec, fields: seq<Field>, tail: string)
    requires fields != [] && forall i :: 0 <= i < |fields| ==> Ordinary(fields[i].value)
    ensures Follows(AfterFirst(codec, fields, tail))
    ensures Delimited(fields[0], AfterFirst(codec, fields, tail), '}')
            == if |fields| == 1 then Entry(fields[0], true, tail)
               else Entry(fields[0], false, PrintFields(codec, fields[1..]) + "}" + tail)
  {
    var after := AfterFirst(codec, fields, tail);
    assert SkipSpace(after) == after;
    assert |fields| == 1 ==> after[1..] == tail;
    assert |fields| > 1 ==> after[1..] == PrintFields(codec, fields[1..]) + "}" + tail;
  }

  lemma MoveFirst<T>(before: seq<T>, s: seq<T>)
    requires s != []
    ensures (before + [s[0]]) + s[1..] == before + s
  {
  }

  lemma {:induction false} FieldsRead(codec: Codec, fields: seq<Field>, before: seq<Field>, tail: string)
    requires Faithful(codec) && fields != [] && forall i :: 0 <= i < |fields| ==> Ordinary(fields[i].value)
    requires UniqueKeys(before + fields)
    ensures Members(codec.loads, PrintFields(codec, fields) + "}" + tail, before) == Parsed(Dict(before + fields), tail)
    decreases fields, 0
  {
    var first, after := fields[0], AfterFirst(codec, fields, tail);
    FirstKeyIsNew(before, fields);
    FirstFieldSplits(codec, fields, tail);
    AfterFirstDelimits(codec, fields, tail);
    PrintReads(codec, first.value, after);
    MemberReads(codec, first, KeysOf(before), after);
    MoveFirst(before, fields);
    if |fields| == 1 {
      assert fields[1..] == [] && before + [first] + [] == before + [first];
    } else {
      FieldsRead(codec, fields[1..], before + [first], tail);
    }
  }

  // ----- sort_keys

  /** The code points of a string. */
  function Points(s: Str): seq<int> {
    match s
    case Plain(chars) => seq(|chars|, i requires 0 <= i < |chars| => chars[i] as int)
    case Surrogated(points) => points
  }

  /** Python compares strings by code points. */
  predicate PointsLeq(a: seq<int>, b: seq<int>) {
    a == [] || (b != [] && (a[0] < b[0] || (a[0] == b[0] && PointsLeq(a[1..], b[1..]))))
  }

  const BY_KEY: (Field, Field) -> bool := (x: Field, y: Field) => PointsLeq(Points(x.key), Points(y.key))

  /** The value with the keys of every object in order: what `json.dumps(sort_keys=True)` prints. */
  function SortKeys(v: Json): Json
    decreases v
  {
    match v
    case List(items) => List(SortKeysOfAll(items))
    case Dict(fields) => Dict(Sorting.Sort(BY_KEY, SortKeysBelow(fields)))
    case _ => v
  }

  function SortKeysOfAll(items: seq<Json>): (r: seq<Json>)
    ensures |r| == |items|
    decreases items
  {
    if items == [] then [] else [SortKeys(items[0])] + SortKeysOfAll(items[1..])
  }

  function SortKeysBelow(fields: seq<Field>): seq<Field>
    decreases fields
  {
    if fields == [] then []
    else
      assert fields[0].value < Dict(fields);
      [Field(fields[0].key, SortKeys(fields[0].value))] + SortKeysBelow(fields[1..])
  }

  predicate OrdinaryFields(fields: seq<Field>) {
    UniqueKeys(fields) && forall i :: 0 <= i < |fields| ==> Ordinary(fields[i].value)
  }

  lemma ConsKeepsOrdinary(x: Field, s: seq<Field>)
    requires OrdinaryFields(s) && x.key !in KeysOf(s) && Ordinary(x.value)
    ensures OrdinaryFields([x] + s) && KeysOf([x] + s) == KeysOf(s) + {x.key}
  {
    assert forall i :: 0 <= i < |s| ==> s[i].key in KeysOf(s);
  }

  lemma TailIsOrdinary(s: seq<Field>)
    requires s != [] && OrdinaryFields(s)
    ensures OrdinaryFields(s[1..]) && Ordinary(s[0].value)
    ensures s[0].key !in KeysOf(s[1..]) && KeysOf(s) == KeysOf(s[1..]) + {s[0].key}
  {
    assert s == [s[0]] + s[1..];
  }

  lemma {:induction false} InsertKeepsOrdinary(x: Field, s: seq<Field>)
    requires OrdinaryFields(s) && x.key !in KeysOf(s) && Ordinary(x.value)
    ensures OrdinaryFields(Sorting.Insert(BY_KEY, x, s))
    ensures KeysOf(Sorting.Insert(BY_KEY, x, s)) == KeysOf(s) + {x.key}
  {
    if s == [] || BY_KEY(x, s[0]) {
      ConsKeepsOrdinary(x, s);
      assert [x] + s == Sorting.Insert(BY_KEY, x, s);
    } else {
      TailIsOrdinary(s);
      InsertKeepsOrdinary(x, s[1..]);
      ConsKeepsOrdinary(s[0], Sorting.Insert(BY_KEY, x, s[1..]));
    }
  }

  lemma {:induction false} SortKeepsOrdinary(s: seq<Field>)
    requires OrdinaryFields(s)
    ensures OrdinaryFields(Sorting.Sort(BY_KEY, s)) && KeysOf(Sorting.Sort(BY_KEY, s)) == KeysOf(s)
  {
    if s != [] {
      TailIsOrdinary(s);
      SortKeepsOrdinary(s[1..]);
      InsertKeepsOrdinary(s[0], Sorting.Sort(BY_KEY, s[1..]));
    }
  }

  lemma {:induction false} SortedKeysAreOrdinary(v: Json)
    requires Ordinary(v)
    ensures Ordinary(SortKeys(v))
    decreases v
  {
    match v
    case List(items) => SortedItemsAreOrdinary(items);
    case Dict(fields) =>
      SortedFieldsAreOrdinary(fields);
      SortKeepsOrdinary(SortKeysBelow(fields));
    case _ =>
  }

  lemma {:induction false} SortedItemsAreOrdinary(items: seq<Json>)
    requires forall i :: 0 <= i < |items| ==> Ordinary(items[i])
    ensures forall i :: 0 <= i < |items| ==> Ordinary(SortKeysOfAll(items)[i])
    ensures forall i :: 0 <= i < |items| ==> SortKeysOfAll(items)[i] == SortKeys(items[i])
    decreases items
  {
    if items != [] {
      SortedKeysAreOrdinary(items[0]);
      SortedItemsAreOrdinary(items[1..]);
    }
  }

  lemma {:induction false} SortedFieldsAreOrdinary(fields: seq<Field>)
    requires OrdinaryFields(fields)
    ensures OrdinaryFields(SortKeysBelow(fields)) && KeysOf(SortKeysBelow(fields)) == KeysOf(fields)
    decreases fields
  {
    if fields != [] {
      TailIsOrdinary(fields);
      assert fields[0].value < Dict(fields);
      SortedKeysAreOrdinary(fields[0].value);
      SortedFieldsAreOrdinary(fields[1..]);
      ConsKeepsOrdinary(Field(fields[0].key, SortKeys(fields[0].value)), SortKeysBelow(fields[1..]));
    }
  }

  /** Sorting the keys leaves every object the same mapping. */
  lemma {:induction false} SortKeysKeepsMapping(fields: seq<Field>, key: Str)
    requires OrdinaryFields(fields)
    ensures FieldOf(SortKeys(Dict(fields)).fields, key)
            == match FieldOf(fields, key) case Some(v) => Some(SortKeys(v)) case None => None
  {
    var below := SortKeysBelow(fields);
    var sorted := Sorting.Sort(BY_KEY, below);
    SortedFieldsAreOrdinary(fields);
    SortKeepsOrdinary(below);
    match FieldOf(fields, key)
    case None =>
    case Some(v) =>
      BelowHolds(fields, key);
      SortedLookup(below, Field(key, SortKeys(v)));
  }

  lemma SortedLookup(fields: seq<Field>, field: Field)
    requires OrdinaryFields(fields) && field in fields
    ensures FieldOf(Sorting.Sort(BY_KEY, fields), field.key) == Some(field.value)
  {
    var sorted := Sorting.Sort(BY_KEY, fields);
    SortKeepsOrdinary(fields);
    Sorting.SortPermutes(BY_KEY, fields);
    Sorting.MultisetMembers(sorted, fields);
    var i :| 0 <= i < |sorted| && sorted[i] == field;
    FieldAt(sorted, i);
  }

  lemma {:induction false} BelowHolds(fields: seq<Field>, key: Str)
    requires OrdinaryFields(fields) && key in KeysOf(fields)
    ensures Field(key, SortKeys(FieldOf(fields, key).value)) in SortKeysBelow(fields)
  {
    TailIsOrdinary(fields);
    if key == fields[0].key {
      FieldAt(fields, 0);
    } else {
      BelowHolds(fields[1..], key);
      assert fields[1..] != [];
      var i :| 0 <= i < |fields[1..]| && fields[1..][i].key == key;
      FieldAt(fields[1..], i);
      FieldAt(fields, i + 1);
    }
  }

  /** Less at the first place where they differ, or shorter. */
  predicate Below(a: seq<int>, b: seq<int>) {
    exists k :: 0 <= k <= |a| && k < |b| && a[..k] == b[..k] && (k == |a| || a[k] < b[k])
  }

  lemma {:induction false} LeqIsBelow(a: seq<int>, b: seq<int>)
    ensures PointsLeq(a, b) <==> a == b || Below(a, b)
  {
    if a != [] && b != [] {
      LeqIsBelow(a[1..], b[1..]);
      assert a == [a[0]] + a[1..] && b == [b[0]] + b[1..];
      if Below(a[1..], b[1..]) && a[0] == b[0] {
        var k :| 0 <= k <= |a[1..]| && k < |b[1..]| && a[1..][..k] == b[1..][..k] && (k == |a[1..]| || a[1..][k] < b[1..][k]);
        assert a[..k + 1] == [a[0]] + a[1..][..k] && b[..k + 1] == [b[0]] + b[1..][..k];
      }
      if Below(a, b) {
        var k :| 0 <= k <= |a| && k < |b| && a[..k] == b[..k] && (k == |a| || a[k] < b[k]);
        if k > 0 {
          assert a[..k][0] == b[..k][0] && a[..k][1..] == b[..k][1..];
          assert a[1..][..k - 1] == a[..k][1..] && b[1..][..k - 1] == b[..k][1..];
        }
      }
    } else if a == [] && b != [] {
      assert a[..0] == b[..0];
    }
  }

  lemma {:induction false} LeqIsTotal(a: seq<int>, b: seq<int>, c: seq<int>)
    ensures PointsLeq(a, b) || PointsLeq(b, a)
    ensures PointsLeq(a, b) && PointsLeq(b, c) ==> PointsLeq(a, c)
  {
    if a != [] && b != [] {
      LeqIsTotal(a[1..], b[1..], if c == [] then [] else c[1..]);
    }
  }

  /** The keys of an object are printed in the order of their code points. */
  lemma KeysAscend(fields: seq<Field>, i: nat, j: nat)
    requires i < j < |SortKeys(Dict(fields)).fields|
    ensures var sorted := SortKeys(Dict(fields)).fields;
            Points(sorted[i].key) == Points(sorted[j].key) || Below(Points(sorted[i].key), Points(sorted[j].key))
  {
    forall x, y, z ensures (BY_KEY(x, y) || BY_KEY(y, x)) && (BY_KEY(x, y) && BY_KEY(y, z) ==> BY_KEY(x, z)) {
      LeqIsTotal(Points(x.key), Points(y.key), Points(z.key));
    }
    Sorting.SortSorts(BY_KEY, SortKeysBelow(fields));
    var sorted := SortKeys(Dict(fields)).fields;
    assert BY_KEY(sorted[i], sorted[j]);
    LeqIsBelow(Points(sorted[i].key), Points(sorted[j].key));
  }

  /** Sorting the keys changes no text. */
  lemma {:induction false} SortedKeysAreEncodable(v: Json)
    requires Encodable(v)
    ensures Encodable(SortKeys(v))
    decreases v
  {
    match v
    case List(items) => SortedItemsAreEncodable(items);
    case Dict(fields) =>
      SortedFieldsAreEncodable(fields);
      var below := SortKeysBelow(fields);
      var sorted := Sorting.Sort(BY_KEY, below);
      Sorting.SortPermutes(BY_KEY, below);
      Sorting.MultisetMembers(sorted, below);
      forall i | 0 <= i < |sorted| ensures sorted[i].key.Plain? && Encodable(sorted[i].value) {
        assert sorted[i] in sorted;
        var j :| 0 <= j < |below| && below[j] == sorted[i];
      }
    case _ =>
  }

  lemma {:induction false} SortedItemsAreEncodable(items: seq<Json>)
    requires forall i :: 0 <= i < |items| ==> Encodable(items[i])
    ensures forall i :: 0 <= i < |items| ==> Encodable(SortKeysOfAll(items)[i])
    decreases items
  {
    if items != [] {
      SortedKeysAreEncodable(items[0]);
      SortedItemsAreEncodable(items[1..]);
    }
  }

  lemma {:induction false} SortedFieldsAreEncodable(fields: seq<Field>)
    requires Encodable(Dict(fields))
    ensures Encodable(Dict(SortKeysBelow(fields)))
    decreases fields
  {
    if fields != [] {
      assert fields[0].value < Dict(fields);
      assert Encodable(fields[0].value);
      SortedKeysAreEncodable(fields[0].value);
      SortedFieldsAreEncodable(fields[1..]);
    }
  }

  // ----- a text that goes on

  lemma {:induction false} SpaceEnds(s: string, tail: string)
    requires SkipSpace(s) != ""
    ensures SkipSpace(s + tail) == SkipSpace(s) + tail
  {
    if Space(s[0]) {
      assert (s + tail)[1..] == s[1..] + tail;
      SpaceEnds(s[1..], tail);
    }
  }

  lemma {:induction false} StringEnds(s: string, escaped: bool, tail: string)
    requires ScanString(s, escaped).Scanned?
    ensures var r := ScanString(s, escaped); ScanString(s + tail, escaped) == Scanned(r.raw, r.rest + tail)
  {
    assert (s + tail)[1..] == s[1..] + tail;
    if !(s[0] == '"' && !escaped) {
      StringEnds(s[1..], s[0] == '\\' && !escaped, tail);
    }
  }

  lemma StringAtEnds(loads: Loads, s: string, tail: string)
    requires StringAt(loads, s).Parsed?
    ensures var r := StringAt(loads, s); StringAt(loads, s + tail) == Parsed(r.value, r.rest + tail)
  {
    assert (s + tail)[1..] == s[1..] + tail;
    StringEnds(s[1..], false, tail);
  }

  lemma {:induction false} TokenEnds(s: string, tail: string)
    requires s[|ScalarToken(s)|..] != ""
    ensures ScalarToken(s + tail) == ScalarToken(s)
    ensures (s + tail)[|ScalarToken(s)|..] == s[|ScalarToken(s)|..] + tail
  {
    if !EndsScalar(s[0]) {
      assert (s + tail)[1..] == s[1..] + tail;
      TokenEnds(s[1..], tail);
    }
  }

  lemma OpeningEnds(s: string, close: char, tail: string)
    requires OpeningAt(s, close) != Filled("")
    ensures OpeningAt(s + tail, close) == match OpeningAt(s, close)
                                          case Empty(rest) => Empty(rest + tail)
                                          case Filled(rest) => Filled(rest + tail)
  {
    SpaceEnds(s, tail);
    var u := SkipSpace(s);
    assert (u + tail)[1..] == u[1..] + tail;
  }

  lemma DelimiterEnds<T>(value: T, s: string, close: char, tail: string)
    requires Delimited(value, s, close).Entry?
    ensures s != ""
    ensures var e := Delimited(value, s, close); Delimited(value, s + tail, close) == e.(rest := e.rest + tail)
  {
    SpaceEnds(s, tail);
    var u := SkipSpace(s);
    assert (u + tail)[1..] == u[1..] + tail;
  }

  lemma KeyEnds(loads: Loads, s: string, seen: set<Str>, tail: string)
    requires KeyAt(loads, s, seen).Parsed?
    ensures var k := KeyAt(loads, s, seen); KeyAt(loads, s + tail, seen) == Parsed(k.value, k.rest + tail)
  {
    SpaceEnds(s, tail);
    StringAtEnds(loads, SkipSpace(s), tail);
    var t := StringAt(loads, SkipSpace(s)).rest;
    SpaceEnds(t, tail);
    assert (SkipSpace(t) + tail)[1..] == SkipSpace(t)[1..] + tail;
  }

  /** A value that has ended is read the same however the text goes on. */
  lemma {:induction false} ValueEnds(loads: Loads, s: string, tail: string)
    requires Value(loads, s).Parsed? && (Value(loads, s).value.Scalar? ==> Value(loads, s).rest != "")
    ensures var r := Value(loads, s); Value(loads, s + tail) == Parsed(r.value, r.rest + tail)
    decreases |s|, 1
  {
    SpaceEnds(s, tail);
    var t := SkipSpace(s);
    assert (t + tail)[1..] == t[1..] + tail;
    if t[0] == '{' {
      OpeningEnds(t[1..], '}', tail);
      if OpeningAt(t[1..], '}').Filled? {
        MembersEnd(loads, OpeningAt(t[1..], '}').rest, [], tail);
      }
    } else if t[0] == '[' {
      OpeningEnds(t[1..], ']', tail);
      if OpeningAt(t[1..], ']').Filled? {
        ElementsEnd(loads, OpeningAt(t[1..], ']').rest, [], tail);
      }
    } else if t[0] == '"' {
      StringAtEnds(loads, t, tail);
    } else {
      TokenEnds(t, tail);
    }
  }

  lemma {:induction false} MembersEnd(loads: Loads, s: string, fields: seq<Field>, tail: string)
    requires Members(loads, s, fields).Parsed?
    ensures var r := Members(loads, s, fields); Members(loads, s + tail, fields) == Parsed(r.value, r.rest + tail)
    decreases |s|, 0
  {
    var seen := KeysOf(fields);
    KeyEnds(loads, s, seen, tail);
    var key := KeyAt(loads, s, seen);
    var v := Value(loads, key.rest);
    DelimiterEnds(Field(key.value, v.value), v.rest, '}', tail);
    ValueEnds(loads, key.rest, tail);
    var entry := MemberAt(loads, s, seen);
    if !entry.last {
      MembersEnd(loads, entry.rest, fields + [entry.value], tail);
    }
  }

  lemma {:induction false} ElementsEnd(loads: Loads, s: string, items: seq<Json>, tail: string)
    requires Elements(loads, s, items).Parsed?
    ensures var r := Elements(loads, s, items); Elements(loads, s + tail, items) == Parsed(r.value, r.rest + tail)
    decreases |s|, 2
  {
    var v := Value(loads, s);
    DelimiterEnds(v.value, v.rest, ']', tail);
    ValueEnds(loads, s, tail);
    var entry := ElementAt(loads, s);
    if !entry.last {
      ElementsEnd(loads, entry.rest, items + [entry.value], tail);
    }
  }
}
