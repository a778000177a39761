/**
 * The spooling parser of the portable importer
 * (src/ah_there_it_is/portable_stream.py:115-254): recursive descent over the
 * incremental reader, moving the four record arrays to disk as they are read.
 * For every chunk size it refines the ordinary parser of PortableJson on what
 * the reader delivers.
 */
module PortableParser {
  import opened Prelude
  import opened Utf8
  import opened ChunkedText
  import opened PortableJson
  import opened PortableSpools

  datatype Outcome<+T> = Ok(value: T) | Failed {
    predicate IsFailure() {
      Failed?
    }

    function PropagateFailure<U>(): Outcome<U>
      requires Failed?
    {
      Failed
    }

    function Extract(): T
      requires Ok?
    {
      value
    }
  }

  /** `PortableInputWorkspace`: one file of records per section, opened by its first record. */
  class Workspace {
    var files: map<Section, seq<Json>>
    var counts: map<Section, nat>
    ghost var log: seq<Record>

    function RecordsOf(section: Section): seq<Json>
      reads this
    {
      if section in files then files[section] else []
    }

    ghost predicate Valid()
      reads this
    {
      forall section: Section :: RecordsOf(section) == Filed(log, section)
                                 && section in counts && counts[section] == |RecordsOf(section)|
    }

    constructor ()
      ensures Valid() && log == []
    {
      files, log := map[], [];
      counts := map[Categories := 0, Locations := 0, Items := 0, Events := 0];
      new;
      forall section: Section ensures section in counts && counts[section] == 0 {
        match section case Categories => case Locations => case Items => case Events =>
      }
    }

    /** `append` returns the record's index in its file; a record that UTF-8 cannot hold makes the write raise. */
    method Append(section: Section, value: Json) returns (r: Outcome<nat>)
      requires Valid()
      modifies this
      ensures r.Ok? <==> Encodable(value)
      ensures r.Ok? ==> Valid() && log == old(log) + [Record(section, value)]
      ensures r.Ok? ==> r.value == |old(RecordsOf(section))|
    {
      if section !in files {
        files := files[section := []];
      }
      if !Encodable(value) {
        return Failed;
      }
      files := files[section := files[section] + [value]];
      var index := counts[section];
      counts := counts[section := index + 1];
      log := log + [Record(section, value)];
      assert log[..|log| - 1] == old(log);
      forall other: Section
        ensures RecordsOf(other) == Filed(log, other) && other in counts && counts[other] == |RecordsOf(other)|
      {
        assert old(RecordsOf(other)) == Filed(old(log), other) && other in old(counts);
        assert Filed(log, other) == Filed(old(log), other) + if section == other then [value] else [];
      }
      return Ok(index);
    }
  }

  lemma OneMoreWritable(section: Section, items: seq<Json>, value: Json)
    requires Writable(Records(section, items)) && Encodable(value)
    ensures Writable(Records(section, items + [value]))
  {
    assert (items + [value])[..|items|] == items;
  }

  /** A scan continued behind characters already taken. */
  function Behind(raw: string, scan: Scan): Scan {
    match scan
    case Scanned(more, rest) => Scanned(raw + more, rest)
    case Unterminated => Unterminated
  }

  lemma ScanStep(raw: string, s: string, escaped: bool)
    requires s != ""
    ensures Behind(raw, ScanString(s, escaped))
            == if s[0] == '"' && !escaped then Scanned(raw + [s[0]], s[1..])
               else Behind(raw + [s[0]], ScanString(s[1..], s[0] == '\\' && !escaped))
  {
    match ScanString(s[1..], s[0] == '\\' && !escaped)
    case Scanned(more, rest) => assert raw + ([s[0]] + more) == (raw + [s[0]]) + more;
    case Unterminated =>
  }

  lemma TokenStep(token: string, s: string)
    requires s != "" && !EndsScalar(s[0])
    ensures token + ScalarToken(s) == (token + [s[0]]) + ScalarToken(s[1..])
    ensures s[|ScalarToken(s)|..] == s[1..][|ScalarToken(s[1..])|..]
  {
  }

  lemma OneMoreField(log: seq<Record>, path: Path, fields: seq<Field>, field: Field)
    ensures StripFields(path, fields + [field])
            == StripFields(path, fields) + [Field(field.key, Strip(path + [field.key], field.value))]
    ensures (log + SpoolFields(path, fields)) + Spool(path + [field.key], field.value)
            == log + SpoolFields(path, fields + [field])
    ensures KeysOf(fields + [field]) == KeysOf(fields) + {field.key}
  {
    assert (fields + [field])[..|fields|] == fields;
  }

  lemma SpooledArray(section: Section, items: seq<Json>)
    ensures Strip(SpoolPath(section), List(items)) == Marker(section)
    ensures Spool(SpoolPath(section), List(items)) == Records(section, items)
  {
    assert SectionAt(SpoolPath(section)) == Some(section);
  }

  lemma OneMoreRecord(log: seq<Record>, section: Section, items: seq<Json>, value: Json)
    ensures (log + Records(section, items)) + [Record(section, value)] == log + Records(section, items + [value])
  {
    assert (items + [value])[..|items|] == items;
  }

  lemma WritableAppend(a: seq<Record>, b: seq<Record>)
    ensures Writable(a + b) <==> Writable(a) && Writable(b)
  {
    if Writable(a + b) {
      forall i | 0 <= i < |a| ensures Encodable(a[i].value) {
        assert (a + b)[i] == a[i];
      }
      forall i | 0 <= i < |b| ensures Encodable(b[i].value) {
        assert (a + b)[|a| + i] == b[i];
      }
    }
  }

  /** A field that the ordinary parser finds is spooled with all the others. */
  lemma FieldIsSpooled(loads: Loads, s: string, path: Path, fields: seq<Field>)
    requires Members(loads, s, fields).Parsed? && Writable(SpoolFields(path, Members(loads, s, fields).value.fields))
    ensures var m := MemberAt(loads, s, KeysOf(fields));
            m.Entry? && Writable(Spool(path + [m.value.key], m.value.value))
  {
    var m := MemberAt(loads, s, KeysOf(fields));
    var whole := Members(loads, s, fields).value.fields;
    MembersOnlyAdd(loads, s, fields);
    SpoolFieldsPrefix(path, fields + [m.value], whole);
    assert (fields + [m.value])[..|fields|] == fields;
    WritableAppend(SpoolFields(path, fields), Spool(path + [m.value.key], m.value.value));
    assert Writable(SpoolFields(path, fields + [m.value]));
  }

  lemma RecordIsSpooled(loads: Loads, s: string, section: Section, items: seq<Json>)
    requires Elements(loads, s, items).Parsed? && Writable(Records(section, Elements(loads, s, items).value.items))
    ensures ElementAt(loads, s).Entry? && Encodable(ElementAt(loads, s).value)
  {
    ElementsOnlyAdd(loads, s, items);
    RecordsAt(section, Elements(loads, s, items).value.items, |items|);
  }

  // ----- how far the reader has come

  /** The reader stands before `rest`, having looked one character further: at a break it is behind the first "". */
  ghost predicate Reached(before: View, rest: string, after: View, size: nat) {
    if rest == "" && before.tail.Gap? then Crossed(View("", before.tail), after, size) else after == before.(chars := rest)
  }

  /** Nothing that a document could go on with is next. */
  ghost predicate Lost(v: View, size: nat) {
    v.chars == "" || Foreign(v, size)
  }

  lemma ScalarTokenStarts(s: string)
    requires s != "" && !EndsScalar(s[0])
    ensures ScalarToken(s) != "" && ScalarToken(s)[0] == s[0]
  {
  }

  lemma NoSuchScalar(loads: Loads, token: string)
    requires AsciiScalars(loads) && token != "" && token[0] as int >= 0x80
    ensures !loads(token).LoadedAtom?
  {
    var first := token[0];
  }

  lemma LostIsRefused(loads: Loads, v: View, size: nat)
    requires Lost(v, size) && (size < 4 ==> AsciiScalars(loads))
    ensures Value(loads, v.chars).Refused? && SkipSpace(v.chars) == v.chars
    ensures v.chars != "" ==> ScalarAt(loads, v.chars).Refused?
    ensures Members(loads, v.chars, []).Refused? && Elements(loads, v.chars, []).Refused?
    ensures DelimiterAt(v.chars, '}').Missing? && DelimiterAt(v.chars, ']').Missing?
  {
    if v.chars != "" {
      ScalarTokenStarts(v.chars);
      NoSuchScalar(loads, ScalarToken(v.chars));
    }
  }

  lemma ObjectAt(loads: Loads, s: string)
    requires Starts(s, '{')
    ensures Value(loads, s) == match OpeningAt(s[1..], '}')
                               case Empty(rest) => Parsed.Parsed(Dict([]), rest)
                               case Filled(rest) => Members(loads, rest, [])
  {
  }

  lemma ArrayAt(loads: Loads, s: string)
    requires Starts(s, '[')
    ensures Value(loads, s) == match OpeningAt(s[1..], ']')
                               case Empty(rest) => Parsed.Parsed(List([]), rest)
                               case Filled(rest) => Elements(loads, rest, [])
  {
  }

  lemma SpaceFirst(loads: Loads, s: string)
    ensures Value(loads, s) == Value(loads, SkipSpace(s))
    ensures SkipSpace(s) == "" ==> Value(loads, s).Refused?
  {
    SkippedSpace(s);
  }

  lemma {:induction false} SkippedSpace(s: string)
    ensures SkipSpace(SkipSpace(s)) == SkipSpace(s)
  {
    if s != "" && Space(s[0]) {
      SkippedSpace(s[1..]);
    }
  }

  lemma NoSpaceNow(before: View, after: View, c: char, size: nat)
    requires Reached(before, SkipSpace(before.chars), after, size) && Starts(after.chars, c)
    ensures !Space(c)
  {
  }

  /**
   * What reading one value does: success exactly advances the reader past the value the
   * ordinary parser finds in what is delivered, keeps its stripped form and spools its records,
   * which can all be written; failure means that the ordinary parser refuses too, that a record
   * cannot be written, or that the bytes after what is delivered are not UTF-8.
   */
  ghost predicate Refines(path: Path, ordinary: Parsed<Json>, before: View, logBefore: seq<Record>,
                          r: Outcome<Json>, after: View, logAfter: seq<Record>, size: nat)
  {
    match r
    case Ok(value) =>
      && ordinary.Parsed? && Writable(Spool(path, ordinary.value))
      && (if ordinary.value.Scalar? then Reached(before, ordinary.rest, after, size) else after == before.(chars := ordinary.rest))
      && value == Strip(path, ordinary.value)
      && logAfter == logBefore + Spool(path, ordinary.value)
    case Failed => ordinary.Refused? || before.tail.Undecodable? || !Writable(Spool(path, ordinary.value))
  }

  /** How many answers of "" end a document: one for white space and one for the end, one more behind a bare scalar. */
  function Needed(loads: Loads, s: string): nat {
    match Value(loads, s)
    case Parsed(Scalar(_), "") => 3
    case _ => 2
  }

  /** Whether the parser accepts what a reader delivers. */
  predicate Accepts(loads: Loads, v: View) {
    match ParseDocument(loads, v.chars)
    case Invalid => false
    case Document(value) =>
      && Writable(Spool([], value))
      && match v.tail
         case Finished => true
         case Undecodable => false
         case Gap(more) => 1 + more >= Needed(loads, v.chars)
  }

  class Parser {
    const loads: Loads
    const reader: Reader
    const workspace: Workspace

    ghost predicate Valid()
      reads this, reader, workspace
    {
      reader.Valid() && workspace.Valid() && (reader.chunkSize < 4 ==> AsciiScalars(loads))
    }

    constructor (loads: Loads, reader: Reader, workspace: Workspace)
      ensures this.loads == loads && this.reader == reader && this.workspace == workspace
    {
      this.loads, this.reader, this.workspace := loads, reader, workspace;
    }

    /** `_whitespace`. */
    method SkipWhitespace() returns (r: Outcome<()>)
      requires Valid()
      modifies reader
      ensures r.Ok? ==> Valid() && Reached(old(reader.view), SkipSpace(old(reader.view).chars), reader.view, reader.chunkSize)
                        && reader.Fuel() <= old(reader.Fuel())
      ensures r.Failed? ==> SkipSpace(old(reader.view).chars) == "" && old(reader.view).tail.Undecodable?
    {
      while true
        invariant Valid() && reader.Fuel() <= old(reader.Fuel())
        invariant reader.view == old(reader.view).(chars := reader.view.chars)
        invariant SkipSpace(reader.view.chars) == SkipSpace(old(reader.view).chars)
        decreases reader.Fuel()
      {
        var next := reader.Peek();
        match next
        case Broken => return Failed;
        case End => return Ok(());
        case Got(c) =>
          if !Space(c) {
            return Ok(());
          }
          var _ := reader.Take();
      }
    }

    /** `_expect`. */
    method Expect(expected: char) returns (r: Outcome<()>)
      requires Valid()
      modifies reader
      ensures r.Ok? <==> Starts(old(reader.view).chars, expected)
      ensures r.Ok? ==> Valid() && reader.view == old(reader.view).(chars := old(reader.view).chars[1..])
                        && reader.Fuel() < old(reader.Fuel())
    {
      var taken := reader.Take();
      return if taken == Got(expected) then Ok(()) else Failed;
    }

    /** `_string`: the raw characters up to the first unescaped quote, given to `json.loads`. */
    method ParseString() returns (r: Outcome<Str>)
      requires Valid()
      modifies reader
      ensures r.Ok? ==> var s := StringAt(loads, old(reader.view).chars);
                        && Valid() && s.Parsed? && s.value == r.value
                        && reader.view == old(reader.view).(chars := s.rest) && reader.Fuel() < old(reader.Fuel())
      ensures r.Failed? ==> StringAt(loads, old(reader.view).chars).Refused?
    {
      var _ :- Expect('"');
      var raw := "";
      var escaped := false;
      ghost var body := reader.view.chars;
      while true
        invariant Valid() && reader.Fuel() < old(reader.Fuel())
        invariant reader.view == old(reader.view).(chars := reader.view.chars)
        invariant Behind(raw, ScanString(reader.view.chars, escaped)) == ScanString(body, false)
        decreases reader.Fuel()
      {
        ghost var ahead := reader.view.chars;
        var next := reader.Take();
        if !next.Got? {
          return Failed;
        }
        ScanStep(raw, ahead, escaped);
        raw := raw + [next.c];
        if next.c == '"' && !escaped {
          break;
        }
        escaped := next.c == '\\' && !escaped;
      }
      match loads("\"" + raw)
      case LoadedText(text) => return Ok(text);
      case _ => return Failed;
    }

    /** `_scalar`: the characters up to a delimiter, given to `json.loads`. */
    method ParseScalar() returns (r: Outcome<Json>)
      requires Valid()
      modifies reader
      ensures r.Ok? ==> var s := ScalarAt(loads, old(reader.view).chars);
                        && Valid() && s.Parsed? && s.value == r.value && r.value.Scalar?
                        && Reached(old(reader.view), s.rest, reader.view, reader.chunkSize) && reader.Fuel() <= old(reader.Fuel())
      ensures r.Failed? ==> ScalarAt(loads, old(reader.view).chars).Refused? || old(reader.view).tail.Undecodable?
    {
      var token := "";
      ghost var rest := reader.view.chars;
      while true
        invariant Valid() && reader.Fuel() <= old(reader.Fuel())
        invariant reader.view == old(reader.view).(chars := rest)
        invariant token + ScalarToken(rest) == ScalarToken(old(reader.view).chars)
        invariant rest[|ScalarToken(rest)|..] == old(reader.view).chars[|ScalarToken(old(reader.view).chars)|..]
        decreases reader.Fuel()
      {
        var next := reader.Peek();
        if next.Broken? {
          return Failed;
        }
        if next.End? || EndsScalar(next.c) {
          break;
        }
        TokenStep(token, rest);
        var _ := reader.Take();
        token := token + [next.c];
        rest := rest[1..];
      }
      assert token == token + ScalarToken(rest);
      match loads(token)
      case LoadedAtom(atom) => return Ok(Json.Scalar(atom));
      case _ => return Failed;
    }

    /** After an opening bracket: whether the closing one follows at once. */
    method Opening(close: char) returns (r: Outcome<bool>)
      requires Valid() && close as int < 0x80
      modifies reader
      ensures r.Ok? ==> var s := OpeningAt(old(reader.view).chars, close);
                        && Valid() && r.value == s.Empty? && reader.Fuel() <= old(reader.Fuel())
                        && if s == Filled("") then NothingFollows() else reader.view == old(reader.view).(chars := s.rest)
      ensures r.Failed? ==> OpeningAt(old(reader.view).chars, close) == Filled("")
    {
      var _ :- SkipWhitespace();
      var next := reader.Peek();
      if next.Broken? {
        return Failed;
      }
      if next == Got(close) {
        var _ := reader.Take();
        return Ok(true);
      }
      if Lost(reader.view, reader.chunkSize) {
        LostIsRefused(loads, reader.view, reader.chunkSize);
      }
      return Ok(false);
    }

    /** No member and no element can come next. */
    ghost predicate NothingFollows()
      reads reader
    {
      Members(loads, reader.view.chars, []).Refused? && Elements(loads, reader.view.chars, []).Refused?
    }

    /** An opening bracket that has been seen, and whether the closing one follows at once. */
    method Open(open: char, close: char) returns (r: Outcome<bool>)
      requires Valid() && Starts(reader.view.chars, open) && close as int < 0x80
      modifies reader
      ensures r.Ok? ==> var s := OpeningAt(old(reader.view).chars[1..], close);
                        && Valid() && r.value == s.Empty? && reader.Fuel() < old(reader.Fuel())
                        && if s == Filled("") then NothingFollows() else reader.view == old(reader.view).(chars := s.rest)
      ensures r.Failed? ==> OpeningAt(old(reader.view).chars[1..], close) == Filled("")
    {
      var seen := Expect(open);
      assert seen.Ok?;
      r := Opening(close);
    }

    /** After an element: whether the bracket closes. */
    method Delimiter(close: char) returns (r: Outcome<bool>)
      requires Valid() && close as int < 0x80
      modifies reader
      ensures r.Ok? <==> !DelimiterAt(old(reader.view).chars, close).Missing?
      ensures r.Ok? ==> var s := DelimiterAt(old(reader.view).chars, close);
                        && Valid() && r.value == s.Closed?
                        && reader.view == old(reader.view).(chars := s.rest) && reader.Fuel() < old(reader.Fuel())
    {
      var _ :- SkipWhitespace();
      var taken := reader.Take();
      if taken == Got(close) {
        return Ok(true);
      }
      return if taken == Got(',') then Ok(false) else Failed;
    }

    /** A key, its duplicate check and its colon. */
    method ParseKey(seen: set<Str>) returns (r: Outcome<Str>)
      requires Valid()
      modifies reader
      ensures r.Ok? ==> var s := KeyAt(loads, old(reader.view).chars, seen);
                        && Valid() && s.Parsed? && s.value == r.value
                        && reader.view == old(reader.view).(chars := s.rest) && reader.Fuel() < old(reader.Fuel())
      ensures r.Failed? ==> KeyAt(loads, old(reader.view).chars, seen).Refused?
    {
      var _ :- SkipWhitespace();
      var next := reader.Peek();
      if next != Got('"') {
        return Failed;
      }
      var key :- ParseString();
      if key in seen {
        return Failed;
      }
      var _ :- SkipWhitespace();
      var _ :- Expect(':');
      return Ok(key);
    }

    /** `_value`. */
    method ParseValue(path: Path) returns (r: Outcome<Json>)
      requires Valid()
      modifies reader, workspace
      ensures r.Ok? ==> Valid() && reader.Fuel() <= old(reader.Fuel())
      ensures Refines(path, Value(loads, old(reader.view).chars), old(reader.view), old(workspace.log),
                      r, reader.view, workspace.log, reader.chunkSize)
      decreases reader.Fuel(), 2
    {
      ghost var before := reader.view;
      SpaceFirst(loads, before.chars);
      var _ :- SkipWhitespace();
      ghost var there := reader.view;
      if SkipSpace(before.chars) == "" {
        LostIsRefused(loads, there, reader.chunkSize);
      }
      var next := reader.Peek();
      match next
      case Broken => return Failed;
      case End => return Failed;
      case Got(c) =>
        NoSpaceNow(before, there, c, reader.chunkSize);
        r := Dispatch(path, c);
        if SkipSpace(before.chars) != "" {
          assert there == before.(chars := SkipSpace(before.chars));
        }
    }

    /** The branches of `_value` on the character that has been seen. */
    method Dispatch(path: Path, c: char) returns (r: Outcome<Json>)
      requires Valid() && Starts(reader.view.chars, c) && !Space(c)
      modifies reader, workspace
      ensures r.Ok? ==> Valid() && reader.Fuel() <= old(reader.Fuel())
      ensures Refines(path, Value(loads, old(reader.view).chars), old(reader.view), old(workspace.log),
                      r, reader.view, workspace.log, reader.chunkSize)
      decreases reader.Fuel(), 1
    {
      if c == '{' {
        r := ParseObject(path);
      } else if c == '[' {
        match SectionAt(path)
        case Some(section) => r := ParseSpooledArray(section, path);
        case None => r := ParseArray(path);
      } else {
        r := ParseLeaf(c);
        assert workspace.log == workspace.log + [];
      }
    }

    /** The branches of `_value` for strings and scalars. */
    method ParseLeaf(c: char) returns (r: Outcome<Json>)
      requires Valid() && Starts(reader.view.chars, c) && !Space(c) && c != '{' && c != '['
      modifies reader
      ensures r.Ok? ==> Valid() && reader.Fuel() <= old(reader.Fuel())
      ensures var ordinary := Value(loads, old(reader.view).chars);
              match r
              case Ok(value) =>
                && ordinary.Parsed? && ordinary.value == value && (value.Text? || value.Scalar?)
                && (if value.Scalar? then Reached(old(reader.view), ordinary.rest, reader.view, reader.chunkSize)
                    else reader.view == old(reader.view).(chars := ordinary.rest))
              case Failed => ordinary.Refused? || old(reader.view).tail.Undecodable?
    {
      if c == '"' {
        var text :- ParseString();
        return Ok(Json.Text(text));
      } else {
        r := ParseScalar();
      }
    }

    /** One round of the loop of `_object`. */
    method ParseMember(path: Path, seen: set<Str>) returns (r: Outcome<(Field, bool)>)
      requires Valid()
      modifies reader, workspace
      ensures r.Ok? ==> var m := MemberAt(loads, old(reader.view).chars, seen);
                        && Valid() && m.Entry? && r.value.1 == m.last
                        && r.value.0 == Field(m.value.key, Strip(path + [m.value.key], m.value.value))
                        && reader.view == old(reader.view).(chars := m.rest) && reader.Fuel() < old(reader.Fuel())
                        && workspace.log == old(workspace.log) + Spool(path + [m.value.key], m.value.value)
                        && Writable(Spool(path + [m.value.key], m.value.value))
      ensures r.Failed? ==> var m := MemberAt(loads, old(reader.view).chars, seen);
                            m.BadEntry? || old(reader.view).tail.Undecodable? || !Writable(Spool(path + [m.value.key], m.value.value))
      decreases reader.Fuel(), 0
    {
      var key :- ParseKey(seen);
      var value :- ParseValue(path + [key]);
      if Lost(reader.view, reader.chunkSize) {
        LostIsRefused(loads, reader.view, reader.chunkSize);
      }
      var closed :- Delimiter('}');
      return Ok((Field(key, value), closed));
    }

    /** A value below an index, of which nothing is spooled, and that its delimiter can still follow. */
    method ParseItem(path: Path) returns (r: Outcome<Json>)
      requires Valid() && Barren(path)
      modifies reader, workspace
      ensures r.Ok? ==> var v := Value(loads, old(reader.view).chars);
                        && Valid() && v.Parsed? && r.value == v.value && reader.Fuel() <= old(reader.Fuel())
                        && workspace.log == old(workspace.log)
                        && if DelimiterAt(v.rest, ']').Missing? then DelimiterAt(reader.view.chars, ']').Missing?
                           else reader.view == old(reader.view).(chars := v.rest)
      ensures r.Failed? ==> Value(loads, old(reader.view).chars).Refused? || old(reader.view).tail.Undecodable?
      decreases reader.Fuel(), 3
    {
      ghost var ordinary := Value(loads, reader.view.chars);
      if ordinary.Parsed? {
        NothingBelow(path, ordinary.value);
      }
      r := ParseValue(path);
      assert old(workspace.log) + [] == old(workspace.log);
      if r.Ok? && Lost(reader.view, reader.chunkSize) {
        LostIsRefused(loads, reader.view, reader.chunkSize);
      }
    }

    /** One round of the loop of `_array`. */
    method ParseElement(path: Path) returns (r: Outcome<(Json, bool)>)
      requires Valid() && Barren(path)
      modifies reader, workspace
      ensures r.Ok? ==> var e := ElementAt(loads, old(reader.view).chars);
                        && Valid() && e.Entry? && r.value == (e.value, e.last)
                        && reader.view == old(reader.view).(chars := e.rest) && reader.Fuel() < old(reader.Fuel())
                        && workspace.log == old(workspace.log)
      ensures r.Failed? ==> ElementAt(loads, old(reader.view).chars).BadEntry? || old(reader.view).tail.Undecodable?
      decreases reader.Fuel(), 4
    {
      var value :- ParseItem(path);
      var closed :- Delimiter(']');
      return Ok((value, closed));
    }

    /** `_object`. */
    method ParseObject(path: Path) returns (r: Outcome<Json>)
      requires Valid() && Starts(reader.view.chars, '{')
      modifies reader, workspace
      ensures r.Ok? ==> Valid() && reader.Fuel() <= old(reader.Fuel())
      ensures Refines(path, Value(loads, old(reader.view).chars), old(reader.view), old(workspace.log),
                      r, reader.view, workspace.log, reader.chunkSize)
      decreases reader.Fuel(), 0
    {
      ObjectAt(loads, reader.view.chars);
      var empty :- Open('{', '}');
      if empty {
        assert workspace.log == workspace.log + [];
        return Ok(Dict([]));
      }
      var fields :- ParseMembers(path);
      return Ok(Dict(fields));
    }

    /** The loop of `_object`. */
    method ParseMembers(path: Path) returns (r: Outcome<seq<Field>>)
      requires Valid()
      modifies reader, workspace
      ensures r.Ok? ==> var whole := Members(loads, old(reader.view).chars, []);
                        && Valid() && whole.Parsed? && r.value == StripFields(path, whole.value.fields)
                        && reader.view == old(reader.view).(chars := whole.rest) && reader.Fuel() <= old(reader.Fuel())
                        && workspace.log == old(workspace.log) + SpoolFields(path, whole.value.fields)
                        && Writable(SpoolFields(path, whole.value.fields))
      ensures r.Failed? ==> var whole := Members(loads, old(reader.view).chars, []);
                            whole.Refused? || old(reader.view).tail.Undecodable? || !Writable(SpoolFields(path, whole.value.fields))
      decreases reader.Fuel(), 1
    {
      var result: seq<Field> := [];
      var seen: set<Str> := {};
      ghost var full: seq<Field> := [];
      assert workspace.log == workspace.log + [];
      while true
        invariant Valid() && reader.view == old(reader.view).(chars := reader.view.chars)
        invariant reader.Fuel() <= old(reader.Fuel())
        invariant Members(loads, old(reader.view).chars, []) == Members(loads, reader.view.chars, full)
        invariant result == StripFields(path, full) && seen == KeysOf(full)
        invariant workspace.log == old(workspace.log) + SpoolFields(path, full)
        invariant Writable(SpoolFields(path, full))
        decreases reader.Fuel()
      {
        ghost var s := reader.view.chars;
        ghost var whole := Members(loads, s, full);
        if whole.Parsed? && Writable(SpoolFields(path, whole.value.fields)) {
          FieldIsSpooled(loads, s, path, full);
        }
        var entry :- ParseMember(path, seen);
        var (member, last) := entry;
        ghost var field := MemberAt(loads, s, seen).value;
        OneMoreField(old(workspace.log), path, full, field);
        OneMoreField([], path, full, field);
        WritableAppend(SpoolFields(path, full), Spool(path + [field.key], field.value));
        full := full + [field];
        seen := seen + {member.key};
        result := result + [member];
        if last {
          return Ok(result);
        }
      }
    }

    /** `_array`. */
    method ParseArray(path: Path) returns (r: Outcome<Json>)
      requires Valid() && Starts(reader.view.chars, '[') && SectionAt(path).None?
      modifies reader, workspace
      ensures r.Ok? ==> Valid() && reader.Fuel() <= old(reader.Fuel())
      ensures Refines(path, Value(loads, old(reader.view).chars), old(reader.view), old(workspace.log),
                      r, reader.view, workspace.log, reader.chunkSize)
      decreases reader.Fuel(), 0
    {
      ArrayAt(loads, reader.view.chars);
      var empty :- Open('[', ']');
      if empty {
        assert workspace.log == workspace.log + [];
        return Ok(List([]));
      }
      r := ParseElements(path);
    }

    /** The loop of `_array`. */
    method ParseElements(path: Path) returns (r: Outcome<Json>)
      requires Valid() && SectionAt(path).None?
      modifies reader, workspace
      ensures r.Ok? ==> Valid() && reader.Fuel() <= old(reader.Fuel())
      ensures Refines(path, Elements(loads, old(reader.view).chars, []), old(reader.view), old(workspace.log),
                      r, reader.view, workspace.log, reader.chunkSize)
      decreases reader.Fuel(), 5
    {
      var result: seq<Json> := [];
      assert workspace.log == workspace.log + [];
      while true
        invariant Valid() && reader.view == old(reader.view).(chars := reader.view.chars)
        invariant reader.Fuel() <= old(reader.Fuel())
        invariant Elements(loads, old(reader.view).chars, []) == Elements(loads, reader.view.chars, result)
        invariant workspace.log == old(workspace.log) == old(workspace.log) + []
        decreases reader.Fuel()
      {
        IndexIsBarren(path, |result|);
        var entry :- ParseElement(path + [Plain(Decimal(|result|))]);
        var (value, last) := entry;
        result := result + [value];
        if last {
          return Ok(List(result));
        }
      }
    }

    /** `_spooled_array`. */
    method ParseSpooledArray(section: Section, path: Path) returns (r: Outcome<Json>)
      requires Valid() && Starts(reader.view.chars, '[') && path == SpoolPath(section)
      modifies reader, workspace
      ensures r.Ok? ==> Valid() && reader.Fuel() <= old(reader.Fuel())
      ensures Refines(path, Value(loads, old(reader.view).chars), old(reader.view), old(workspace.log),
                      r, reader.view, workspace.log, reader.chunkSize)
      decreases reader.Fuel(), 0
    {
      ArrayAt(loads, reader.view.chars);
      var empty :- Open('[', ']');
      if empty {
        SpooledArray(section, []);
        assert workspace.log == workspace.log + [];
        return Ok(Marker(section));
      }
      ghost var whole := Elements(loads, reader.view.chars, []);
      if whole.Parsed? {
        SpooledArray(section, whole.value.items);
      }
      var _ :- ParseRecords(section, path);
      return Ok(Marker(section));
    }

    /** One round of the loop of `_spooled_array`: the record is written before its delimiter is read. */
    method ParseRecord(section: Section, path: Path) returns (r: Outcome<(Json, bool)>)
      requires Valid() && |path| == 2
      modifies reader, workspace
      ensures r.Ok? ==> var e := ElementAt(loads, old(reader.view).chars);
                        && Valid() && e.Entry? && r.value == (e.value, e.last) && Encodable(e.value)
                        && reader.view == old(reader.view).(chars := e.rest) && reader.Fuel() < old(reader.Fuel())
                        && workspace.log == old(workspace.log) + [Record(section, e.value)]
      ensures r.Failed? ==> var e := ElementAt(loads, old(reader.view).chars);
                            e.BadEntry? || old(reader.view).tail.Undecodable? || !Encodable(e.value)
      decreases reader.Fuel(), 4
    {
      var value :- ParseItem(path + [Plain(Decimal(workspace.counts[section]))]);
      var _ :- workspace.Append(section, value);
      var closed :- Delimiter(']');
      return Ok((value, closed));
    }

    /** The loop of `_spooled_array`. */
    method ParseRecords(section: Section, path: Path) returns (r: Outcome<()>)
      requires Valid() && |path| == 2
      modifies reader, workspace
      ensures r.Ok? ==> var whole := Elements(loads, old(reader.view).chars, []);
                        && Valid() && whole.Parsed?
                        && reader.view == old(reader.view).(chars := whole.rest) && reader.Fuel() <= old(reader.Fuel())
                        && workspace.log == old(workspace.log) + Records(section, whole.value.items)
                        && Writable(Records(section, whole.value.items))
      ensures r.Failed? ==> var whole := Elements(loads, old(reader.view).chars, []);
                            whole.Refused? || old(reader.view).tail.Undecodable? || !Writable(Records(section, whole.value.items))
      decreases reader.Fuel(), 5
    {
      ghost var items: seq<Json> := [];
      assert workspace.log == workspace.log + Records(section, items);
      while true
        invariant Valid() && reader.view == old(reader.view).(chars := reader.view.chars)
        invariant reader.Fuel() <= old(reader.Fuel())
        invariant Elements(loads, old(reader.view).chars, []) == Elements(loads, reader.view.chars, items)
        invariant workspace.log == old(workspace.log) + Records(section, items)
        invariant Writable(Records(section, items))
        decreases reader.Fuel()
      {
        ghost var s := reader.view.chars;
        ghost var whole := Elements(loads, s, items);
        if whole.Parsed? && Writable(Records(section, whole.value.items)) {
          RecordIsSpooled(loads, s, section, items);
        }
        var entry :- ParseRecord(section, path);
        var (value, last) := entry;
        OneMoreRecord(old(workspace.log), section, items, value);
        OneMoreWritable(section, items, value);
        items := items + [value];
        if last {
          assert Elements(loads, old(reader.view).chars, []).value.items == items;
          return Ok(());
        }
      }
    }

    /** `parse`: one value, white space, and the end of the input, or what looks like it. */
    method Parse() returns (r: Outcome<Json>)
      requires Valid()
      modifies reader, workspace
      ensures r.Ok? <==> Accepts(loads, old(reader.view))
      ensures r.Ok? ==> var document := ParseDocument(loads, old(reader.view).chars);
                        && Valid() && r.value == Strip([], document.value)
                        && workspace.log == old(workspace.log) + Spool([], document.value)
    {
      var value :- ParseValue([]);
      var _ :- SkipWhitespace();
      var next := reader.Peek();
      return if next.End? then Ok(value) else Failed;
    }
  }

  /** A document that was read: its structure with markers, and the four files that hold its arrays. */
  ghost predicate Reads(workspace: Workspace, structure: Json, v: Json)
    reads workspace
  {
    && workspace.Valid() && structure == Strip([], v)
    && (forall section :: workspace.RecordsOf(section) == SectionItems(v, section))
    && Restore(structure, section => SectionItems(v, section)) == v
  }

  /**
   * `read_portable_workspace`.  For every chunk size the outcome is decided by what the reader
   * delivers.  With chunks of three bytes and more, exactly the valid UTF-8 files are accepted of
   * which every chunk completes a character, that hold a document for the ordinary parser, and of
   * which every record can be written; with four and more the chunks do not matter.  The files then
   * hold exactly the four arrays, counted, and putting them back restores the ordinary value.
   */
  method ReadPortableWorkspace(loads: Loads, file: seq<Byte>, chunkSize: nat) returns (r: Outcome<Json>, workspace: Workspace)
    requires chunkSize >= 1 && (chunkSize < 4 ==> AsciiScalars(loads))
    ensures r.Ok? <==> Accepts(loads, Delivered(file, chunkSize))
    ensures chunkSize >= 3 ==> (r.Ok? <==> ValidUtf8(file) && EveryChunkCompletes(file, chunkSize) && Holds(loads, Decode(file).chars))
    ensures chunkSize >= 4 ==> (r.Ok? <==> ValidUtf8(file) && Holds(loads, Decode(file).chars))
    ensures r.Ok? ==> Reads(workspace, r.value, ParseDocument(loads, Delivered(file, chunkSize).chars).value)
    ensures ValidUtf8(file) && EveryChunkCompletes(file, chunkSize) ==>
      (r.Ok? <==> Holds(loads, Decode(file).chars)) && Delivered(file, chunkSize).chars == Decode(file).chars
  {
    workspace := new Workspace();
    var reader := new Reader(file, chunkSize);
    var parser := new Parser(loads, reader, workspace);
    AcceptedFiles(loads, file, chunkSize);
    r := parser.Parse();
    if r.Ok? {
      ghost var text := Delivered(file, chunkSize).chars;
      ghost var v := ParseDocument(loads, text).value;
      ValueIsOrdinary(loads, text);
      SpoolingLosesNothing(v);
      assert workspace.log == Spool([], v);
    }
  }

  /** An ordinary document whose records can all be written. */
  predicate Holds(loads: Loads, s: string) {
    ParseDocument(loads, s).Document? && Writable(Spool([], ParseDocument(loads, s).value))
  }

  lemma AcceptedFiles(loads: Loads, file: seq<Byte>, size: nat)
    requires size >= 1
    ensures var accepted := Accepts(loads, Delivered(file, size));
            && (size >= 3 ==> (accepted <==> ValidUtf8(file) && EveryChunkCompletes(file, size) && Holds(loads, Decode(file).chars)))
            && (size >= 4 ==> (accepted <==> ValidUtf8(file) && Holds(loads, Decode(file).chars)))
            && (ValidUtf8(file) && EveryChunkCompletes(file, size) ==>
                  (accepted <==> Holds(loads, Decode(file).chars)) && Delivered(file, size).chars == Decode(file).chars)
  {
    DeliveredInFull(file, size);
    if size >= 3 {
      LongBreaksNeedSmallChunks("", [], file, size);
    }
    if size >= 4 && ValidUtf8(file) {
      FourBytesComplete(file, size);
    }
  }

  /** Chunks of one byte: "{}" and a character of three bytes is accepted, though something follows the document. */
  lemma OneByteChunksEndEarly(loads: Loads)
    ensures var file := [0x7B, 0x7D] + EURO;
            && ValidUtf8(file) && Accepts(loads, Delivered(file, 1))
            && Decode(file).chars == "{}" + [0x20AC as char] && ParseDocument(loads, Decode(file).chars).Invalid?
  {
    var file := [0x7B, 0x7D] + EURO;
    assert file[2..] == EURO;
    DecodedBehindBraces(file);
    SingleBytesFirst(file);
    assert EURO[3..] == [] && DecodeOne(EURO) == Step.Scalar(0x20AC as char, 3);
    EuroByteByByte();
    EmptyObject(loads, [0x20AC as char]);
    EmptyObject(loads, "");
    assert "{}" + "" == "{}";
  }

  const EURO: seq<Byte> := [0xE2, 0x82, 0xAC]

  lemma EuroByteByByte()
    ensures Ahead("{}", [], EURO, 1) == View("{}", Gap(1))
  {
    var second: seq<Byte> := [0x82, 0xAC];
    var third: seq<Byte> := [0xAC];
    assert EURO[..1] == [0xE2] && EURO[1..] == second && second[..1] == [0x82] && second[1..] == third && third[..1] == third;
    assert [] + EURO[..1] == [0xE2] && [0xE2] + second[..1] == EURO[..2] && EURO[..2] + third == EURO;
    assert DecodeOne([0xE2]).NeedMore? && DecodeOne(EURO[..2]).NeedMore? && DecodeOne(EURO).Scalar?;
    assert Hollow(EURO[..2], third, 1) == 0;
    assert Hollow([0xE2], second, 1) == 1;
  }

  /** Chunks of two bytes: "{}" and the first three bytes of a character of four are accepted, though that is not UTF-8. */
  lemma TwoByteChunksEndEarly(loads: Loads)
    ensures var file := [0x7B, 0x7D] + SMILEY[..3];
            !ValidUtf8(file) && Accepts(loads, Delivered(file, 2))
  {
    var file := [0x7B, 0x7D] + SMILEY[..3];
    assert file[2..] == SMILEY[..3];
    DecodedBehindBraces(file);
    assert DecodeOne(SMILEY[..3]).NeedMore?;
    assert file[..2] == [0x7B, 0x7D];
    DecodedBehindBraces(file[..2]);
    assert [] + file[..2] == file[..2] && file[..2][2..] == [] && "" + "{}" == "{}";
    SmileyInTwos();
    EmptyObject(loads, "");
    assert "{}" + "" == "{}";
  }

  lemma SmileyInTwos()
    ensures Ahead("{}", [], SMILEY[..3], 2) == View("{}", Gap(1))
  {
    var wide, last := SMILEY[..3], [0x98 as Byte];
    assert wide[..2] == SMILEY[..2] && wide[2..] == last && last[..1] == last;
    assert [] + wide[..2] == SMILEY[..2] && SMILEY[..2] + last == wide;
    assert DecodeOne(SMILEY[..2]).NeedMore? && DecodeOne(wide).NeedMore?;
    assert Hollow(SMILEY[..2], last, 2) == 1 + Hollow(wide, [], 2);
  }

  lemma DecodedBehindBraces(file: seq<Byte>)
    requires |file| >= 2 && file[0] == 0x7B && file[1] == 0x7D
    ensures var d := Decode(file[2..]); Decode(file) == d.(chars := "{}" + d.chars)
  {
    assert file[1..][1..] == file[2..] && file[1..][0] == 0x7D;
    var d := Decode(file[2..]);
    assert ['{'] + (['}'] + d.chars) == "{}" + d.chars;
  }

  lemma OneByteRead(unread: string, file: seq<Byte>)
    requires file != [] && file[0] < 0x80
    ensures Ahead(unread, [], file, 1) == Ahead(unread + [file[0] as int as char], [], file[1..], 1)
  {
    var chunk := file[..1];
    assert [] + chunk == chunk && chunk[1..] == [];
    var c := chunk[0] as int as char;
    assert DecodeOne(chunk) == Step.Scalar(c, 1);
    assert [c] + "" == [c];
    assert Decode(chunk) == Decoded([c], [], true);
  }

  lemma SingleBytesFirst(file: seq<Byte>)
    requires |file| >= 2 && file[0] == 0x7B && file[1] == 0x7D
    ensures Delivered(file, 1) == Ahead("{}", [], file[2..], 1)
  {
    OneByteRead("", file);
    assert "" + "{" == "{" && "{" + "}" == "{}" && file[1..][0] == 0x7D && file[1..][1..] == file[2..];
    OneByteRead("{", file[1..]);
  }

  lemma EmptyObject(loads: Loads, tail: string)
    requires tail == "" || !Space(tail[0])
    ensures Value(loads, "{}" + tail) == Parsed.Parsed(Dict([]), tail)
    ensures ParseDocument(loads, "{}" + tail) == if tail == "" then Document(Dict([])) else Invalid
    ensures Writable(Spool([], Dict([]))) && Needed(loads, "{}" + tail) == 2
  {
    EmptyObjectReads(loads, tail);
    assert tail != "" ==> SkipSpace(tail) == tail;
  }

  lemma EmptyObjectReads(loads: Loads, tail: string)
    ensures Value(loads, "{}" + tail) == Parsed.Parsed(Dict([]), tail)
  {
    var s := "{}" + tail;
    assert s[0] == '{' && s[1..] == "}" + tail && s[1..][1..] == tail;
    ObjectAt(loads, s);
    assert OpeningAt(s[1..], '}') == Empty(tail);
  }
}
