/**
 * The JSON of a portable document (sections 2 to 7 of RFC 8259), parsed the
 * ordinary way, and what spooling its four record arrays means.  Scalars and
 * string bodies go to `json.loads`, an opaque function of the lexeme.
 */
module PortableJson {
  import opened Prelude

  /** A number, boolean or null, as `json.loads` returns it. */
  datatype Atom = Atom(lexeme: string)

  /**
   * A string as `json.loads` returns it: scalar values only, or code points among which there is a
   * surrogate, which an escape can name and UTF-8 cannot encode.
   */
  datatype Str = Plain(chars: string) | Surrogated(points: seq<int>)

  datatype Loaded = LoadedText(text: Str) | LoadedAtom(atom: Atom) | LoadedContainer | LoadError

  type Loads = string -> Loaded

  datatype Section = Categories | Locations | Items | Events

  datatype Json =
    | Text(text: Str)
    | Scalar(atom: Atom)
    | List(items: seq<Json>)
    | Dict(fields: seq<Field>)
    | Marker(section: Section)

  datatype Field = Field(key: Str, value: Json)

  datatype Parsed<+T> = Parsed(value: T, rest: string) | Refused

  /** Whether `json.dumps` without ASCII escapes gives a text that a UTF-8 file can hold. */
  predicate Encodable(v: Json) {
    match v
    case Text(text) => text.Plain?
    case List(items) => forall i :: 0 <= i < |items| ==> Encodable(items[i])
    case Dict(fields) => forall i :: 0 <= i < |fields| ==> fields[i].key.Plain? && Encodable(fields[i].value)
    case _ => true
  }

  /** Numbers and the three literal names are ASCII (sections 3 and 6 of RFC 8259). */
  ghost predicate AsciiScalars(loads: Loads) {
    forall token :: loads(token).LoadedAtom? ==> forall i :: 0 <= i < |token| ==> token[i] as int < 0x80
  }

  // ----- lexemes

  predicate Space(c: char) {
    c == ' ' || c == '\t' || c == '\r' || c == '\n'
  }

  predicate EndsScalar(c: char) {
    Space(c) || c == ',' || c == ']' || c == '}'
  }

  function SkipSpace(s: string): (rest: string)
    ensures |rest| <= |s|
    ensures rest != "" ==> !Space(rest[0])
  {
    if s != "" && Space(s[0]) then SkipSpace(s[1..]) else s
  }

  predicate Starts(s: string, c: char) {
    s != "" && s[0] == c
  }

  datatype Scan = Scanned(raw: string, rest: string) | Unterminated

  /** A string body up to and including its closing quote. */
  function ScanString(s: string, escaped: bool): (r: Scan)
    ensures r.Scanned? ==> |r.rest| < |s|
  {
    if s == "" then Unterminated
    else if s[0] == '"' && !escaped then Scanned("\"", s[1..])
    else
      match ScanString(s[1..], s[0] == '\\' && !escaped)
      case Scanned(raw, rest) => Scanned([s[0]] + raw, rest)
      case Unterminated => Unterminated
  }

  function StringAt(loads: Loads, s: string): (r: Parsed<Str>)
    ensures r.Parsed? ==> |r.rest| < |s|
  {
    if !Starts(s, '"') then Refused
    else
      match ScanString(s[1..], false)
      case Unterminated => Refused
      case Scanned(raw, rest) =>
        match loads("\"" + raw)
        case LoadedText(text) => Parsed(text, rest)
        case _ => Refused
  }

  function ScalarToken(s: string): (token: string)
    ensures |token| <= |s|
  {
    if s == "" || EndsScalar(s[0]) then "" else [s[0]] + ScalarToken(s[1..])
  }

  function ScalarAt(loads: Loads, s: string): (r: Parsed<Json>)
    ensures r.Parsed? ==> |r.rest| <= |s|
  {
    var token := ScalarToken(s);
    match loads(token)
    case LoadedAtom(atom) => Parsed(Scalar(atom), s[|token|..])
    case _ => Refused
  }

  // ----- the ordinary parser: duplicate keys are refused, nothing is spooled

  function KeysOf(fields: seq<Field>): set<Str> {
    set f | f in fields :: f.key
  }

  /** What follows the opening bracket of an object or array: its closing bracket, or the first element. */
  datatype Opening = Empty(rest: string) | Filled(rest: string)

  function OpeningAt(s: string, close: char): (r: Opening)
    ensures |r.rest| <= |s|
  {
    var u := SkipSpace(s);
    if Starts(u, close) then Empty(u[1..]) else Filled(u)
  }

  /** What follows an element. */
  datatype Delimiter = Closed(rest: string) | Another(rest: string) | Missing

  function DelimiterAt(s: string, close: char): (r: Delimiter)
    ensures r.Closed? || r.Another? ==> |r.rest| < |s|
  {
    var u := SkipSpace(s);
    if Starts(u, close) then Closed(u[1..]) else if Starts(u, ',') then Another(u[1..]) else Missing
  }

  /** A key not seen before, with its colon. */
  function KeyAt(loads: Loads, s: string, seen: set<Str>): (r: Parsed<Str>)
    ensures r.Parsed? ==> |r.rest| < |s| && r.value !in seen
  {
    match StringAt(loads, SkipSpace(s))
    case Refused => Refused
    case Parsed(key, t) =>
      var u := SkipSpace(t);
      if key in seen || !Starts(u, ':') then Refused else Parsed(key, u[1..])
  }

  function Value(loads: Loads, s: string): (r: Parsed<Json>)
    ensures r.Parsed? ==> |r.rest| <= |s|
    decreases |s|, 1
  {
    var t := SkipSpace(s);
    if t == "" then Refused
    else if t[0] == '{' then
      (match OpeningAt(t[1..], '}')
       case Empty(rest) => Parsed(Dict([]), rest)
       case Filled(rest) => Members(loads, rest, []))
    else if t[0] == '[' then
      (match OpeningAt(t[1..], ']')
       case Empty(rest) => Parsed(List([]), rest)
       case Filled(rest) => Elements(loads, rest, []))
    else if t[0] == '"' then
      (match StringAt(loads, t)
       case Parsed(text, rest) => Parsed(Text(text), rest)
       case Refused => Refused)
    else ScalarAt(loads, t)
  }

  /** An element with the delimiter after it. */
  datatype Entry<+T> = Entry(value: T, last: bool, rest: string) | BadEntry

  function Delimited<T>(value: T, s: string, close: char): (r: Entry<T>)
    ensures r.Entry? ==> |r.rest| < |s|
  {
    match DelimiterAt(s, close)
    case Closed(rest) => Entry(value, true, rest)
    case Another(rest) => Entry(value, false, rest)
    case Missing => BadEntry
  }

  function MemberAt(loads: Loads, s: string, seen: set<Str>): (r: Entry<Field>)
    ensures r.Entry? ==> |r.rest| < |s| && r.value.key !in seen
    decreases |s|, 0
  {
    match KeyAt(loads, s, seen)
    case Refused => BadEntry
    case Parsed(key, t) =>
      match Value(loads, t)
      case Refused => BadEntry
      case Parsed(value, rest) => Delimited(Field(key, value), rest, '}')
  }

  function ElementAt(loads: Loads, s: string): (r: Entry<Json>)
    ensures r.Entry? ==> |r.rest| < |s|
    decreases |s|, 2
  {
    match Value(loads, s)
    case Refused => BadEntry
    case Parsed(value, rest) => Delimited(value, rest, ']')
  }

  /** The members of an object after those already read. */
  function Members(loads: Loads, s: string, fields: seq<Field>): (r: Parsed<Json>)
    ensures r.Parsed? ==> |r.rest| < |s| && r.value.Dict?
    decreases |s|, 1
  {
    match MemberAt(loads, s, KeysOf(fields))
    case BadEntry => Refused
    case Entry(field, last, rest) =>
      if last then Parsed(Dict(fields + [field]), rest) else Members(loads, rest, fields + [field])
  }

  /** The elements of an array after those already read. */
  function Elements(loads: Loads, s: string, items: seq<Json>): (r: Parsed<Json>)
    ensures r.Parsed? ==> |r.rest| < |s| && r.value.List?
    decreases |s|, 3
  {
    match ElementAt(loads, s)
    case BadEntry => Refused
    case Entry(value, last, rest) =>
      if last then Parsed(List(items + [value]), rest) else Elements(loads, rest, items + [value])
  }

  datatype Document = Document(value: Json) | Invalid

  /** A whole document: one value and nothing but white space after it. */
  function ParseDocument(loads: Loads, s: string): Document {
    match Value(loads, s)
    case Refused => Invalid
    case Parsed(value, rest) => if SkipSpace(rest) == "" then Document(value) else Invalid
  }
}
