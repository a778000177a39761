/**
 * What a whole Responses stream means
 * (src/ah_there_it_is/agent/chatgpt_codex.py:390-558): a stream written block by
 * block, with either kind of line end, with comments and other fields, with or
 * without the space behind a colon, gives the answer its events give, one after
 * another.  The bytes are spelled out as section 9.2.5 of the HTML Living
 * Standard has them.
 */
module SseStreams {
  import opened Prelude
  import opened Utf8
  import opened ResponsesSse

  /** A line as it may be written. */
  datatype Line =
    | Data(text: string, spaced: bool, crlf: bool)
    | Name(text: string, spaced: bool, crlf: bool)
    | Other(field: seq<Byte>, text: string, spaced: bool, crlf: bool)
    | Comment(bytes: seq<Byte>, crlf: bool)

  /** The lines of an event, and the blank line behind them. */
  datatype Block = Block(lines: seq<Line>, crlf: bool)

  type Encoder = string -> seq<Byte>

  // ----- how it is written

  function Ending(crlf: bool): seq<Byte> {
    if crlf then [13, 10] else [10]
  }

  function FieldText(encode: Encoder, text: string, spaced: bool): seq<Byte> {
    if spaced then [32] + encode(text) else encode(text)
  }

  /** A line without its end: "data:", "event:" or ":" and the rest. */
  function Body(encode: Encoder, line: Line): seq<Byte> {
    match line
    case Data(text, spaced, _) => [100, 97, 116, 97, 58] + FieldText(encode, text, spaced)
    case Name(text, spaced, _) => [101, 118, 101, 110, 116, 58] + FieldText(encode, text, spaced)
    case Other(field, text, spaced, _) => (field + [58]) + FieldText(encode, text, spaced)
    case Comment(bytes, _) => [58] + bytes
  }

  function LineBytes(encode: Encoder, lines: seq<Line>): seq<Byte> {
    if lines == [] then [] else Body(encode, lines[0]) + (Ending(lines[0].crlf) + LineBytes(encode, lines[1..]))
  }

  function Bytes(encode: Encoder, blocks: seq<Block>): seq<Byte> {
    if blocks == [] then []
    else LineBytes(encode, blocks[0].lines) + (Ending(blocks[0].crlf) + Bytes(encode, blocks[1..]))
  }

  /** The text stands on one line and can be read back from it. */
  predicate Carried(decode: Decoders, encode: Encoder, line: Line) {
    && (forall b :: b in Body(encode, line) ==> b != 10)
    && (line.crlf || Body(encode, line)[|Body(encode, line)| - 1] != 13)
    && (line.Other? ==> line.field != [] && line.field != [100, 97, 116, 97] && line.field != [101, 118, 101, 110, 116]
                        && forall b :: b in line.field ==> b != 58)
    && (line.Comment? ||
        (decode.text(encode(line.text)) == Some(line.text) && (line.spaced || encode(line.text) == [] || encode(line.text)[0] != 32)))
  }

  predicate AllCarried(decode: Decoders, encode: Encoder, blocks: seq<Block>) {
    forall i, j :: 0 <= i < |blocks| && 0 <= j < |blocks[i].lines| ==> Carried(decode, encode, blocks[i].lines[j])
  }

  // ----- what it says

  /** The texts of the data lines, with newlines between them. */
  ghost function Lines(texts: seq<string>): string {
    var n := |texts| - 1;
    if n < 0 then "" else if n == 0 then texts[0] else Lines(texts[..n]) + "\n" + texts[n]
  }

  ghost function DataOf(lines: seq<Line>): seq<string> {
    if lines == [] then []
    else if lines[0].Data? then [lines[0].text] + DataOf(lines[1..])
    else DataOf(lines[1..])
  }

  /** The last name given, or the one before. */
  ghost function NameOf(before: string, lines: seq<Line>): string
    decreases lines
  {
    if lines == [] then before else NameOf(if lines[0].Name? then lines[0].text else before, lines[1..])
  }

  /** A block with data is an event. */
  ghost function Events(decode: Decoders, blocks: seq<Block>): seq<Event> {
    if blocks == [] then []
    else
      var data := DataOf(blocks[0].lines);
      (if data == [] then [] else [decode.event(NameOf("", blocks[0].lines), Lines(data))]) + Events(decode, blocks[1..])
  }

  /** What is wrong with an event. */
  ghost function Fault(event: Event): Option<Error> {
    match event
    case Malformed => Some(BadEvent)
    case StreamFailed(detail) => Some(Upstream(detail))
    case ResponseCompleted(None) => Some(BadEvent)
    case ResponseCompleted(Some(payload)) => if payload.finished then None else Some(BadEvent)
    case _ => None
  }

  ghost function FirstFault(events: seq<Event>): Option<Error> {
    if events == [] then None else if Fault(events[0]).Some? then Fault(events[0]) else FirstFault(events[1..])
  }

  /** The text that arrived piece by piece. */
  ghost function TextIn(events: seq<Event>): seq<string> {
    if events == [] then []
    else (match events[0] case TextDelta(Some(delta)) => [delta] case _ => []) + TextIn(events[1..])
  }

  /** The response of the last completion. */
  ghost function CompletedIn(before: Option<Payload>, events: seq<Event>): Option<Payload>
    decreases events
  {
    if events == [] then before
    else CompletedIn(match events[0] case ResponseCompleted(Some(payload)) => Some(payload) case _ => before, events[1..])
  }

  /** The id of the call an event is about. */
  ghost function About(event: Event): Option<string> {
    match event
    case ItemAdded(Some((id, _))) => Some(id)
    case ItemDone(Some((id, _))) => Some(id)
    case ArgumentsDelta(Some((id, _))) => Some(id)
    case ArgumentsDone(Some((id, _))) => Some(id)
    case _ => None
  }

  /** The ids in the order of their first events. */
  ghost function IdsIn(events: seq<Event>): seq<string> {
    if events == [] then []
    else
      var before, id := IdsIn(events[..|events| - 1]), About(events[|events| - 1]);
      if id.Some? && id.value !in before then before + [id.value] else before
  }

  /** What an event makes of a call. */
  ghost function Altered(before: Call, event: Event, id: string): Call {
    if About(event) != Some(id) then before
    else
      match event
      case ItemAdded(item) => item.value.1
      case ItemDone(item) => item.value.1
      case ArgumentsDelta(part) => before.(arguments := before.arguments + part.value.1)
      case ArgumentsDone(part) => before.(arguments := part.value.1)
      case _ => before
  }

  /** A call after its events: the whole call as it was added or done, with what came of its arguments since. */
  ghost function CallIn(events: seq<Event>, id: string): Call {
    if events == [] then Call("", "", "") else Altered(CallIn(events[..|events| - 1], id), events[|events| - 1], id)
  }

  ghost function CallsIn(events: seq<Event>): seq<Call> {
    seq(|IdsIn(events)|, i requires 0 <= i < |IdsIn(events)| => CallIn(events, IdsIn(events)[i]))
  }

  /** A call with an id, a name and arguments that load. */
  ghost predicate CompleteCall(decode: Decoders, call: Call) {
    call.id != "" && call.name != "" && decode.loads(call.arguments)
  }

  ghost predicate GoodItem(decode: Decoders, item: Item) {
    match item
    case Message(texts) => texts.Some?
    case FunctionCall(call) => CompleteCall(decode, call)
    case OtherItem => true
    case NotAnObject => false
  }

  ghost predicate AllGood(decode: Decoders, items: seq<Item>) {
    forall item :: item in items ==> GoodItem(decode, item)
  }

  ghost function TextOfItem(item: Item): seq<string> {
    match item
    case Message(Some(texts)) => texts
    case _ => []
  }

  ghost function TextListed(items: seq<Item>): seq<string> {
    if items == [] then [] else TextOfItem(items[0]) + TextListed(items[1..])
  }

  ghost function CallOfItem(item: Item): seq<Call> {
    match item
    case FunctionCall(call) => [call]
    case _ => []
  }

  ghost function CallsListed(items: seq<Item>): seq<Call> {
    if items == [] then [] else CallOfItem(items[0]) + CallsListed(items[1..])
  }

  /** The output list of a response; none is an empty one. */
  ghost predicate Outputs(payload: Payload, items: seq<Item>) {
    match payload.output
    case None => items == []
    case Some(output) => output == Some(items)
  }

  ghost predicate AllComplete(decode: Decoders, calls: seq<Call>) {
    forall call :: call in calls ==> CompleteCall(decode, call)
  }

  /** The listed text, or what arrived piece by piece if there is none. */
  ghost function TextGiven(events: seq<Event>, items: seq<Item>): seq<string> {
    if TextListed(items) == [] then TextIn(events) else TextListed(items)
  }

  /** The listed calls, or those assembled. */
  ghost function CallsGiven(events: seq<Event>, items: seq<Item>): seq<Call> {
    if CallsListed(items) == [] then CallsIn(events) else CallsListed(items)
  }

  /**
   * The answer to a stream of these events: its first fault; without a completion an error; otherwise
   * what the completed response lists, texts and calls each replaced by what arrived piece by piece if
   * it lists none.  A listed item or a call that is not complete is an error.
   */
  ghost predicate Answers(decode: Decoders, events: seq<Event>, outcome: Outcome<Reply>) {
    var completed := CompletedIn(None, events);
    if FirstFault(events).Some? then outcome == Err(FirstFault(events).value)
    else if completed.None? then outcome == Err(NotCompleted)
    else
      match outcome
      case Ok(reply) =>
        reply.id == completed.value.id
        && exists items ::
             && Outputs(completed.value, items) && AllGood(decode, items)
             && reply.content == TextGiven(events, items) && reply.calls == CallsGiven(events, items)
             && AllComplete(decode, reply.calls)
      case Err(error) =>
        error == BadResponse
        && forall items :: Outputs(completed.value, items) && AllGood(decode, items) ==>
             !AllComplete(decode, CallsGiven(events, items))
  }

  // ----- reading a line

  lemma {:induction false} FindAt(s: seq<Byte>, b: Byte, i: nat)
    requires i < |s| && s[i] == b && forall j :: 0 <= j < i ==> s[j] != b
    ensures Find(s, b) == i
  {
    if i > 0 {
      FindAt(s[1..], b, i - 1);
    }
  }

  /** What a line tells. */
  ghost function Told(s: Stream, line: Line): Stream {
    match line
    case Data(text, _, _) => s.(dataLines := s.dataLines + [text])
    case Name(text, _, _) => s.(eventName := text)
    case Other(_, _, _, _) => s
    case Comment(_, _) => s
  }

  /** The value of a field behind its colon, without the space. */
  lemma FieldIs(encode: Encoder, field: seq<Byte>, text: string, spaced: bool)
    requires (forall b :: b in field ==> b != 58) && (spaced || encode(text) == [] || encode(text)[0] != 32)
    ensures var line := (field + [58]) + FieldText(encode, text, spaced);
            Find(line, 58) == |field| && line[..|field|] == field && FieldValue(line) == encode(text)
  {
    var value := FieldText(encode, text, spaced);
    var line := (field + [58]) + value;
    forall j | 0 <= j < |field| ensures line[j] != 58 {
      assert line[j] == field[j] && field[j] in field;
    }
    FindAt(line, 58, |field|);
    assert line[|field| + 1..] == value;
    if spaced {
      assert value[1..] == encode(text);
    }
  }

  /** A line of this field, either end, is told by its name and its text. */
  lemma FieldReads(decode: Decoders, encode: Encoder, s: Stream, field: seq<Byte>, text: string, spaced: bool, end: seq<Byte>)
    requires field != [] && field[0] != 58 && (forall b :: b in field ==> b != 58)
    requires decode.text(encode(text)) == Some(text) && (spaced || encode(text) == [] || encode(text)[0] != 32)
    requires Chomp((field + [58]) + FieldText(encode, text, spaced) + end) == (field + [58]) + FieldText(encode, text, spaced)
    ensures ProcessedLine(decode, s, (field + [58]) + FieldText(encode, text, spaced) + end)
            == Ok(if field == [100, 97, 116, 97] then s.(dataLines := s.dataLines + [text])
                  else if field == [101, 118, 101, 110, 116] then s.(eventName := text)
                  else s)
  {
    FieldIs(encode, field, text, spaced);
    var line := (field + [58]) + FieldText(encode, text, spaced);
    assert line[0] == field[0];
  }

  lemma BodyReads(decode: Decoders, encode: Encoder, s: Stream, line: Line)
    requires Carried(decode, encode, line)
    ensures ProcessedLine(decode, s, Body(encode, line) + if line.crlf then [13] else []) == Ok(Told(s, line))
  {
    var body, end: seq<Byte> := Body(encode, line), if line.crlf then [13] else [];
    assert Chomp(body + end) == body;
    match line
    case Data(text, spaced, _) =>
      assert [100, 97, 116, 97] + [58] == [100, 97, 116, 97, 58];
      FieldReads(decode, encode, s, [100, 97, 116, 97], text, spaced, end);
    case Name(text, spaced, _) =>
      assert [101, 118, 101, 110, 116] + [58] == [101, 118, 101, 110, 116, 58];
      FieldReads(decode, encode, s, [101, 118, 101, 110, 116], text, spaced, end);
    case Other(field, text, spaced, _) =>
      assert field[0] in field;
      FieldReads(decode, encode, s, field, text, spaced, end);
    case Comment(_, _) =>
  }

  /** Reading on, unless something was wrong. */
  ghost function Onward(decode: Decoders, so: Outcome<Stream>, rest: seq<Byte>): Progress {
    if so.Ok? then Consumed(decode, so.value, rest) else Broken(so.error)
  }

  lemma RawReads(decode: Decoders, s: Stream, raw: seq<Byte>, rest: seq<Byte>)
    requires forall b :: b in raw ==> b != 10
    ensures Consumed(decode, s, raw + ([10] + rest)) == Onward(decode, ProcessedLine(decode, s, raw), rest)
  {
    var all := raw + ([10] + rest);
    forall j | 0 <= j < |raw| ensures all[j] != 10 {
      assert all[j] == raw[j] && raw[j] in raw;
    }
    FindAt(all, 10, |raw|);
    assert all[..|raw|] == raw && all[|raw| + 1..] == rest;
  }

  lemma EndIs(body: seq<Byte>, crlf: bool, rest: seq<Byte>)
    ensures body + (Ending(crlf) + rest) == (body + if crlf then [13] else []) + ([10] + rest)
  {
  }

  lemma LineReads(decode: Decoders, encode: Encoder, s: Stream, line: Line, rest: seq<Byte>)
    requires Carried(decode, encode, line)
    ensures Consumed(decode, s, Body(encode, line) + (Ending(line.crlf) + rest)) == Consumed(decode, Told(s, line), rest)
  {
    EndIs(Body(encode, line), line.crlf, rest);
    RawReads(decode, s, Body(encode, line) + if line.crlf then [13] else [], rest);
    BodyReads(decode, encode, s, line);
  }

  ghost function ToldAll(s: Stream, lines: seq<Line>): Stream
    decreases lines
  {
    if lines == [] then s else ToldAll(Told(s, lines[0]), lines[1..])
  }

  lemma {:induction false} ToldIs(s: Stream, lines: seq<Line>)
    ensures ToldAll(s, lines) == s.(dataLines := s.dataLines + DataOf(lines), eventName := NameOf(s.eventName, lines))
    decreases lines
  {
    if lines == [] {
      assert s.dataLines + [] == s.dataLines;
    } else {
      ToldIs(Told(s, lines[0]), lines[1..]);
      assert lines[0].Data? ==> (s.dataLines + [lines[0].text]) + DataOf(lines[1..]) == s.dataLines + DataOf(lines);
    }
  }

  lemma FirstLine(encode: Encoder, lines: seq<Line>, rest: seq<Byte>)
    requires lines != []
    ensures LineBytes(encode, lines) + rest
            == Body(encode, lines[0]) + (Ending(lines[0].crlf) + (LineBytes(encode, lines[1..]) + rest))
  {
  }

  lemma {:induction false} LinesRead(decode: Decoders, encode: Encoder, s: Stream, lines: seq<Line>, rest: seq<Byte>)
    requires forall j :: 0 <= j < |lines| ==> Carried(decode, encode, lines[j])
    ensures Consumed(decode, s, LineBytes(encode, lines) + rest) == Consumed(decode, ToldAll(s, lines), rest)
    decreases lines
  {
    if lines == [] {
      assert LineBytes(encode, lines) + rest == rest;
    } else {
      FirstLine(encode, lines, rest);
      LineReads(decode, encode, s, lines[0], LineBytes(encode, lines[1..]) + rest);
      LinesRead(decode, encode, Told(s, lines[0]), lines[1..], rest);
    }
  }

  // ----- reading a block

  lemma {:induction false} JoinMore(texts: seq<string>, last: string)
    requires texts != []
    ensures Join(texts + [last]) == Join(texts) + "\n" + last
  {
    if |texts| == 1 {
      assert (texts + [last])[1..] == [last];
    } else {
      assert (texts + [last])[1..] == texts[1..] + [last];
      JoinMore(texts[1..], last);
    }
  }

  lemma {:induction false} JoinIs(texts: seq<string>)
    ensures Join(texts) == Lines(texts)
  {
    var n := |texts| - 1;
    if n > 0 {
      assert texts == texts[..n] + [texts[n]];
      JoinIs(texts[..n]);
      JoinMore(texts[..n], texts[n]);
    }
  }

  /** Between events. */
  ghost predicate Idle(s: Stream) {
    s.dataLines == [] && s.eventName == ""
  }

  /** What an event does. */
  ghost function Next(s: Stream, event: Event): Outcome<Stream> {
    match Fault(event)
    case Some(error) => Err(error)
    case None => Ok(s.(texts := s.texts + TextIn([event]), calls := Assemble(s.calls, event),
                       completed := CompletedIn(s.completed, [event])))
  }

  lemma NextIs(s: Stream, event: Event)
    ensures TextIn([event]) == match event case TextDelta(Some(delta)) => [delta] case _ => []
    ensures CompletedIn(s.completed, [event]) == match event case ResponseCompleted(Some(payload)) => Some(payload) case _ => s.completed
  {
    assert [event][1..] == [];
  }

  lemma BlankReads(decode: Decoders, s: Stream, crlf: bool, rest: seq<Byte>)
    ensures Consumed(decode, s, Ending(crlf) + rest) == Onward(decode, Dispatched(decode, s), rest)
  {
    var raw: seq<Byte> := if crlf then [13] else [];
    EndIs([], crlf, rest);
    assert [] + (Ending(crlf) + rest) == Ending(crlf) + rest && [] + raw == raw;
    RawReads(decode, s, raw, rest);
    assert Chomp(raw) == [];
    assert ProcessedLine(decode, s, raw) == Dispatched(decode, s);
  }

  lemma DispatchIs(decode: Decoders, s: Stream, lines: seq<Line>)
    requires Idle(s)
    requires ToldAll(s, lines) == s.(dataLines := DataOf(lines), eventName := NameOf("", lines))
    ensures Dispatched(decode, ToldAll(s, lines))
            == if DataOf(lines) == [] then Ok(s) else Next(s, decode.event(NameOf("", lines), Lines(DataOf(lines))))
  {
    var data := DataOf(lines);
    JoinIs(data);
    if data != [] {
      NextIs(s, decode.event(NameOf("", lines), Lines(data)));
      assert s.texts + [] == s.texts;
    }
  }

  lemma BlockReads(decode: Decoders, encode: Encoder, s: Stream, block: Block, rest: seq<Byte>)
    requires Idle(s) && forall j :: 0 <= j < |block.lines| ==> Carried(decode, encode, block.lines[j])
    ensures var data := DataOf(block.lines);
            Consumed(decode, s, LineBytes(encode, block.lines) + (Ending(block.crlf) + rest))
            == Onward(decode, if data == [] then Ok(s) else Next(s, decode.event(NameOf("", block.lines), Lines(data))), rest)
  {
    LinesRead(decode, encode, s, block.lines, Ending(block.crlf) + rest);
    ToldIs(s, block.lines);
    BlankReads(decode, ToldAll(s, block.lines), block.crlf, rest);
    assert [] + DataOf(block.lines) == DataOf(block.lines);
    DispatchIs(decode, s, block.lines);
  }

  // ----- reading all blocks

  /** What these events leave, one after another. */
  ghost function Folded(s: Stream, events: seq<Event>): Outcome<Stream>
    decreases events
  {
    if events == [] then Ok(s)
    else
      var so := Next(s, events[0]);
      if so.Ok? then Folded(so.value, events[1..]) else so
  }

  lemma {:induction false} BlocksRead(decode: Decoders, encode: Encoder, s: Stream, blocks: seq<Block>)
    requires Idle(s) && AllCarried(decode, encode, blocks)
    ensures Consumed(decode, s, Bytes(encode, blocks))
            == Onward(decode, Folded(s, Events(decode, blocks)), [])
    decreases blocks
  {
    if blocks != [] {
      var rest := Bytes(encode, blocks[1..]);
      BlockReads(decode, encode, s, blocks[0], rest);
      assert AllCarried(decode, encode, blocks[1..]);
      var data := DataOf(blocks[0].lines);
      if data == [] {
        assert Events(decode, blocks) == Events(decode, blocks[1..]);
        BlocksRead(decode, encode, s, blocks[1..]);
      } else {
        var event := decode.event(NameOf("", blocks[0].lines), Lines(data));
        assert Events(decode, blocks)[1..] == Events(decode, blocks[1..]);
        if Next(s, event).Ok? {
          BlocksRead(decode, encode, Next(s, event).value, blocks[1..]);
        }
      }
    }
  }

  lemma {:induction false} FoldedIs(s: Stream, events: seq<Event>)
    ensures Folded(s, events)
            == match FirstFault(events)
               case Some(e) => Err(e)
               case None => Ok(s.(texts := s.texts + TextIn(events), calls := AssembleAll(s.calls, events),
                                  completed := CompletedIn(s.completed, events)))
    decreases events
  {
    if events == [] {
      assert s.texts + [] == s.texts;
    } else if Next(s, events[0]).Ok? {
      var next := Next(s, events[0]).value;
      NextIs(s, events[0]);
      FoldedIs(next, events[1..]);
      assert (s.texts + TextIn([events[0]])) + TextIn(events[1..]) == s.texts + TextIn(events);
    }
  }

  // ----- the calls

  lemma OrderAfter(calls: Calls, event: Event)
    ensures Assemble(calls, event).order
            == if About(event).Some? && About(event).value !in calls.entries then calls.order + [About(event).value] else calls.order
    ensures forall id :: id in Assemble(calls, event).entries <==> id in calls.entries || About(event) == Some(id)
  {
  }

  lemma EntryAfter(calls: Calls, event: Event, id: string)
    ensures Entry(Assemble(calls, event), id) == Altered(Entry(calls, id), event, id)
  {
  }

  lemma {:induction false} CallsAre(events: seq<Event>)
    ensures AssembleAll(START.calls, events).order == IdsIn(events)
    ensures forall id :: id in AssembleAll(START.calls, events).entries <==> id in IdsIn(events)
    ensures forall id :: Entry(AssembleAll(START.calls, events), id) == CallIn(events, id)
    decreases |events|
  {
    if events != [] {
      var front, last := events[..|events| - 1], events[|events| - 1];
      CallsAre(front);
      assert events == front + [last] && [last][1..] == [];
      AssembleInTwo(START.calls, front, [last]);
      var calls := AssembleAll(START.calls, front);
      assert AssembleAll(calls, [last]) == Assemble(calls, last);
      OrderAfter(calls, last);
      forall id ensures Entry(Assemble(calls, last), id) == CallIn(events, id) {
        EntryAfter(calls, last, id);
      }
    }
  }

  lemma {:induction false} TextsAre(items: seq<Item>)
    ensures TextsOf(items) == TextListed(items) && CallsOf(items) == CallsListed(items)
  {
    if items != [] {
      var n := |items| - 1;
      TextsAre(items[..n]);
      TextListedMore(items[..n], items[n]);
      CallsListedMore(items[..n], items[n]);
      assert items[..n] + [items[n]] == items;
    }
  }

  lemma {:induction false} TextListedMore(items: seq<Item>, item: Item)
    ensures TextListed(items + [item]) == TextListed(items) + TextOfItem(item)
  {
    var all := items + [item];
    if items == [] {
      assert all == [item] && all[1..] == [];
    } else {
      assert all[0] == items[0] && all[1..] == items[1..] + [item];
      TextListedMore(items[1..], item);
    }
  }

  lemma {:induction false} CallsListedMore(items: seq<Item>, item: Item)
    ensures CallsListed(items + [item]) == CallsListed(items) + CallOfItem(item)
  {
    var all := items + [item];
    if items == [] {
      assert all == [item] && all[1..] == [];
    } else {
      assert all[0] == items[0] && all[1..] == items[1..] + [item];
      CallsListedMore(items[1..], item);
    }
  }

  // ----- the answer

  lemma {:induction false} GoodItemsGiveCalls(decode: Decoders, items: seq<Item>)
    requires AllGood(decode, items)
    ensures forall call :: call in CallsListed(items) ==> CompleteCall(decode, call)
    decreases items
  {
    if items != [] {
      assert items[0] in items;
      assert AllGood(decode, items[1..]);
      GoodItemsGiveCalls(decode, items[1..]);
    }
  }

  lemma GoodIsValid(decode: Decoders, items: seq<Item>)
    ensures ItemsValid(decode, items) <==> AllGood(decode, items)
  {
  }

  lemma CompleteIsDecodable(decode: Decoders, calls: seq<Call>)
    ensures AllComplete(decode, calls) <==> forall call :: call in calls ==> Decodable(decode, call)
  {
  }

  lemma ListAnswers(decode: Decoders, s: Stream, events: seq<Event>, items: seq<Item>)
    requires s.completed.Some? && Outputs(s.completed.value, items)
    requires s.texts == TextIn(events) && Assembled(s.calls) == CallsIn(events)
    ensures ReplyOf(decode, s)
            == if AllGood(decode, items) && AllComplete(decode, CallsGiven(events, items))
               then Ok(Reply(TextGiven(events, items), CallsGiven(events, items), s.completed.value.id))
               else Err(BadResponse)
  {
    TextsAre(items);
    GoodIsValid(decode, items);
    CompleteIsDecodable(decode, CallsGiven(events, items));
  }

  lemma ReplyAnswers(decode: Decoders, s: Stream, events: seq<Event>)
    requires FirstFault(events).None?
    requires s == Stream([], "", TextIn(events), AssembleAll(START.calls, events), CompletedIn(None, events))
    ensures Answers(decode, events, ReplyOf(decode, s))
  {
    CallsAre(events);
    assert Assembled(s.calls) == CallsIn(events);
    if s.completed.Some? && s.completed.value.output != Some(None) {
      var payload := s.completed.value;
      var items := if payload.output.Some? then payload.output.value.value else [];
      assert Outputs(payload, items);
      ListAnswers(decode, s, events, items);
      if AllGood(decode, items) {
        GoodItemsGiveCalls(decode, items);
      }
    }
  }

  /** The events leave no choice. */
  lemma OneAnswer(decode: Decoders, events: seq<Event>, a: Outcome<Reply>, b: Outcome<Reply>)
    requires Answers(decode, events, a) && Answers(decode, events, b)
    ensures a == b
  {
  }

  /** A stream of these blocks is answered as its events are, however its bytes are cut. */
  lemma StreamIsAnswered(decode: Decoders, encode: Encoder, blocks: seq<Block>)
    requires AllCarried(decode, encode, blocks)
    ensures Answers(decode, Events(decode, blocks), Meaning(decode, Bytes(encode, blocks)))
  {
    var events := Events(decode, blocks);
    BlocksRead(decode, encode, START, blocks);
    FoldedIs(START, events);
    if FirstFault(events).None? {
      assert [] + TextIn(events) == TextIn(events);
      ReplyAnswers(decode, Folded(START, events).value, events);
    }
  }

  /** The same for a stream that ends within its last event: the two newlines at the end may be missing. */
  lemma UnfinishedStreamIsAnswered(decode: Decoders, encode: Encoder, blocks: seq<Block>, bytes: seq<Byte>)
    requires AllCarried(decode, encode, blocks) && bytes + [10, 10] == Bytes(encode, blocks)
    ensures Answers(decode, Events(decode, blocks), Meaning(decode, bytes))
  {
    UnfinishedEventIsDispatched(decode, bytes);
    StreamIsAnswered(decode, encode, blocks);
  }
}
