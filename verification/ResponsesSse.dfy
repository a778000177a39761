/**
 * Parsing a Responses stream
 * (src/ah_there_it_is/agent/chatgpt_codex.py:390-578): bytes arrive in chunks,
 * lines are framed as section 9.2.5 of the HTML Living Standard describes, and
 * function calls are assembled from their events.  What a data block means is an
 * opaque function of the event name and the text.
 */
module ResponsesSse {
  import opened Prelude
  import opened Utf8

  const LF: Byte := 10
  const CR: Byte := 13
  const SPACE: Byte := 32
  const COLON: Byte := 58
  const DATA: seq<Byte> := [100, 97, 116, 97]
  const EVENT: seq<Byte> := [101, 118, 101, 110, 116]

  datatype Call = Call(id: string, name: string, arguments: string)

  /** An entry of the completed response's output list. */
  datatype Item = Message(texts: Option<seq<string>>) | FunctionCall(call: Call) | OtherItem | NotAnObject

  datatype Payload = Payload(id: Option<string>, output: Option<Option<seq<Item>>>, finished: bool)

  /** A decoded data block, by its kind; None where a required member is missing or of the wrong type. */
  datatype Event =
    | Malformed
    | StreamFailed(detail: string)
    | TextDelta(delta: Option<string>)
    | ItemAdded(item: Option<(string, Call)>)
    | ArgumentsDelta(part: Option<(string, string)>)
    | ArgumentsDone(part: Option<(string, string)>)
    | ItemDone(item: Option<(string, Call)>)
    | ResponseCompleted(payload: Option<Payload>)
    | OtherEvent

  datatype Error = BadEvent | Upstream(detail: string) | BadUtf8 | TooLarge | NotCompleted | BadResponse

  datatype Outcome<+T> = Ok(value: T) | Err(error: Error)

  /** The foreign decoders: UTF-8 text, a data block under its event name, and whether call arguments load. */
  datatype Decoders = Decoders(
    text: seq<Byte> -> Option<string>,
    event: (string, string) -> Event,
    loads: string -> bool)

  /** The calls under assembly, in the order their ids first appeared. */
  datatype Calls = Calls(order: seq<string>, entries: map<string, Call>)

  /** The variables the line loop carries along. */
  datatype Stream = Stream(dataLines: seq<string>, eventName: string, texts: seq<string>, calls: Calls, completed: Option<Payload>)

  const START := Stream([], "", [], Calls([], map[]), None)

  // ----- dispatch

  function Join(lines: seq<string>): string {
    if lines == [] then "" else if |lines| == 1 then lines[0] else lines[0] + "\n" + Join(lines[1..])
  }

  function Entry(calls: Calls, id: string): Call {
    if id in calls.entries then calls.entries[id] else Call("", "", "")
  }

  function Put(calls: Calls, id: string, call: Call): Calls {
    Calls(if id in calls.entries then calls.order else calls.order + [id], calls.entries[id := call])
  }

  function Assemble(calls: Calls, event: Event): Calls {
    match event
    case ItemAdded(Some((id, call))) => Put(calls, id, call)
    case ItemDone(Some((id, call))) => Put(calls, id, call)
    case ArgumentsDelta(Some((id, delta))) =>
      var entry := Entry(calls, id);
      Put(calls, id, entry.(arguments := entry.arguments + delta))
    case ArgumentsDone(Some((id, arguments))) => Put(calls, id, Entry(calls, id).(arguments := arguments))
    case _ => calls
  }

  function Dispatched(decode: Decoders, s: Stream): Outcome<Stream> {
    if s.dataLines == [] then Ok(s.(eventName := ""))
    else
      var event := decode.event(s.eventName, Join(s.dataLines));
      var next := s.(dataLines := [], eventName := "", calls := Assemble(s.calls, event));
      match event
      case Malformed => Err(BadEvent)
      case StreamFailed(detail) => Err(Upstream(detail))
      case TextDelta(Some(delta)) => Ok(next.(texts := s.texts + [delta]))
      case ResponseCompleted(payload) =>
        if payload.None? || !payload.value.finished then Err(BadEvent) else Ok(next.(completed := payload))
      case _ => Ok(next)
  }

  // ----- lines

  function Chomp(line: seq<Byte>): seq<Byte> {
    if line != [] && line[|line| - 1] == CR then line[..|line| - 1] else line
  }

  function Find(s: seq<Byte>, b: Byte): (i: nat)
    ensures i <= |s|
  {
    if s == [] || s[0] == b then 0 else 1 + Find(s[1..], b)
  }

  function FieldValue(line: seq<Byte>): seq<Byte> {
    var colon := Find(line, COLON);
    var value := if colon < |line| then line[colon + 1..] else [];
    if value != [] && value[0] == SPACE then value[1..] else value
  }

  function ProcessedLine(decode: Decoders, s: Stream, raw: seq<Byte>): Outcome<Stream> {
    var line := Chomp(raw);
    if line == [] then Dispatched(decode, s)
    else if line[0] == COLON then Ok(s)
    else
      var field := line[..Find(line, COLON)];
      match decode.text(FieldValue(line))
      case None => Err(BadUtf8)
      case Some(text) =>
        if field == DATA then Ok(s.(dataLines := s.dataLines + [text]))
        else if field == EVENT then Ok(s.(eventName := text))
        else Ok(s)
  }

  /** All complete lines of the buffer, and what is left of it. */
  datatype Progress = Going(stream: Stream, buffer: seq<Byte>) | Broken(error: Error)

  function Consumed(decode: Decoders, s: Stream, buffer: seq<Byte>): Progress
    decreases |buffer|
  {
    var n := Find(buffer, LF);
    if n == |buffer| then Going(s, buffer)
    else
      match ProcessedLine(decode, s, buffer[..n])
      case Err(e) => Broken(e)
      case Ok(next) => Consumed(decode, next, buffer[n + 1..])
  }

  lemma {:induction false} FindIn(a: seq<Byte>, b: seq<Byte>, byte: Byte)
    ensures Find(a + b, byte) == if Find(a, byte) < |a| then Find(a, byte) else |a| + Find(b, byte)
  {
    if a == [] {
      assert a + b == b;
    } else if a[0] != byte {
      assert (a + b)[1..] == a[1..] + b;
      FindIn(a[1..], b, byte);
    }
  }

  /** Bytes may arrive in any pieces. */
  lemma {:induction false} ConsumedInPieces(decode: Decoders, s: Stream, a: seq<Byte>, b: seq<Byte>)
    ensures Consumed(decode, s, a + b)
            == match Consumed(decode, s, a)
               case Going(next, rest) => Consumed(decode, next, rest + b)
               case Broken(e) => Broken(e)
    decreases |a|
  {
    var n := Find(a, LF);
    FindIn(a, b, LF);
    if n < |a| {
      assert (a + b)[..n] == a[..n];
      assert (a + b)[n + 1..] == a[n + 1..] + b;
      match ProcessedLine(decode, s, a[..n])
      case Err(_) =>
      case Ok(next) => ConsumedInPieces(decode, next, a[n + 1..], b);
    }
  }

  // ----- the end of the stream

  /** The last line may lack its newline, the last event its blank line. */
  function Finished(decode: Decoders, s: Stream, buffer: seq<Byte>): Outcome<Stream> {
    var last := if buffer == [] then Ok(s) else ProcessedLine(decode, s, buffer);
    match last
    case Err(e) => Err(e)
    case Ok(next) => if next.dataLines == [] then Ok(next) else Dispatched(decode, next)
  }

  datatype Reply = Reply(content: seq<string>, calls: seq<Call>, id: Option<string>)

  /** `_decode_function_call`: complete calls only; whether the arguments load is opaque. */
  predicate Decodable(decode: Decoders, call: Call) {
    call.id != "" && call.name != "" && decode.loads(call.arguments)
  }

  function TextsOf(items: seq<Item>): seq<string> {
    if items == [] then []
    else TextsOf(items[..|items| - 1])
         + (if items[|items| - 1].Message? && items[|items| - 1].texts.Some? then items[|items| - 1].texts.value else [])
  }

  function CallsOf(items: seq<Item>): seq<Call> {
    if items == [] then []
    else CallsOf(items[..|items| - 1]) + (if items[|items| - 1].FunctionCall? then [items[|items| - 1].call] else [])
  }

  predicate ItemsValid(decode: Decoders, items: seq<Item>) {
    forall item :: item in items ==>
      !item.NotAnObject? && (item.Message? ==> item.texts.Some?) && (item.FunctionCall? ==> Decodable(decode, item.call))
  }

  function Assembled(calls: Calls): seq<Call> {
    seq(|calls.order|, i requires 0 <= i < |calls.order| => Entry(calls, calls.order[i]))
  }

  function ReplyOf(decode: Decoders, s: Stream): Outcome<Reply> {
    match s.completed
    case None => Err(NotCompleted)
    case Some(payload) =>
      if payload.output.Some? && (payload.output.value.None? || !ItemsValid(decode, payload.output.value.value)) then Err(BadResponse)
      else
        var items := if payload.output.Some? then payload.output.value.value else [];
        var texts := if TextsOf(items) != [] then TextsOf(items) else s.texts;
        var calls := if CallsOf(items) != [] then CallsOf(items) else Assembled(s.calls);
        if forall call :: call in calls ==> Decodable(decode, call) then Ok(Reply(texts, calls, payload.id)) else Err(BadResponse)
  }

  /** Where reading a whole stream ends. */
  function EndOf(decode: Decoders, bytes: seq<Byte>): Outcome<Stream> {
    match Consumed(decode, START, bytes)
    case Broken(e) => Err(e)
    case Going(s, buffer) => Finished(decode, s, buffer)
  }

  /** The outcome of a whole stream, however it was cut. */
  function Meaning(decode: Decoders, bytes: seq<Byte>): Outcome<Reply> {
    match EndOf(decode, bytes)
    case Err(e) => Err(e)
    case Ok(end) => ReplyOf(decode, end)
  }

  // ----- the parser

  function Concat(chunks: seq<seq<Byte>>): seq<Byte> {
    if chunks == [] then [] else Concat(chunks[..|chunks| - 1]) + chunks[|chunks| - 1]
  }

  class Parser {
    const decode: Decoders
    var dataLines: seq<string>
    var eventName: string
    var textDeltas: seq<string>
    var calls: Calls
    var completed: Option<Payload>

    function State(): Stream
      reads this
    {
      Stream(dataLines, eventName, textDeltas, calls, completed)
    }

    constructor (decode: Decoders)
      ensures State() == START && this.decode == decode
    {
      this.decode := decode;
      dataLines, eventName, textDeltas, calls, completed := [], "", [], Calls([], map[]), None;
    }

    /** `dispatch`. */
    method Dispatch() returns (error: Option<Error>)
      modifies this
      ensures Dispatched(decode, old(State())) == match error case None => Ok(State()) case Some(e) => Err(e)
    {
      if dataLines == [] {
        eventName := "";
        return None;
      }
      var rawData := Join(dataLines);
      var name := eventName;
      dataLines := [];
      eventName := "";
      match decode.event(name, rawData)
      case Malformed => return Some(BadEvent);
      case StreamFailed(detail) => return Some(Upstream(detail));
      case TextDelta(delta) =>
        if delta.Some? {
          textDeltas := textDeltas + [delta.value];
        }
        return None;
      case ItemAdded(item) =>
        if item.Some? {
          calls := Put(calls, item.value.0, item.value.1);
        }
        return None;
      case ArgumentsDelta(part) =>
        if part.Some? {
          var entry := Entry(calls, part.value.0);
          calls := Put(calls, part.value.0, entry.(arguments := entry.arguments + part.value.1));
        }
        return None;
      case ArgumentsDone(part) =>
        if part.Some? {
          calls := Put(calls, part.value.0, Entry(calls, part.value.0).(arguments := part.value.1));
        }
        return None;
      case ItemDone(item) =>
        if item.Some? {
          calls := Put(calls, item.value.0, item.value.1);
        }
        return None;
      case ResponseCompleted(payload) =>
        if payload.None? || !payload.value.finished {
          return Some(BadEvent);
        }
        completed := payload;
        return None;
      case OtherEvent => return None;
    }

    /** `process_line`. */
    method ProcessLine(raw: seq<Byte>) returns (error: Option<Error>)
      modifies this
      ensures ProcessedLine(decode, old(State()), raw) == match error case None => Ok(State()) case Some(e) => Err(e)
    {
      var line := raw;
      if line != [] && line[|line| - 1] == CR {
        line := line[..|line| - 1];
      }
      if line == [] {
        error := Dispatch();
        return;
      }
      if line[0] == COLON {
        return None;
      }
      var colon := Find(line, COLON);
      var field := line[..colon];
      var value := if colon < |line| then line[colon + 1..] else [];
      if value != [] && value[0] == SPACE {
        value := value[1..];
      }
      var decoded := decode.text(value);
      if decoded.None? {
        return Some(BadUtf8);
      }
      if field == DATA {
        dataLines := dataLines + [decoded.value];
      } else if field == EVENT {
        eventName := decoded.value;
      }
      return None;
    }

    /** The inner loop: every complete line of the buffer. */
    method Drain(buffer: seq<Byte>) returns (rest: seq<Byte>, error: Option<Error>)
      modifies this
      ensures Consumed(decode, old(State()), buffer) == match error case None => Going(State(), rest) case Some(e) => Broken(e)
    {
      rest := buffer;
      while true
        invariant Consumed(decode, State(), rest) == Consumed(decode, old(State()), buffer)
        decreases |rest|
      {
        var newline := Find(rest, LF);
        if newline == |rest| {
          return rest, None;
        }
        var line := rest[..newline];
        ghost var before := State();
        error := ProcessLine(line);
        if error.Some? {
          return;
        }
        rest := rest[newline + 1..];
      }
    }
  }

  /**
   * `parse_responses_sse`.  While the total stays within `maxBytes` the outcome, reply or error,
   * is that of the concatenation; beyond it the outcome is an error.
   */
  method ParseResponsesSse(decode: Decoders, chunks: seq<seq<Byte>>, maxBytes: nat)
    returns (outcome: Outcome<Reply>)
    ensures |Concat(chunks)| <= maxBytes ==> outcome == Meaning(decode, Concat(chunks))
    ensures |Concat(chunks)| > maxBytes ==> outcome.Err?
  {
    var parser := new Parser(decode);
    var totalBytes := 0;
    var buffer: seq<Byte> := [];
    for i := 0 to |chunks|
      invariant fresh(parser) && parser.decode == decode
      invariant totalBytes == |Concat(chunks[..i])| <= maxBytes
      invariant Consumed(decode, START, Concat(chunks[..i])) == Going(parser.State(), buffer)
      invariant Consumed(decode, parser.State(), buffer) == Going(parser.State(), buffer)
    {
      ConcatStep(chunks, i);
      ConcatGrows(chunks, i + 1);
      totalBytes := totalBytes + |chunks[i]|;
      if totalBytes > maxBytes {
        return Err(TooLarge);
      }
      ConsumedInPieces(decode, START, Concat(chunks[..i]), chunks[i]);
      var error;
      ghost var whole := Consumed(decode, START, Concat(chunks[..i + 1]));
      buffer, error := parser.Drain(buffer + chunks[i]);
      if error.Some? {
        BrokenStays(decode, chunks, i + 1);
        return Err(error.value);
      }
      RestHasNoLine(decode, START, Concat(chunks[..i + 1]));
    }
    assert chunks[..|chunks|] == chunks;
    if buffer != [] {
      var error := parser.ProcessLine(buffer);
      if error.Some? {
        return Err(error.value);
      }
    }
    if parser.dataLines != [] {
      var error := parser.Dispatch();
      if error.Some? {
        return Err(error.value);
      }
    }
    outcome := Answer(decode, parser.State());
  }

  /** The calls that were assembled, unless one of them is not complete. */
  method DecodeCalls(decode: Decoders, calls: Calls) returns (decoded: Option<seq<Call>>)
    ensures decoded == if forall call :: call in Assembled(calls) ==> Decodable(decode, call) then Some(Assembled(calls)) else None
  {
    var finalCalls: seq<Call> := [];
    for i := 0 to |calls.order|
      invariant finalCalls == Assembled(calls)[..i] && forall call :: call in finalCalls ==> Decodable(decode, call)
    {
      var call := Entry(calls, calls.order[i]);
      if !Decodable(decode, call) {
        assert Assembled(calls)[i] in Assembled(calls);
        return None;
      }
      finalCalls := finalCalls + [call];
    }
    assert finalCalls == Assembled(calls);
    return Some(finalCalls);
  }

  /** The texts and calls the completed response lists, unless an entry is not valid. */
  method ReadItems(decode: Decoders, items: seq<Item>) returns (valid: bool, texts: seq<string>, calls: seq<Call>)
    ensures valid <==> ItemsValid(decode, items)
    ensures valid ==> texts == TextsOf(items) && calls == CallsOf(items) && forall call :: call in calls ==> Decodable(decode, call)
  {
    texts, calls := [], [];
    for i := 0 to |items|
      invariant texts == TextsOf(items[..i]) && calls == CallsOf(items[..i])
      invariant ItemsValid(decode, items[..i]) && forall call :: call in calls ==> Decodable(decode, call)
    {
      assert items[..i + 1][..i] == items[..i] && items[..i + 1] == items[..i] + [items[i]];
      var item := items[i];
      if item.NotAnObject? || (item.Message? && item.texts.None?) || (item.FunctionCall? && !Decodable(decode, item.call)) {
        return false, [], [];
      }
      if item.Message? {
        texts := texts + item.texts.value;
      } else if item.FunctionCall? {
        calls := calls + [item.call];
      }
    }
    assert items[..|items|] == items;
    return true, texts, calls;
  }

  /** What follows the reading: the reply is what the completed response lists, or else what was assembled. */
  method Answer(decode: Decoders, s: Stream) returns (outcome: Outcome<Reply>)
    ensures outcome == ReplyOf(decode, s)
  {
    if s.completed.None? {
      return Err(NotCompleted);
    }
    var payload := s.completed.value;
    var finalText: seq<string>, finalCalls: seq<Call> := [], [];
    if payload.output.Some? {
      if payload.output.value.None? {
        return Err(BadResponse);
      }
      var valid;
      valid, finalText, finalCalls := ReadItems(decode, payload.output.value.value);
      if !valid {
        return Err(BadResponse);
      }
    }
    if finalText == [] {
      finalText := s.texts;
    }
    if finalCalls == [] {
      var decoded := DecodeCalls(decode, s.calls);
      if decoded.None? {
        return Err(BadResponse);
      }
      finalCalls := decoded.value;
    }
    return Ok(Reply(finalText, finalCalls, payload.id));
  }

  lemma ConcatStep(chunks: seq<seq<Byte>>, i: nat)
    requires i < |chunks|
    ensures Concat(chunks[..i + 1]) == Concat(chunks[..i]) + chunks[i]
  {
    assert chunks[..i + 1][..i] == chunks[..i];
  }

  lemma {:induction false} ConcatGrows(chunks: seq<seq<Byte>>, i: nat)
    requires i <= |chunks|
    ensures Concat(chunks[..i]) <= Concat(chunks)
  {
    if i == |chunks| {
      assert chunks[..i] == chunks;
    } else {
      assert chunks[..|chunks| - 1][..i] == chunks[..i];
      ConcatGrows(chunks[..|chunks| - 1], i);
    }
  }

  lemma BrokenStays(decode: Decoders, chunks: seq<seq<Byte>>, i: nat)
    requires i <= |chunks| && Consumed(decode, START, Concat(chunks[..i])).Broken?
    ensures Consumed(decode, START, Concat(chunks)) == Consumed(decode, START, Concat(chunks[..i]))
  {
    ConcatGrows(chunks, i);
    var head := Concat(chunks[..i]);
    var tail := Concat(chunks)[|head|..];
    assert head + tail == Concat(chunks);
    ConsumedInPieces(decode, START, head, tail);
  }

  lemma {:induction false} RestHasNoLine(decode: Decoders, s: Stream, bytes: seq<Byte>)
    ensures match Consumed(decode, s, bytes)
            case Going(next, rest) => Find(rest, LF) == |rest| && Consumed(decode, next, rest) == Going(next, rest)
            case Broken(_) => true
    decreases |bytes|
  {
    var n := Find(bytes, LF);
    if n < |bytes| {
      match ProcessedLine(decode, s, bytes[..n])
      case Err(_) =>
      case Ok(next) => RestHasNoLine(decode, next, bytes[n + 1..]);
    }
  }

  // ----- the unfinished last event

  /** Unlike a browser's event source, the parser dispatches an event that lacks its closing blank line. */
  lemma UnfinishedEventIsDispatched(decode: Decoders, bytes: seq<Byte>)
    ensures Meaning(decode, bytes) == Meaning(decode, bytes + [LF, LF])
  {
    ConsumedInPieces(decode, START, bytes, [LF, LF]);
    match Consumed(decode, START, bytes)
    case Broken(_) =>
    case Going(s, buffer) =>
      RestHasNoLine(decode, START, bytes);
      FindIn(buffer, [LF, LF], LF);
      var all := buffer + [LF, LF];
      assert all[..|buffer|] == buffer && all[|buffer| + 1..] == [LF];
      BlankLineAfter(decode, s, buffer);
  }

  lemma BlankLine(decode: Decoders, s: Stream, more: seq<Byte>)
    ensures var sent := Dispatched(decode, s);
            Consumed(decode, s, [LF] + more) == if sent.Ok? then Consumed(decode, sent.value, more) else Broken(sent.error)
  {
    var buffer := [LF] + more;
    assert Find(buffer, LF) == 0 && buffer[..0] == [] && buffer[1..] == more;
    assert ProcessedLine(decode, s, []) == Dispatched(decode, s);
  }

  /** Dispatching an empty block only forgets the event name. */
  lemma DispatchedTwice(decode: Decoders, s: Stream)
    ensures Dispatched(decode, s).Ok? ==> Dispatched(decode, s).value.dataLines == []
  {
  }

  /** One blank line does what the end of the stream does. */
  lemma BlankIsEnd(decode: Decoders, s: Stream)
    ensures var read, end := Consumed(decode, s, [LF]), Finished(decode, s, []);
            && (read.Broken? ==> end == Err(read.error))
            && (read.Going? ==> read.buffer == [] && read.stream.dataLines == []
                                && end.Ok? && read.stream == end.value.(eventName := read.stream.eventName))
  {
    assert [LF] + [] == [LF];
    BlankLine(decode, s, []);
    DispatchedTwice(decode, s);
  }

  lemma BlankLineAfter(decode: Decoders, s: Stream, buffer: seq<Byte>)
    requires Find(buffer, LF) == |buffer|
    ensures var ends := match Consumed(decode, s, buffer + [LF, LF])
                        case Broken(e) => Err(e)
                        case Going(t, rest) => Finished(decode, t, rest);
            var now := Finished(decode, s, buffer);
            (ends.Err? <==> now.Err?) && (ends.Err? ==> ends == now)
            && (ends.Ok? ==> ends.value == now.value.(eventName := ends.value.eventName))
  {
    var all := buffer + [LF, LF];
    assert [LF, LF] == [LF] + [LF] && [LF] + [] == [LF];
    if buffer == [] {
      assert all == [LF] + [LF];
      BlankLine(decode, s, [LF]);
      BlankIsEnd(decode, s);
      BlankLine(decode, s, []);
      match Dispatched(decode, s)
      case Err(_) =>
      case Ok(t) => BlankIsEnd(decode, t);
    } else {
      FindIn(buffer, [LF, LF], LF);
      assert all[..|buffer|] == buffer && all[|buffer| + 1..] == [LF];
      match ProcessedLine(decode, s, buffer)
      case Err(_) =>
      case Ok(next) => BlankIsEnd(decode, next);
    }
  }

  // ----- the assembled arguments

  /** The event one line dispatches, if any. */
  function EventOf(decode: Decoders, s: Stream, raw: seq<Byte>): seq<Event> {
    if Chomp(raw) == [] && s.dataLines != [] then [decode.event(s.eventName, Join(s.dataLines))] else []
  }

  /** The events dispatched while these bytes are consumed. */
  function EventsIn(decode: Decoders, s: Stream, buffer: seq<Byte>): seq<Event>
    decreases |buffer|
  {
    var n := Find(buffer, LF);
    if n == |buffer| then []
    else
      match ProcessedLine(decode, s, buffer[..n])
      case Err(_) => EventOf(decode, s, buffer[..n])
      case Ok(next) => EventOf(decode, s, buffer[..n]) + EventsIn(decode, next, buffer[n + 1..])
  }

  function AssembleAll(calls: Calls, events: seq<Event>): Calls
    decreases events
  {
    if events == [] then calls else AssembleAll(Assemble(calls, events[0]), events[1..])
  }

  lemma {:induction false} AssembleInTwo(calls: Calls, a: seq<Event>, b: seq<Event>)
    ensures AssembleAll(calls, a + b) == AssembleAll(AssembleAll(calls, a), b)
    decreases a
  {
    if a == [] {
      assert a + b == b;
    } else {
      assert (a + b)[1..] == a[1..] + b;
      AssembleInTwo(Assemble(calls, a[0]), a[1..], b);
    }
  }

  lemma LineAssembles(decode: Decoders, s: Stream, raw: seq<Byte>)
    requires ProcessedLine(decode, s, raw).Ok?
    ensures ProcessedLine(decode, s, raw).value.calls == AssembleAll(s.calls, EventOf(decode, s, raw))
  {
    if Chomp(raw) == [] && s.dataLines != [] {
      var event := decode.event(s.eventName, Join(s.dataLines));
      assert [event][1..] == [];
      assert Dispatched(decode, s).value.calls == Assemble(s.calls, event);
    }
  }

  lemma OneLine(decode: Decoders, s: Stream, buffer: seq<Byte>, line: seq<Byte>, rest: seq<Byte>)
    requires Find(buffer, LF) < |buffer| && line == buffer[..Find(buffer, LF)] && rest == buffer[Find(buffer, LF) + 1..]
    requires Consumed(decode, s, buffer).Going?
    ensures ProcessedLine(decode, s, line).Ok?
    ensures Consumed(decode, s, buffer) == Consumed(decode, ProcessedLine(decode, s, line).value, rest)
    ensures EventsIn(decode, s, buffer) == EventOf(decode, s, line) + EventsIn(decode, ProcessedLine(decode, s, line).value, rest)
  {
  }

  lemma {:induction false} CallsFollowEvents(decode: Decoders, s: Stream, buffer: seq<Byte>)
    requires Consumed(decode, s, buffer).Going?
    ensures Consumed(decode, s, buffer).stream.calls == AssembleAll(s.calls, EventsIn(decode, s, buffer))
    decreases |buffer|
  {
    var n := Find(buffer, LF);
    if n < |buffer| {
      var line, rest := buffer[..n], buffer[n + 1..];
      OneLine(decode, s, buffer, line, rest);
      var next := ProcessedLine(decode, s, line).value;
      LineAssembles(decode, s, line);
      CallsFollowEvents(decode, next, rest);
      AssembleInTwo(s.calls, EventOf(decode, s, line), EventsIn(decode, next, rest));
    }
  }

  /** The event gives the call its arguments anew. */
  predicate Sets(event: Event, id: string) {
    match event
    case ItemAdded(Some((i, _))) => i == id
    case ItemDone(Some((i, _))) => i == id
    case ArgumentsDone(Some((i, _))) => i == id
    case _ => false
  }

  function Given(event: Event, id: string): string
    requires Sets(event, id)
  {
    match event
    case ItemAdded(Some((_, call))) => call.arguments
    case ItemDone(Some((_, call))) => call.arguments
    case ArgumentsDone(Some((_, arguments))) => arguments
  }

  function DeltaOf(event: Event, id: string): string {
    match event
    case ArgumentsDelta(Some((i, delta))) => if i == id then delta else ""
    case _ => ""
  }

  function Deltas(events: seq<Event>, id: string): string {
    if events == [] then "" else DeltaOf(events[0], id) + Deltas(events[1..], id)
  }

  lemma DeltaAdds(calls: Calls, event: Event, id: string)
    requires !Sets(event, id)
    ensures Entry(Assemble(calls, event), id).arguments == Entry(calls, id).arguments + DeltaOf(event, id)
  {
  }

  lemma {:induction false} DeltasAppend(calls: Calls, events: seq<Event>, id: string)
    requires forall j :: 0 <= j < |events| ==> !Sets(events[j], id)
    ensures Entry(AssembleAll(calls, events), id).arguments == Entry(calls, id).arguments + Deltas(events, id)
    decreases events
  {
    if events != [] {
      DeltaAdds(calls, events[0], id);
      DeltasAppend(Assemble(calls, events[0]), events[1..], id);
      Associative(Entry(calls, id).arguments, DeltaOf(events[0], id), Deltas(events[1..], id));
    }
  }

  lemma Associative(a: string, b: string, c: string)
    ensures (a + b) + c == a + (b + c)
  {
  }

  /** A call's arguments: those of the last event that gave them, then the deltas after it. */
  lemma {:induction false} ArgumentsAre(calls: Calls, events: seq<Event>, id: string, k: nat)
    requires k < |events| && Sets(events[k], id)
    requires forall j :: k < j < |events| ==> !Sets(events[j], id)
    ensures Entry(AssembleAll(calls, events), id).arguments == Given(events[k], id) + Deltas(events[k + 1..], id)
    decreases events
  {
    if k == 0 {
      DeltasAppend(Assemble(calls, events[0]), events[1..], id);
    } else {
      ArgumentsAre(Assemble(calls, events[0]), events[1..], id, k - 1);
      assert events[1..][k..] == events[k + 1..];
    }
  }

  /** Without such an event: all its deltas. */
  lemma DeltasAlone(events: seq<Event>, id: string)
    requires forall j :: 0 <= j < |events| ==> !Sets(events[j], id)
    ensures Entry(AssembleAll(START.calls, events), id).arguments == Deltas(events, id)
  {
    DeltasAppend(START.calls, events, id);
    assert "" + Deltas(events, id) == Deltas(events, id);
  }

  /** The arguments a list of events gives a call. */
  function ArgumentsIn(events: seq<Event>, id: string): string {
    match LastSetting(events, id)
    case Some(k) => Given(events[k], id) + Deltas(events[k + 1..], id)
    case None => Deltas(events, id)
  }

  function LastSetting(events: seq<Event>, id: string): (k: Option<nat>)
    ensures k.Some? ==> k.value < |events| && Sets(events[k.value], id) && forall j :: k.value < j < |events| ==> !Sets(events[j], id)
    ensures k.None? ==> forall j :: 0 <= j < |events| ==> !Sets(events[j], id)
  {
    if events == [] then None
    else if Sets(events[|events| - 1], id) then Some(|events| - 1)
    else LastSetting(events[..|events| - 1], id)
  }

  /** The events dispatched by a last line without its newline and by the end of the stream. */
  function EventsAtEnd(decode: Decoders, s: Stream, buffer: seq<Byte>): seq<Event> {
    var line := if buffer == [] then [] else EventOf(decode, s, buffer);
    match if buffer == [] then Ok(s) else ProcessedLine(decode, s, buffer)
    case Err(_) => line
    case Ok(next) => line + if next.dataLines == [] then [] else [decode.event(next.eventName, Join(next.dataLines))]
  }

  /** All events of a stream that can be read to its end, the unfinished last one included. */
  function EventsOf(decode: Decoders, bytes: seq<Byte>): seq<Event> {
    EventsIn(decode, START, bytes)
    + match Consumed(decode, START, bytes)
      case Broken(_) => []
      case Going(s, buffer) => EventsAtEnd(decode, s, buffer)
  }

  lemma EndAssembles(decode: Decoders, s: Stream, buffer: seq<Byte>)
    requires Finished(decode, s, buffer).Ok?
    ensures Finished(decode, s, buffer).value.calls == AssembleAll(s.calls, EventsAtEnd(decode, s, buffer))
  {
    var line := if buffer == [] then [] else EventOf(decode, s, buffer);
    var next := if buffer == [] then s else ProcessedLine(decode, s, buffer).value;
    if buffer != [] {
      LineAssembles(decode, s, buffer);
    }
    var last := if next.dataLines == [] then [] else [decode.event(next.eventName, Join(next.dataLines))];
    AssembleInTwo(s.calls, line, last);
    if last != [] {
      assert last[1..] == [];
      assert AssembleAll(next.calls, last) == Assemble(next.calls, last[0]);
      assert Dispatched(decode, next).value.calls == Assemble(next.calls, last[0]);
    }
  }

  /** The calls a stream ends with are those of its events. */
  lemma EndCallsFollowEvents(decode: Decoders, bytes: seq<Byte>)
    requires EndOf(decode, bytes).Ok?
    ensures EndOf(decode, bytes).value.calls == AssembleAll(START.calls, EventsOf(decode, bytes))
  {
    var read := Consumed(decode, START, bytes);
    CallsFollowEvents(decode, START, bytes);
    EndAssembles(decode, read.stream, read.buffer);
    AssembleInTwo(START.calls, EventsIn(decode, START, bytes), EventsAtEnd(decode, read.stream, read.buffer));
  }

  /** The calls that the completed response itself lists; they take the place of the assembled ones. */
  function ListedCalls(s: Stream): seq<Call> {
    match s.completed
    case Some(Payload(_, Some(Some(items)), _)) => CallsOf(items)
    case _ => []
  }

  /**
   * A reply's calls, for any stream that is accepted and whose completed response lists none itself:
   * one for each id, and the arguments of each are what the events of the stream give it.
   */
  lemma ReplyCallsAre(decode: Decoders, bytes: seq<Byte>, i: nat) returns (id: string)
    requires Meaning(decode, bytes).Ok? && ListedCalls(EndOf(decode, bytes).value) == []
    requires i < |Meaning(decode, bytes).value.calls|
    ensures var calls := AssembleAll(START.calls, EventsOf(decode, bytes));
            && |Meaning(decode, bytes).value.calls| == |calls.order| && id == calls.order[i]
            && Meaning(decode, bytes).value.calls[i] == Entry(calls, id)
    ensures Meaning(decode, bytes).value.calls[i].arguments == ArgumentsIn(EventsOf(decode, bytes), id)
  {
    var events := EventsOf(decode, bytes);
    EndCallsFollowEvents(decode, bytes);
    var end := EndOf(decode, bytes).value;
    assert Meaning(decode, bytes).value.calls == Assembled(end.calls);
    id := end.calls.order[i];
    match LastSetting(events, id)
    case Some(k) => ArgumentsAre(START.calls, events, id, k);
    case None => DeltasAlone(events, id);
  }

  /** Otherwise the listed calls are the reply's. */
  lemma ListedCallsWin(decode: Decoders, bytes: seq<Byte>)
    requires Meaning(decode, bytes).Ok? && ListedCalls(EndOf(decode, bytes).value) != []
    ensures Meaning(decode, bytes).value.calls == ListedCalls(EndOf(decode, bytes).value)
  {
    var end := EndOf(decode, bytes).value;
    assert end.completed.Some? && end.completed.value.output.Some? && end.completed.value.output.value.Some?;
  }
}
