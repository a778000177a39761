/**
 * The incremental text reader of the portable importer
 * (src/ah_there_it_is/portable_stream.py, `_ChunkedText`): bytes arrive in
 * chunks, characters leave one at a time.  The source returns full chunks until
 * the last, as a buffered file does.
 *
 * `peek` reads at most one chunk, so a chunk that completes no character makes
 * it answer "" although the file goes on.  What a reader of any chunk size
 * delivers up to such an answer, and what follows, is the function `Ahead`.
 */
module ChunkedText {
  import opened Utf8

  /** What `peek` and `take` report: a character, "" for the end of input, or a decoding error. */
  datatype Peeked = Got(c: char) | End | Broken

  /** After the characters: the end, a decoding error, or "" and `more` further such answers before the file goes on. */
  datatype Tail = Finished | Undecodable | Gap(more: nat)

  /** What is still delivered without a break, and how that ends. */
  datatype View = View(chars: string, tail: Tail)

  function Min(a: nat, b: nat): nat {
    if a < b then a else b
  }

  /** Bytes the incremental decoder may hold back: not yet a character, not yet malformed. */
  ghost predicate Undecided(pending: seq<Byte>) {
    Decode(pending) == Decoded("", pending, true)
  }

  /** What a reader with these characters unread, these bytes held back and these bytes ahead delivers. */
  function Ahead(unread: string, pending: seq<Byte>, ahead: seq<Byte>, size: nat): View
    requires size >= 1
    decreases |ahead|
  {
    if ahead == [] then View(unread, if pending == [] then Finished else Undecodable)
    else
      var n := Min(size, |ahead|);
      var d := Decode(pending + ahead[..n]);
      if !d.wellFormed then View(unread, Undecodable)
      else if d.chars == "" then View(unread, Gap(Hollow(d.pending, ahead[n..], size)))
      else Ahead(unread + d.chars, d.pending, ahead[n..], size)
  }

  /** How many of the next chunks, one after the other, complete no character. */
  function Hollow(pending: seq<Byte>, ahead: seq<Byte>, size: nat): nat
    requires size >= 1
    decreases |ahead|
  {
    if ahead == [] then 0
    else
      var n := Min(size, |ahead|);
      var d := Decode(pending + ahead[..n]);
      if d.wellFormed && d.chars == "" then 1 + Hollow(d.pending, ahead[n..], size) else 0
  }

  /** A whole file as a reader delivers it. */
  function Delivered(file: seq<Byte>, size: nat): View
    requires size >= 1
  {
    Ahead("", [], file, size)
  }

  /** Behind a break: an error, or a character of more than one byte, which chunks of four bytes cannot split off. */
  predicate Foreign(v: View, size: nat) {
    if v.chars == "" then v.tail.Undecodable? else v.chars[0] as int >= 0x80 && size < 4
  }

  /** One "" in the middle of the file. */
  predicate Crossed(before: View, after: View, size: nat) {
    before.chars == "" && before.tail.Gap?
    && if before.tail.more > 0 then after == View("", Gap(before.tail.more - 1)) else Foreign(after, size)
  }

  // ----- what reading one chunk does

  /** The next chunk and what lies behind it. */
  lemma NextChunk(file: seq<Byte>, at: nat, size: nat)
    requires at <= |file|
    ensures var ahead, stop := file[at..], Min(at + size, |file|);
            && at <= stop && ahead[..Min(size, |ahead|)] == file[at..stop] && ahead[Min(size, |ahead|)..] == file[stop..]
  {
  }

  /** Characters in front of those of a view. */
  lemma {:induction false} UnreadFirst(unread: string, pending: seq<Byte>, ahead: seq<Byte>, size: nat)
    requires size >= 1
    ensures var v := Ahead("", pending, ahead, size);
            Ahead(unread, pending, ahead, size) == v.(chars := unread + v.chars)
    decreases |ahead|
  {
    assert unread + "" == unread;
    if ahead != [] {
      var n := Min(size, |ahead|);
      var d := Decode(pending + ahead[..n]);
      if d.wellFormed && d.chars != "" {
        UnreadFirst(unread + d.chars, d.pending, ahead[n..], size);
        UnreadFirst(d.chars, d.pending, ahead[n..], size);
        assert "" + d.chars == d.chars;
        var rest := Ahead("", d.pending, ahead[n..], size).chars;
        assert (unread + d.chars) + rest == unread + (d.chars + rest);
      }
    }
  }

  /** A chunk of characters or of none, read when nothing is unread. */
  lemma ChunkRead(pending: seq<Byte>, ahead: seq<Byte>, size: nat)
    requires size >= 1 && ahead != [] && Undecided(pending)
    requires Decode(pending + ahead[..Min(size, |ahead|)]).wellFormed
    ensures var n := Min(size, |ahead|);
            var d := Decode(pending + ahead[..n]);
            var before, after := Ahead("", pending, ahead, size), Ahead(d.chars, d.pending, ahead[n..], size);
            && Undecided(d.pending)
            && if d.chars != "" then after == before && before.chars != "" else Crossed(before, after, size)
  {
    var n := Min(size, |ahead|);
    var d := Decode(pending + ahead[..n]);
    PendingIsUndecided(pending + ahead[..n]);
    if d.chars == "" {
      assert d.pending == pending + ahead[..n];
      AfterHollow(d.pending, ahead[n..], size);
    } else {
      assert "" + d.chars == d.chars;
      UnreadFirst(d.chars, d.pending, ahead[n..], size);
    }
  }

  /** Behind chunks that complete nothing: more of them, the error, or the character they began. */
  lemma AfterHollow(pending: seq<Byte>, ahead: seq<Byte>, size: nat)
    requires size >= 1 && Undecided(pending) && pending != []
    requires size >= 4 ==> ahead == []
    ensures var v, more := Ahead("", pending, ahead, size), Hollow(pending, ahead, size);
            if more > 0 then v == View("", Gap(more - 1)) else Foreign(v, size)
  {
    if ahead != [] {
      var n := Min(size, |ahead|);
      var d := Decode(pending + ahead[..n]);
      if d.wellFormed && d.chars != "" {
        BeganWide(pending, ahead[..n]);
        UnreadFirst(d.chars, d.pending, ahead[n..], size);
        assert "" + d.chars == d.chars;
      }
    }
  }

  /** Bytes held back are the beginning of a character of more than one byte. */
  lemma BeganWide(pending: seq<Byte>, chunk: seq<Byte>)
    requires Undecided(pending) && pending != [] && Decode(pending + chunk).chars != ""
    ensures Decode(pending + chunk).chars[0] as int >= 0x80
  {
    assert DecodeOne(pending).NeedMore?;
    assert (pending + chunk)[0] == pending[0];
    assert Width(pending[0]) >= 2;
    WideScalar(pending + chunk);
  }

  lemma WideScalar(s: seq<Byte>)
    requires s != [] && Width(s[0]) >= 2 && DecodeOne(s).Scalar?
    ensures DecodeOne(s).c as int >= 0x80
  {
  }

  lemma OneCharacterTaken(unread: string, pending: seq<Byte>, ahead: seq<Byte>, size: nat)
    requires unread != "" && size >= 1
    ensures var now := Ahead(unread, pending, ahead, size);
            && now.chars != "" && now.chars[0] == unread[0]
            && Ahead(unread[1..], pending, ahead, size) == now.(chars := now.chars[1..])
  {
    UnreadFirst(unread, pending, ahead, size);
    UnreadFirst(unread[1..], pending, ahead, size);
    var rest := Ahead("", pending, ahead, size).chars;
    assert (unread + rest)[1..] == unread[1..] + rest;
  }

  lemma {:induction false} DecodeBounds(s: seq<Byte>)
    ensures |Decode(s).chars| + |Decode(s).pending| <= |s|
    decreases |s|
  {
    match DecodeOne(s)
    case Scalar(c, w) => DecodeBounds(s[w..]);
    case _ =>
  }

  /**
   * `view` is what is still to be delivered.  Quantified over the bytes ahead,
   * so that a caller can carry it along without unfolding the decoder.
   */
  ghost predicate Tracks(file: seq<Byte>, size: nat, readAt: nat, pending: seq<Byte>, unread: string, view: View)
    requires readAt <= |file| && size >= 1
  {
    forall ahead {:trigger Ahead(unread, pending, ahead, size)} :: file[..readAt] + ahead == file ==>
      Undecided(pending) && view == Ahead(unread, pending, ahead, size)
  }

  lemma TracksMeans(file: seq<Byte>, size: nat, readAt: nat, pending: seq<Byte>, unread: string, view: View)
    requires readAt <= |file| && size >= 1
    ensures Tracks(file, size, readAt, pending, unread, view)
            <==> Undecided(pending) && view == Ahead(unread, pending, file[readAt..], size)
  {
    assert file[..readAt] + file[readAt..] == file;
    forall ahead | file[..readAt] + ahead == file ensures ahead == file[readAt..] {
      assert (file[..readAt] + ahead)[readAt..] == ahead;
    }
    var now := Ahead(unread, pending, file[readAt..], size);
  }

  class Reader {
    const file: seq<Byte>
    const chunkSize: nat
    var readAt: nat            // bytes handed out by the source so far
    var pending: seq<Byte>     // undecided bytes held by the incremental decoder
    var buffer: string
    var position: nat
    var offset: nat
    var eof: bool

    ghost const whole: View    // what the file delivers in all
    ghost var view: View       // what is still to be delivered
    ghost var unbroken: bool   // no "" has been answered in the middle of the file

    ghost predicate Valid()
      reads this
    {
      && chunkSize >= 1
      && position <= |buffer| && readAt <= |file|
      && (eof ==> readAt == |file| && pending == [])
      && Tracks(file, chunkSize, readAt, pending, buffer[position..], view)
      && (unbroken ==> Counted())
    }

    /** `offset` counts the characters of the file consumed so far. */
    ghost predicate Counted()
      reads this
    {
      offset <= |whole.chars| && view == whole.(chars := whole.chars[offset..])
    }

    /** A bound on the characters still to come, behind breaks too. */
    ghost function Fuel(): nat
      reads this
    {
      (if readAt <= |file| then |file| - readAt else 0) + |pending| + if position <= |buffer| then |buffer| - position else 0
    }

    constructor (file: seq<Byte>, chunkSize: nat)
      requires chunkSize >= 1
      ensures Valid() && this.file == file && this.chunkSize == chunkSize && offset == 0 && unbroken
      ensures view == whole == Delivered(file, chunkSize)
    {
      this.file, this.chunkSize := file, chunkSize;
      whole, view, unbroken := Delivered(file, chunkSize), Delivered(file, chunkSize), true;
      readAt, pending, buffer, position, offset, eof := 0, [], "", 0, 0, false;
      new;
      assert file[0..] == file && view.chars[0..] == view.chars;
      TracksMeans(file, chunkSize, 0, [], "", view);
    }

    /** `_fill`, called when nothing is unread: one read, decoded onto the buffer.  False when the bytes are not UTF-8. */
    method Fill() returns (ok: bool)
      requires Valid() && position == |buffer|
      modifies this`readAt, this`pending, this`buffer, this`position, this`eof, this`view, this`unbroken
      ensures ok ==> Valid() && Fuel() <= old(Fuel())
      ensures ok && position < |buffer| ==> view == old(view) && view.chars != ""
      ensures ok && position == |buffer| ==>
        (view == old(view) == View("", Finished)) || Crossed(old(view), view, chunkSize)
      ensures ok && unbroken ==> view == old(view) && old(unbroken)
      ensures ok && view == old(view) ==> unbroken == old(unbroken)
      ensures !ok ==> old(view) == View("", Undecodable)
    {
      TracksMeans(file, chunkSize, readAt, pending, buffer[position..], view);
      assert buffer[position..] == "";
      if eof {
        return true;
      }
      if position > 0 {
        buffer := buffer[position..];
        position := 0;
      }
      var stop := Min(readAt + chunkSize, |file|);
      var chunk := file[readAt..stop];
      if chunk == [] {
        if pending != [] {
          return false;
        }
        eof := true;
        return true;
      }
      ok := Consume(stop);
    }

    /** A chunk that is not empty is decoded onto the empty buffer. */
    method Consume(stop: nat) returns (ok: bool)
      requires Valid() && position == 0 && buffer == "" && !eof && readAt < stop == Min(readAt + chunkSize, |file|)
      modifies this`readAt, this`pending, this`buffer, this`view, this`unbroken
      ensures ok ==> Valid() && Fuel() <= old(Fuel())
      ensures ok && buffer != "" ==> view == old(view) && view.chars != "" && unbroken == old(unbroken)
      ensures ok && buffer == "" ==> Crossed(old(view), view, chunkSize) && !unbroken
      ensures !ok ==> old(view) == View("", Undecodable)
    {
      assert buffer[0..] == "";
      TracksMeans(file, chunkSize, readAt, pending, "", view);
      ghost var ahead := file[readAt..];
      var chunk := file[readAt..stop];
      NextChunk(file, readAt, chunkSize);
      var d := Decode(pending + chunk);
      if !d.wellFormed {
        return false;
      }
      ChunkRead(pending, ahead, chunkSize);
      DecodeBounds(pending + chunk);
      Receive(d, stop);
      return true;
    }

    /** The bookkeeping of a chunk that decoded to `d`. */
    method Receive(d: Decoded, stop: nat)
      requires chunkSize >= 1 && position == 0 && buffer == "" && !eof && readAt < stop <= |file|
      requires Undecided(d.pending) && |d.chars| + |d.pending| <= |pending| + stop - readAt
      requires var after := Ahead(d.chars, d.pending, file[stop..], chunkSize);
               if d.chars != "" then after == view else Crossed(view, after, chunkSize)
      requires unbroken ==> Counted()
      modifies this`readAt, this`pending, this`buffer, this`view, this`unbroken
      ensures Valid() && Fuel() <= old(Fuel()) && buffer == d.chars
      ensures d.chars != "" ==> view == old(view) && unbroken == old(unbroken)
      ensures d.chars == "" ==> Crossed(old(view), view, chunkSize) && !unbroken
    {
      buffer := buffer + d.chars;
      pending := d.pending;
      readAt := stop;
      assert buffer == d.chars == buffer[0..];
      if d.chars == "" {
        view, unbroken := Ahead(d.chars, d.pending, file[stop..], chunkSize), false;
      }
      TracksMeans(file, chunkSize, readAt, pending, buffer, view);
    }

    /** `peek`: the next character, "" at the end or at a break, or a decoding error. */
    method Peek() returns (r: Peeked)
      requires Valid()
      modifies this`readAt, this`pending, this`buffer, this`position, this`eof, this`view, this`unbroken
      ensures !r.Broken? ==> Valid() && Fuel() <= old(Fuel())
      ensures r.Got? ==> view == old(view) && view.chars != "" && r.c == view.chars[0]
                         && position < |buffer| && unbroken == old(unbroken)
      ensures r.End? ==> (view == old(view) == View("", Finished) && unbroken == old(unbroken))
                         || (Crossed(old(view), view, chunkSize) && !unbroken)
      ensures r.Broken? ==> old(view) == View("", Undecodable)
    {
      if position >= |buffer| {
        var ok := Fill();
        if !ok {
          return Broken;
        }
      }
      if position >= |buffer| {
        return End;
      }
      TracksMeans(file, chunkSize, readAt, pending, buffer[position..], view);
      OneCharacterTaken(buffer[position..], pending, file[readAt..], chunkSize);
      return Got(buffer[position]);
    }

    /** `take`: a delivered character is the next one, and is counted once. */
    method Take() returns (r: Peeked)
      requires Valid()
      modifies this`readAt, this`pending, this`buffer, this`position, this`eof, this`view, this`unbroken, this`offset
      ensures !r.Broken? ==> Valid() && Fuel() <= old(Fuel())
      ensures r.Got? ==> old(view).chars != "" && r.c == old(view).chars[0] && Fuel() < old(Fuel())
                         && view == old(view).(chars := old(view).chars[1..])
                         && offset == old(offset) + 1 && unbroken == old(unbroken)
      ensures !r.Got? ==> offset == old(offset)
      ensures r.End? ==> (view == old(view) == View("", Finished) && unbroken == old(unbroken))
                         || (Crossed(old(view), view, chunkSize) && !unbroken)
      ensures r.Broken? ==> old(view) == View("", Undecodable)
    {
      r := Peek();
      if r.Got? {
        TracksMeans(file, chunkSize, readAt, pending, buffer[position..], view);
        OneCharacterTaken(buffer[position..], pending, file[readAt..], chunkSize);
        assert buffer[position..][1..] == buffer[position + 1..];
        position := position + 1;
        offset := offset + 1;
        view := view.(chars := view.chars[1..]);
        TracksMeans(file, chunkSize, readAt, pending, buffer[position..], view);
      }
    }
  }

  // ----- when the whole file is delivered

  /** The chunk that begins at `at` completes a character. */
  predicate CompletesAt(file: seq<Byte>, size: nat, at: nat)
    requires at <= |file|
  {
    |Decode(file[..Min(at + size, |file|)]).chars| > |Decode(file[..at]).chars|
  }

  /** Every chunk from the boundary `at` on completes a character. */
  predicate RestCompletes(file: seq<Byte>, size: nat, at: nat)
    requires size >= 1
    decreases |file| - at
  {
    at < |file| ==> CompletesAt(file, size, at) && RestCompletes(file, size, at + size)
  }

  /** Every chunk completes a character. */
  predicate EveryChunkCompletes(file: seq<Byte>, size: nat)
    requires size >= 1
  {
    RestCompletes(file, size, 0)
  }

  /** The file decoded up to one chunk boundary and up to the next. */
  lemma BoundaryToBoundary(file: seq<Byte>, at: nat, stop: nat)
    requires at < stop <= |file| && Decode(file[..at]).wellFormed
    ensures var sofar := Decode(file[..at]);
            var d := Decode(sofar.pending + file[at..stop]);
            if d.wellFormed then Decode(file[..stop]) == Decoded(sofar.chars + d.chars, d.pending, true)
            else !ValidUtf8(file)
  {
    assert file[..at] + file[at..stop] == file[..stop] && file[..stop] + file[stop..] == file;
    DecodeInPieces(file[..at], file[at..stop]);
    DecodeInPieces(file[..stop], file[stop..]);
  }

  /** A chunk of a valid file that completes no character stands before one of more than one byte. */
  lemma StopsShort(file: seq<Byte>, at: nat, stop: nat)
    requires at < stop <= |file| && ValidUtf8(file) && Decode(file[..stop]).chars == Decode(file[..at]).chars
    ensures Decode(file[..at]).chars < Decode(file).chars && WideAt(Decode(file).chars, |Decode(file[..at]).chars|)
  {
    MoreIsToCome(file, at);
    if stop < |file| {
      MoreIsToCome(file, stop);
      HeldBack(file, at, stop);
    } else {
      assert file[..stop] == file;
    }
  }

  /** A chunk that completes no character is held back. */
  lemma HeldBack(file: seq<Byte>, at: nat, stop: nat)
    requires at < stop <= |file| && Decode(file[..at]).wellFormed && Decode(file[..stop]).wellFormed
    requires Decode(file[..stop]).chars == Decode(file[..at]).chars
    ensures Decode(file[..stop]).pending != []
  {
    assert file[..at] + file[at..stop] == file[..stop];
    DecodeInPieces(file[..at], file[at..stop]);
    var sofar, d := Decode(file[..at]), Decode(Decode(file[..at]).pending + file[at..stop]);
    assert |sofar.chars + d.chars| == |sofar.chars|;
  }

  lemma MoreIsToCome(file: seq<Byte>, at: nat)
    requires at < |file| && ValidUtf8(file)
    ensures Decode(file[..at]).wellFormed && Decode(file[..at]).chars < Decode(file).chars
    ensures Decode(file[..at]).pending != [] ==> WideAt(Decode(file).chars, |Decode(file[..at]).chars|)
  {
    assert file[..at] + file[at..] == file;
    DecodeInPieces(file[..at], file[at..]);
    var pending := Decode(file[..at]).pending;
    WholeHasMore(pending + file[at..]);
    if pending != [] {
      PendingIsUndecided(file[..at]);
      BeganWide(pending, file[at..]);
    }
  }

  /** A character of more than one byte stands there. */
  predicate WideAt(s: string, i: nat) {
    i < |s| && s[i] as int >= 0x80
  }

  /** From any chunk boundary on: the end is reached exactly when the file is valid and every chunk completes. */
  lemma {:induction false} ReachesTheEnd(file: seq<Byte>, size: nat, at: nat)
    requires size >= 1 && at <= |file| && Decode(file[..at]).wellFormed
    ensures var sofar := Decode(file[..at]);
            var v := Ahead(sofar.chars, sofar.pending, file[at..], size);
            && (v.tail.Finished? <==> ValidUtf8(file) && RestCompletes(file, size, at))
            && (v.tail.Finished? ==> v.chars == Decode(file).chars)
            && (ValidUtf8(file) && !v.tail.Finished? ==>
                  v.tail.Gap? && v.chars < Decode(file).chars && WideAt(Decode(file).chars, |v.chars|))
    decreases |file| - at
  {
    if at == |file| {
      assert file[..at] == file;
    } else {
      var stop := Min(at + size, |file|);
      var ahead := file[at..];
      NextChunk(file, at, size);
      BoundaryToBoundary(file, at, stop);
      var sofar := Decode(file[..at]);
      var d := Decode(sofar.pending + file[at..stop]);
      var v := Ahead(sofar.chars, sofar.pending, ahead, size);
      if d.wellFormed && d.chars != "" {
        ReachesTheEnd(file, size, stop);
        assert CompletesAt(file, size, at);
        assert v == Ahead(sofar.chars + d.chars, d.pending, file[stop..], size);
        assert RestCompletes(file, size, at) == RestCompletes(file, size, stop);
      } else if d.wellFormed {
        assert sofar.chars + d.chars == sofar.chars;
        assert !CompletesAt(file, size, at) && v.chars == sofar.chars && v.tail.Gap?;
        if ValidUtf8(file) {
          StopsShort(file, at, stop);
        }
      }
    }
  }

  lemma WholeHasMore(s: seq<Byte>)
    requires s != [] && Decode(s).Complete()
    ensures Decode(s).chars != ""
  {
  }

  /**
   * For every chunk size: a valid file is delivered in full exactly when every chunk completes a
   * character; otherwise the reader stops short with "".
   */
  lemma DeliveredInFull(file: seq<Byte>, size: nat)
    requires size >= 1
    ensures Delivered(file, size).tail.Finished? <==> ValidUtf8(file) && EveryChunkCompletes(file, size)
    ensures Delivered(file, size).tail.Finished? ==> Delivered(file, size).chars == Decode(file).chars
    ensures ValidUtf8(file) ==> (Delivered(file, size).chars == Decode(file).chars <==> EveryChunkCompletes(file, size))
    ensures ValidUtf8(file) && !Delivered(file, size).tail.Finished? ==>
      var v := Delivered(file, size);
      v.tail.Gap? && v.chars < Decode(file).chars && WideAt(Decode(file).chars, |v.chars|)
  {
    assert file[..0] == [] && file[0..] == file;
    ReachesTheEnd(file, size, 0);
  }

  /** Chunks of four bytes always complete a character of a valid file. */
  lemma FourBytesComplete(file: seq<Byte>, size: nat)
    requires size >= 4 && ValidUtf8(file)
    ensures EveryChunkCompletes(file, size)
  {
    FourBytesCompleteFrom(file, size, 0);
  }

  lemma {:induction false} FourBytesCompleteFrom(file: seq<Byte>, size: nat, at: nat)
    requires size >= 4 && ValidUtf8(file)
    ensures RestCompletes(file, size, at)
    decreases |file| - at
  {
    if at < |file| {
      var stop := Min(at + size, |file|);
      MoreIsToCome(file, at);
      if stop == |file| {
        assert file[..stop] == file;
        assert CompletesAt(file, size, at);
      } else {
        FourBytesMove(file, at, stop);
      }
      FourBytesCompleteFrom(file, size, at + size);
    }
  }

  lemma FourBytesMove(file: seq<Byte>, at: nat, stop: nat)
    requires at + 4 <= stop <= |file| && ValidUtf8(file)
    ensures |Decode(file[..stop]).chars| > |Decode(file[..at]).chars|
  {
    assert file[..at] + file[at..] == file;
    DecodeInPieces(file[..at], file[at..]);
    BoundaryToBoundary(file, at, stop);
    FourMore(Decode(file[..at]).pending, file[at..stop]);
  }

  lemma FourMore(pending: seq<Byte>, chunk: seq<Byte>)
    requires |chunk| >= 4 && Decode(pending + chunk).wellFormed
    ensures Decode(pending + chunk).chars != ""
  {
  }

  /** Breaks of two answers and more need chunks of one or two bytes. */
  lemma {:induction false} LongBreaksNeedSmallChunks(unread: string, pending: seq<Byte>, ahead: seq<Byte>, size: nat)
    requires size >= 3 && Undecided(pending)
    ensures Ahead(unread, pending, ahead, size).tail.Gap? ==> Ahead(unread, pending, ahead, size).tail.more == 0
    decreases |ahead|
  {
    if ahead != [] {
      var n := Min(size, |ahead|);
      var d := Decode(pending + ahead[..n]);
      if d.wellFormed {
        PendingIsUndecided(pending + ahead[..n]);
        if d.chars != "" {
          LongBreaksNeedSmallChunks(unread + d.chars, d.pending, ahead[n..], size);
        } else {
          assert d.pending == pending + ahead[..n];
        }
      }
    }
  }

  const SMILEY: seq<Byte> := [0xF0, 0x9F, 0x98, 0x80]

  /** For chunks of one, two and three bytes there are valid files that deliver nothing. */
  lemma SmallChunksMayDeliverNothing(size: nat)
    requires 1 <= size <= 3
    ensures ValidUtf8(SMILEY) && Decode(SMILEY).chars == [0x1F600 as char]
    ensures Delivered(SMILEY, size).chars == "" && Delivered(SMILEY, size).tail.Gap?
  {
    assert SMILEY[4..] == [];
    assert DecodeOne(SMILEY) == Scalar(0x1F600 as char, 4);
    var chunk := SMILEY[..size];
    assert chunk[0] == 0xF0 && (size > 1 ==> chunk[1] == 0x9F) && (size > 2 ==> chunk[2] == 0x98);
    assert [] + chunk == chunk;
    assert DecodeOne(chunk).NeedMore?;
  }

  /**
   * Draining a file: take until "".  The characters delivered are those of the whole file exactly
   * when every chunk completes one, which chunks of four bytes and more always do.
   */
  method ReadAll(file: seq<Byte>, chunkSize: nat) returns (chars: string, broken: bool)
    requires chunkSize >= 1
    ensures chars == Delivered(file, chunkSize).chars
    ensures broken <==> Delivered(file, chunkSize).tail.Undecodable?
    ensures ValidUtf8(file) ==> !broken && (chars == Decode(file).chars <==> EveryChunkCompletes(file, chunkSize))
    ensures ValidUtf8(file) && chunkSize >= 4 ==> chars == Decode(file).chars
  {
    var reader := new Reader(file, chunkSize);
    DeliveredInFull(file, chunkSize);
    if ValidUtf8(file) && chunkSize >= 4 {
      FourBytesComplete(file, chunkSize);
    }
    chars := "";
    while true
      invariant fresh(reader) && reader.chunkSize == chunkSize && reader.file == file && reader.Valid() && reader.unbroken
      invariant reader.whole == Delivered(file, chunkSize) && chars == reader.whole.chars[..reader.offset]
      decreases |reader.whole.chars| - reader.offset
    {
      var next := reader.Take();
      if next.Broken? {
        return chars, true;
      }
      if next.End? {
        return chars, false;
      }
      chars := chars + [next.c];
    }
  }
}
