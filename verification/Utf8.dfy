/** UTF-8 as section 3 of RFC 3629 defines it, decoded strictly and incrementally. */
module Utf8 {
  newtype Byte = b: int | 0 <= b < 256

  /** The length the first byte announces; 0 for a byte that starts nothing. */
  function Width(first: Byte): nat {
    if first < 0x80 then 1
    else if 0xC2 <= first <= 0xDF then 2
    else if 0xE0 <= first <= 0xEF then 3
    else if 0xF0 <= first <= 0xF4 then 4
    else 0
  }

  predicate Tail(b: Byte) {
    0x80 <= b <= 0xBF
  }

  /** The second byte excludes overlong forms, surrogates and values past U+10FFFF. */
  predicate Second(first: Byte, second: Byte) {
    if first == 0xE0 then 0xA0 <= second <= 0xBF
    else if first == 0xED then 0x80 <= second <= 0x9F
    else if first == 0xF0 then 0x90 <= second <= 0xBF
    else if first == 0xF4 then 0x80 <= second <= 0x8F
    else Tail(second)
  }

  datatype Step = Scalar(c: char, width: nat) | NeedMore | Malformed

  function Scalar2(a: Byte, b: Byte): char
    requires Width(a) == 2 && Tail(b)
  {
    ((a as int - 0xC0) * 64 + (b as int - 0x80)) as char
  }

  function Scalar3(a: Byte, b: Byte, c: Byte): char
    requires Width(a) == 3 && Second(a, b) && Tail(c)
  {
    ((a as int - 0xE0) * 4096 + (b as int - 0x80) * 64 + (c as int - 0x80)) as char
  }

  function Scalar4(a: Byte, b: Byte, c: Byte, d: Byte): char
    requires Width(a) == 4 && Second(a, b) && Tail(c) && Tail(d)
  {
    ((a as int - 0xF0) * 262144 + (b as int - 0x80) * 4096 + (c as int - 0x80) * 64 + (d as int - 0x80)) as char
  }

  /** The first character of a byte string; malformed as soon as no continuation could help. */
  function DecodeOne(s: seq<Byte>): (r: Step)
    ensures r.Scalar? ==> 1 <= r.width <= 4 && r.width <= |s|
    ensures r.NeedMore? ==> |s| <= 3
  {
    if |s| == 0 then NeedMore
    else
      var w := Width(s[0]);
      if w == 0 then Malformed
      else if w == 1 then Scalar(s[0] as int as char, 1)
      else if |s| == 1 then NeedMore
      else if !Second(s[0], s[1]) then Malformed
      else if w == 2 then Scalar(Scalar2(s[0], s[1]), 2)
      else if |s| == 2 then NeedMore
      else if !Tail(s[2]) then Malformed
      else if w == 3 then Scalar(Scalar3(s[0], s[1], s[2]), 3)
      else if |s| == 3 then NeedMore
      else if !Tail(s[3]) then Malformed
      else Scalar(Scalar4(s[0], s[1], s[2], s[3]), 4)
  }

  /** Everything decodable, the undecided bytes left over, and whether nothing was malformed. */
  datatype Decoded = Decoded(chars: string, pending: seq<Byte>, wellFormed: bool) {
    /** Well-formed to the last byte. */
    predicate Complete() {
      wellFormed && pending == []
    }
  }

  function Decode(s: seq<Byte>): (d: Decoded)
    ensures |d.pending| <= 3
    ensures d.wellFormed && |s| >= 4 ==> d.chars != ""
    decreases |s|
  {
    match DecodeOne(s)
    case Malformed => Decoded("", [], false)
    case NeedMore => Decoded("", s, true)
    case Scalar(c, w) =>
      var d := Decode(s[w..]);
      Decoded([c] + d.chars, d.pending, d.wellFormed)
  }

  predicate ValidUtf8(s: seq<Byte>) {
    Decode(s).Complete()
  }

  // ----- incremental decoding

  lemma DecodeOneExtends(a: seq<Byte>, b: seq<Byte>)
    ensures DecodeOne(a).NeedMore? || DecodeOne(a + b) == DecodeOne(a)
  {
    if |a| > 0 { assert (a + b)[0] == a[0]; }
    if |a| > 1 { assert (a + b)[1] == a[1]; }
    if |a| > 2 { assert (a + b)[2] == a[2]; }
    if |a| > 3 { assert (a + b)[3] == a[3]; }
  }

  /** Decoding in two pieces, the undecided bytes of the first carried over, is decoding at once. */
  lemma {:induction false} DecodeInPieces(a: seq<Byte>, b: seq<Byte>)
    ensures var first := Decode(a);
            var whole := Decode(a + b);
            if first.wellFormed then
              var second := Decode(first.pending + b);
              whole == Decoded(first.chars + second.chars, second.pending, second.wellFormed)
            else !whole.wellFormed
    decreases |a|
  {
    DecodeOneExtends(a, b);
    match DecodeOne(a)
    case Malformed =>
    case NeedMore => assert "" + Decode(a + b).chars == Decode(a + b).chars;
    case Scalar(c, w) =>
      assert (a + b)[w..] == a[w..] + b;
      DecodeInPieces(a[w..], b);
      PrependAgain(c, Decode(a[w..]).chars, Decode(Decode(a[w..]).pending + b).chars);
  }

  lemma PrependAgain(c: char, s: string, t: string)
    ensures [c] + (s + t) == ([c] + s) + t
  {
  }

  /** What is left pending is a strict prefix of one character: it decodes to nothing. */
  lemma {:induction false} PendingIsUndecided(s: seq<Byte>)
    requires Decode(s).wellFormed
    ensures Decode(Decode(s).pending) == Decoded("", Decode(s).pending, true)
    decreases |s|
  {
    match DecodeOne(s)
    case Malformed =>
    case NeedMore =>
    case Scalar(c, w) => PendingIsUndecided(s[w..]);
  }

  // ----- encoding

  function EncodeOne(c: char): (s: seq<Byte>)
    ensures 1 <= |s| <= 4
  {
    var n := c as int;
    if n < 0x80 then [n as Byte]
    else if n < 0x800 then [(0xC0 + n / 64) as Byte, (0x80 + n % 64) as Byte]
    else if n < 0x1_0000 then
      [(0xE0 + n / 4096) as Byte, (0x80 + n / 64 % 64) as Byte, (0x80 + n % 64) as Byte]
    else
      [(0xF0 + n / 262144) as Byte, (0x80 + n / 4096 % 64) as Byte, (0x80 + n / 64 % 64) as Byte, (0x80 + n % 64) as Byte]
  }

  function Encode(s: string): seq<Byte> {
    if s == "" then [] else EncodeOne(s[0]) + Encode(s[1..])
  }

  lemma DecodeEncoded3(c: char)
    requires 0x800 <= c as int < 0x1_0000
    ensures DecodeOne(EncodeOne(c)) == Scalar(c, 3)
  {
    var n := c as int;
    assert n / 64 == (n / 4096) * 64 + n / 64 % 64;
    assert n == (n / 64) * 64 + n % 64;
  }

  lemma DecodeEncoded4(c: char)
    requires 0x1_0000 <= c as int
    ensures DecodeOne(EncodeOne(c)) == Scalar(c, 4)
  {
    var n := c as int;
    assert n / 4096 == (n / 262144) * 64 + n / 4096 % 64;
    assert n / 64 == (n / 4096) * 64 + n / 64 % 64;
    assert n == (n / 64) * 64 + n % 64;
  }

  lemma DecodeEncodedOne(c: char)
    ensures DecodeOne(EncodeOne(c)) == Scalar(c, |EncodeOne(c)|)
  {
    var n := c as int;
    if 0x800 <= n < 0x1_0000 {
      DecodeEncoded3(c);
    } else if n >= 0x1_0000 {
      DecodeEncoded4(c);
    } else {
      assert n == (n / 64) * 64 + n % 64;
    }
  }

  lemma {:induction false} DecodeEncoded(s: string)
    ensures Decode(Encode(s)) == Decoded(s, [], true)
  {
    if s != "" {
      DecodeEncoded(s[1..]);
      DecodeEncodedOne(s[0]);
      var first, rest := EncodeOne(s[0]), Encode(s[1..]);
      DecodeOneExtends(first, rest);
      assert (first + rest)[|first|..] == rest;
      assert [s[0]] + s[1..] == s;
    }
  }

  lemma SixBits(high: nat, low: nat)
    requires low < 64
    ensures (high * 64 + low) / 64 == high && (high * 64 + low) % 64 == low
  {
  }

  lemma EncodeDecoded2(s: seq<Byte>)
    requires DecodeOne(s).Scalar? && DecodeOne(s).width == 2
    ensures EncodeOne(DecodeOne(s).c) == s[..2]
  {
    SixBits(s[0] as int - 0xC0, s[1] as int - 0x80);
  }

  lemma EncodeDecoded3(s: seq<Byte>)
    requires DecodeOne(s).Scalar? && DecodeOne(s).width == 3
    ensures EncodeOne(DecodeOne(s).c) == s[..3]
  {
    var x, y, z := s[0] as int - 0xE0, s[1] as int - 0x80, s[2] as int - 0x80;
    var n := DecodeOne(s).c as int;
    assert n == (x * 64 + y) * 64 + z;
    SixBits(x * 64 + y, z);
    SixBits(x, y);
    assert n / 4096 == n / 64 / 64;
  }

  lemma EncodeDecoded4(s: seq<Byte>)
    requires DecodeOne(s).Scalar? && DecodeOne(s).width == 4
    ensures EncodeOne(DecodeOne(s).c) == s[..4]
  {
    var w, x, y, z := s[0] as int - 0xF0, s[1] as int - 0x80, s[2] as int - 0x80, s[3] as int - 0x80;
    var n := DecodeOne(s).c as int;
    assert n == ((w * 64 + x) * 64 + y) * 64 + z;
    SixBits((w * 64 + x) * 64 + y, z);
    SixBits(w * 64 + x, y);
    SixBits(w, x);
    assert n / 4096 == n / 64 / 64 && n / 262144 == n / 64 / 64 / 64;
  }

  lemma EncodeDecodedOne(s: seq<Byte>)
    requires DecodeOne(s).Scalar?
    ensures EncodeOne(DecodeOne(s).c) == s[..DecodeOne(s).width]
  {
    match DecodeOne(s).width
    case 1 =>
    case 2 => EncodeDecoded2(s);
    case 3 => EncodeDecoded3(s);
    case 4 => EncodeDecoded4(s);
  }

  /** Each text has exactly one well-formed encoding. */
  lemma {:induction false} EncodeDecoded(s: seq<Byte>)
    requires ValidUtf8(s)
    ensures Encode(Decode(s).chars) == s
    decreases |s|
  {
    if DecodeOne(s).Scalar? {
      var w := DecodeOne(s).width;
      EncodeDecodedOne(s);
      EncodeDecoded(s[w..]);
      assert Decode(s).chars[1..] == Decode(s[w..]).chars;
      assert s[..w] + s[w..] == s;
    }
  }
}
