/** The padded URL- and filename-safe base64 encoding of section 5 of RFC 4648
    (Go's `base64.URLEncoding`): 62 letters and digits plus `-` and `_`, with
    `=` padding so that every output is a whole number of 4-character quanta. */
module Base64Url {
  import opened Wrappers
  import opened Bytes

  const Pad: char := '='

  /** The characters of the URL-safe alphabet (RFC 4648, table 2). */
  predicate IsAlphabetChar(c: char) {
    ('A' <= c <= 'Z') || ('a' <= c <= 'z') || ('0' <= c <= '9') || c == '-' || c == '_'
  }

  /** The character for the 6-bit value `v`. */
  function CharOf(v: nat): (c: char)
    requires v < 64
    ensures IsAlphabetChar(c)
  {
    if v < 26 then ('A' as int + v) as char
    else if v < 52 then ('a' as int + (v - 26)) as char
    else if v < 62 then ('0' as int + (v - 52)) as char
    else if v == 62 then '-'
    else '_'
  }

  /** The 6-bit value of an alphabet character; `None` for any other character,
      the pad included. */
  function ValueOf(c: char): (r: Option<nat>)
    ensures r.Some? <==> IsAlphabetChar(c)
    ensures r.Some? ==> r.value < 64 && CharOf(r.value) == c
  {
    if 'A' <= c <= 'Z' then Some(c as int - 'A' as int)
    else if 'a' <= c <= 'z' then Some(c as int - 'a' as int + 26)
    else if '0' <= c <= '9' then Some(c as int - '0' as int + 52)
    else if c == '-' then Some(62)
    else if c == '_' then Some(63)
    else None
  }

  lemma ValueOfCharOf(v: nat)
    requires v < 64
    ensures ValueOf(CharOf(v)) == Some(v)
  {
  }

  /** Three bytes become four characters, six bits each, high bits first. */
  function EncodeTriple(a: byte, b: byte, c: byte): string {
    [CharOf(a / 4), CharOf((a % 4) * 16 + b / 16), CharOf((b % 16) * 4 + c / 64), CharOf(c % 64)]
  }

  /** A final pair of bytes: three characters (low bits zero) and one pad. */
  function EncodePair(a: byte, b: byte): string {
    [CharOf(a / 4), CharOf((a % 4) * 16 + b / 16), CharOf((b % 16) * 4), Pad]
  }

  /** A final single byte: two characters (low bits zero) and two pads. */
  function EncodeSingle(a: byte): string {
    [CharOf(a / 4), CharOf((a % 4) * 16), Pad, Pad]
  }

  predicate IsEncodedChar(c: char) {
    IsAlphabetChar(c) || c == Pad
  }

  /** `base64.URLEncoding.EncodeToString`. */
  function Encode(bytes: seq<byte>): (s: string)
    ensures |s| == 4 * ((|bytes| + 2) / 3)
    ensures forall i :: 0 <= i < |s| ==> IsEncodedChar(s[i])
    decreases |bytes|
  {
    if |bytes| == 0 then ""
    else if |bytes| == 1 then EncodeSingle(bytes[0])
    else if |bytes| == 2 then EncodePair(bytes[0], bytes[1])
    else EncodeTriple(bytes[0], bytes[1], bytes[2]) + Encode(bytes[3..])
  }

  /** Decodes one 4-character quantum. Only the last quantum of a text may
      carry padding: one pad leaves two bytes, two pads leave one. The bits
      a pad leaves unused must be zero (section 3.5 of RFC 4648), so every
      byte string has exactly one text. */
  function DecodeQuantum(q: string, last: bool): Option<seq<byte>>
    requires |q| == 4
  {
    var v0, v1, v2, v3 := ValueOf(q[0]), ValueOf(q[1]), ValueOf(q[2]), ValueOf(q[3]);
    if v0.None? || v1.None? then None
    else if last && q[2] == Pad && q[3] == Pad then
      if v1.value % 16 != 0 then None
      else Some([v0.value * 4 + v1.value / 16])
    else if v2.None? then None
    else if last && q[3] == Pad then
      if v2.value % 4 != 0 then None
      else Some([v0.value * 4 + v1.value / 16, (v1.value % 16) * 16 + v2.value / 4])
    else if v3.None? then None
    else
      Some([v0.value * 4 + v1.value / 16, (v1.value % 16) * 16 + v2.value / 4, (v2.value % 4) * 64 + v3.value])
  }

  /** Decodes a padded base64url text; `None` when it is not one. */
  function Decode(s: string): Option<seq<byte>>
    decreases |s|
  {
    if |s| == 0 then Some([])
    else if |s| < 4 then None
    else if |s| == 4 then DecodeQuantum(s, true)
    else
      match DecodeQuantum(s[..4], false)
      case None => None
      case Some(head) =>
        match Decode(s[4..])
        case None => None
        case Some(tail) => Some(head + tail)
  }

  lemma DecodeTriple(a: byte, b: byte, c: byte, last: bool)
    ensures DecodeQuantum(EncodeTriple(a, b, c), last) == Some([a, b, c])
  {
    var q := EncodeTriple(a, b, c);
    ValueOfCharOf(a / 4);
    ValueOfCharOf((a % 4) * 16 + b / 16);
    ValueOfCharOf((b % 16) * 4 + c / 64);
    ValueOfCharOf(c % 64);
    assert ((a % 4) * 16 + b / 16) / 16 == a % 4;
    assert ((a % 4) * 16 + b / 16) % 16 == b / 16;
    assert ((b % 16) * 4 + c / 64) / 4 == b % 16;
    assert ((b % 16) * 4 + c / 64) % 4 == c / 64;
  }

  lemma DecodePair(a: byte, b: byte)
    ensures DecodeQuantum(EncodePair(a, b), true) == Some([a, b])
  {
    ValueOfCharOf(a / 4);
    ValueOfCharOf((a % 4) * 16 + b / 16);
    ValueOfCharOf((b % 16) * 4);
    assert ((a % 4) * 16 + b / 16) / 16 == a % 4;
    assert ((a % 4) * 16 + b / 16) % 16 == b / 16;
    assert ((b % 16) * 4) / 4 == b % 16;
  }

  lemma DecodeSingle(a: byte)
    ensures DecodeQuantum(EncodeSingle(a), true) == Some([a])
  {
    ValueOfCharOf(a / 4);
    ValueOfCharOf((a % 4) * 16);
    assert ((a % 4) * 16) / 16 == a % 4;
  }

  /** A text of more than one quantum decodes quantum by quantum. */
  lemma DecodeAppend(head: string, tail: string, h: seq<byte>, t: seq<byte>)
    requires |head| == 4 && |tail| > 0
    requires DecodeQuantum(head, false) == Some(h)
    requires Decode(tail) == Some(t)
    ensures Decode(head + tail) == Some(h + t)
  {
    var s := head + tail;
    assert s[..4] == head;
    assert s[4..] == tail;
  }

  lemma DecodeEncodeOne(bytes: seq<byte>)
    requires |bytes| == 1
    ensures Decode(Encode(bytes)) == Some(bytes)
  {
    DecodeSingle(bytes[0]);
    assert [bytes[0]] == bytes;
  }

  lemma DecodeEncodeTwo(bytes: seq<byte>)
    requires |bytes| == 2
    ensures Decode(Encode(bytes)) == Some(bytes)
  {
    DecodePair(bytes[0], bytes[1]);
    assert [bytes[0], bytes[1]] == bytes;
  }

  lemma DecodeEncodeThree(bytes: seq<byte>)
    requires |bytes| == 3
    ensures Decode(Encode(bytes)) == Some(bytes)
  {
    var e := EncodeTriple(bytes[0], bytes[1], bytes[2]);
    assert Encode(bytes) == e + Encode(bytes[3..]);
    assert Encode(bytes) == e;
    DecodeTriple(bytes[0], bytes[1], bytes[2], true);
    assert [bytes[0], bytes[1], bytes[2]] == bytes;
  }

  /** Decoding undoes encoding, so the encoding loses no information. */
  lemma {:induction false} DecodeEncode(bytes: seq<byte>)
    ensures Decode(Encode(bytes)) == Some(bytes)
    decreases |bytes|
  {
    if |bytes| == 1 {
      DecodeEncodeOne(bytes);
    } else if |bytes| == 2 {
      DecodeEncodeTwo(bytes);
    } else if |bytes| == 3 {
      DecodeEncodeThree(bytes);
    } else if |bytes| > 3 {
      DecodeEncode(bytes[3..]);
      DecodeEncodeStep(bytes);
    }
  }

  /** One step of the induction: a full leading quantum in front of a tail
      that already decodes. */
  lemma DecodeEncodeStep(bytes: seq<byte>)
    requires |bytes| > 3
    requires Decode(Encode(bytes[3..])) == Some(bytes[3..])
    ensures Decode(Encode(bytes)) == Some(bytes)
  {
    var rest := bytes[3..];
    var e := EncodeTriple(bytes[0], bytes[1], bytes[2]);
    assert Encode(bytes) == e + Encode(rest);
    DecodeTriple(bytes[0], bytes[1], bytes[2], false);
    var h := [bytes[0], bytes[1], bytes[2]];
    DecodeAppend(e, Encode(rest), h, rest);
    SplitThree(bytes);
  }

  lemma SplitThree(bytes: seq<byte>)
    requires |bytes| >= 3
    ensures [bytes[0], bytes[1], bytes[2]] + bytes[3..] == bytes
  {
  }

  /** Arithmetic facts about splitting a number into high and low bits. */
  lemma SplitBits(hi: nat, lo: nat, d: nat)
    requires d == 4 || d == 16 || d == 64
    requires lo < d
    ensures (hi * d + lo) / d == hi && (hi * d + lo) % d == lo
  {
  }

  lemma JoinBits(x: nat, d: nat)
    requires d == 4 || d == 16
    ensures (x / d) * d + x % d == x
  {
  }

  /** The bit layout of a decoded quantum read the encoder's way: each byte
      the decoder assembles from 6-bit values splits back into those values. */
  lemma TripleBits(x0: nat, x1: nat, x2: nat, x3: nat, a: nat, b: nat, c: nat)
    requires x0 < 64 && x1 < 64 && x2 < 64 && x3 < 64
    requires a == x0 * 4 + x1 / 16 && b == (x1 % 16) * 16 + x2 / 4 && c == (x2 % 4) * 64 + x3
    ensures a / 4 == x0 && (a % 4) * 16 + b / 16 == x1
    ensures (b % 16) * 4 + c / 64 == x2 && c % 64 == x3
  {
    LeadingBits(x0, x1, a);
    MiddleBits(x1, x2, b);
    TrailingBits(x2, x3, c);
    JoinBits(x1, 16);
    JoinBits(x2, 4);
  }

  lemma PairBits(x0: nat, x1: nat, x2: nat, a: nat, b: nat)
    requires x0 < 64 && x1 < 64 && x2 < 64 && x2 % 4 == 0
    requires a == x0 * 4 + x1 / 16 && b == (x1 % 16) * 16 + x2 / 4
    ensures a / 4 == x0 && (a % 4) * 16 + b / 16 == x1 && (b % 16) * 4 == x2
  {
    LeadingBits(x0, x1, a);
    MiddleBits(x1, x2, b);
    JoinBits(x1, 16);
    JoinBits(x2, 4);
  }

  lemma SingleBits(x0: nat, x1: nat, a: nat)
    requires x0 < 64 && x1 < 64 && x1 % 16 == 0
    requires a == x0 * 4 + x1 / 16
    ensures a / 4 == x0 && (a % 4) * 16 == x1
  {
    LeadingBits(x0, x1, a);
    JoinBits(x1, 16);
  }

  lemma LeadingBits(x0: nat, x1: nat, a: nat)
    requires x0 < 64 && x1 < 64 && a == x0 * 4 + x1 / 16
    ensures a / 4 == x0 && a % 4 == x1 / 16
  {
    SplitBits(x0, x1 / 16, 4);
  }

  lemma MiddleBits(x1: nat, x2: nat, b: nat)
    requires x1 < 64 && x2 < 64 && b == (x1 % 16) * 16 + x2 / 4
    ensures b / 16 == x1 % 16 && b % 16 == x2 / 4
  {
    SplitBits(x1 % 16, x2 / 4, 16);
  }

  lemma TrailingBits(x2: nat, x3: nat, c: nat)
    requires x2 < 64 && x3 < 64 && c == (x2 % 4) * 64 + x3
    ensures c / 64 == x2 % 4 && c % 64 == x3
  {
    SplitBits(x2 % 4, x3, 64);
  }

  /** A quantum that decodes is the encoding of what it decodes to; only the
      last quantum of a text can stand for fewer than three bytes. */
  lemma EncodeDecodeQuantum(q: string, last: bool, h: seq<byte>)
    requires |q| == 4
    requires DecodeQuantum(q, last) == Some(h)
    ensures 1 <= |h| <= 3
    ensures !last ==> |h| == 3
    ensures |h| == 3 ==> EncodeTriple(h[0], h[1], h[2]) == q
    ensures Encode(h) == q
  {
    if last && q[2] == Pad && q[3] == Pad {
      EncodeDecodeSingle(q, h);
    } else if last && q[3] == Pad {
      EncodeDecodePair(q, h);
    } else {
      EncodeDecodeTriple(q, last, h);
    }
  }

  lemma EncodeDecodeSingle(q: string, h: seq<byte>)
    requires |q| == 4 && q[2] == Pad && q[3] == Pad
    requires DecodeQuantum(q, true) == Some(h)
    ensures |h| == 1 && Encode(h) == q
  {
    var x0, x1 := ValueOf(q[0]).value, ValueOf(q[1]).value;
    SingleBits(x0, x1, h[0]);
    assert h == [h[0]];
    assert q == [CharOf(x0), CharOf(x1), Pad, Pad];
  }

  lemma EncodeDecodePair(q: string, h: seq<byte>)
    requires |q| == 4 && q[2] != Pad && q[3] == Pad
    requires DecodeQuantum(q, true) == Some(h)
    ensures |h| == 2 && Encode(h) == q
  {
    var x0, x1, x2 := ValueOf(q[0]).value, ValueOf(q[1]).value, ValueOf(q[2]).value;
    PairBits(x0, x1, x2, h[0], h[1]);
    assert h == [h[0], h[1]];
    assert q == [CharOf(x0), CharOf(x1), CharOf(x2), Pad];
  }

  lemma EncodeDecodeTriple(q: string, last: bool, h: seq<byte>)
    requires |q| == 4 && !(last && q[3] == Pad)
    requires DecodeQuantum(q, last) == Some(h)
    ensures |h| == 3 && EncodeTriple(h[0], h[1], h[2]) == q && Encode(h) == q
  {
    var x0, x1, x2, x3 := ValueOf(q[0]).value, ValueOf(q[1]).value, ValueOf(q[2]).value, ValueOf(q[3]).value;
    TripleBits(x0, x1, x2, x3, h[0], h[1], h[2]);
    assert q == [CharOf(x0), CharOf(x1), CharOf(x2), CharOf(x3)];
    assert Encode(h) == EncodeTriple(h[0], h[1], h[2]) + Encode(h[3..]);
  }

  /** Encoding undoes decoding: a text that decodes is the one encoding of
      its bytes, so no second spelling of the same bytes is accepted. */
  lemma {:induction false} EncodeDecode(s: string, bytes: seq<byte>)
    requires Decode(s) == Some(bytes)
    ensures Encode(bytes) == s
    decreases |s|
  {
    if |s| == 4 {
      EncodeDecodeQuantum(s, true, bytes);
    } else if |s| > 4 {
      var h := DecodeQuantum(s[..4], false).value;
      var t := Decode(s[4..]).value;
      EncodeDecodeQuantum(s[..4], false, h);
      EncodeDecode(s[4..], t);
      EncodeDecodeStep(s, h, t);
    }
  }

  lemma EncodeDecodeStep(s: string, h: seq<byte>, t: seq<byte>)
    requires |s| > 4 && |h| == 3
    requires EncodeTriple(h[0], h[1], h[2]) == s[..4]
    requires Encode(t) == s[4..]
    ensures Encode(h + t) == s
  {
    var b := h + t;
    assert b[3..] == t;
    assert Encode(b) == EncodeTriple(b[0], b[1], b[2]) + Encode(b[3..]);
    assert s == s[..4] + s[4..];
  }

  /** An input one byte longer than a multiple of three ends in two pads. */
  lemma {:induction false} EncodeEndsInTwoPads(bytes: seq<byte>)
    requires |bytes| % 3 == 1
    ensures var s := Encode(bytes); s[|s| - 2..] == [Pad, Pad]
    decreases |bytes|
  {
    if |bytes| > 1 {
      EncodeEndsInTwoPads(bytes[3..]);
      var s := Encode(bytes);
      var t := Encode(bytes[3..]);
      var e := EncodeTriple(bytes[0], bytes[1], bytes[2]);
      assert s == e + t;
      assert |e| == 4 && |t| >= 4;
      assert s[|s| - 2..] == t[|t| - 2..];
    }
  }

  /** The encoding never produces the characters the standard alphabet uses
      for 62 and 63, so its output is safe in a path or URL. */
  lemma EncodeAvoidsSlashAndPlus(bytes: seq<byte>)
    ensures '/' !in Encode(bytes) && '+' !in Encode(bytes)
  {
    var s := Encode(bytes);
    forall i | 0 <= i < |s|
      ensures s[i] != '/' && s[i] != '+'
    {
      assert IsEncodedChar(s[i]);
    }
  }

  /** The encoding of `bytes` is the only text that decodes to them. */
  lemma OnlyEncodingDecodes(bytes: seq<byte>)
    ensures forall s :: Decode(s) == Some(bytes) ==> s == Encode(bytes)
  {
    forall s | Decode(s) == Some(bytes)
      ensures s == Encode(bytes)
    {
      EncodeDecode(s, bytes);
    }
  }

  /** Two texts decode to the same bytes only when they are the same text. */
  lemma DecodeInjective(s: string, t: string)
    requires Decode(s).Some? && Decode(t).Some?
    ensures Decode(s) == Decode(t) <==> s == t
  {
    EncodeDecode(s, Decode(s).value);
    EncodeDecode(t, Decode(t).value);
  }

  lemma EncodeInjective(x: seq<byte>, y: seq<byte>)
    ensures Encode(x) == Encode(y) <==> x == y
  {
    DecodeEncode(x);
    DecodeEncode(y);
  }
}
