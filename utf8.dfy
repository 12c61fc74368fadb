/** `TextEncoder.encode`: the UTF-8 encoding of a string of Unicode scalar values. */
module Utf8 {
  import opened Bytes

  /** A continuation byte `10xxxxxx` carrying the low six bits of `x`. */
  function Continuation(x: nat): byte
  {
    0x80 + x % 64
  }

  /** The one to four bytes that encode one scalar value. */
  function EncodeScalar(c: char): (r: seq<byte>)
    ensures 1 <= |r| <= 4
  {
    var x := c as int;
    if x < 0x80 then [x]
    else if x < 0x800 then [0xC0 + x / 64, Continuation(x)]
    else if x < 0x1_0000 then [0xE0 + x / 4096, Continuation(x / 64), Continuation(x)]
    else [0xF0 + x / 262144, Continuation(x / 4096), Continuation(x / 64), Continuation(x)]
  }

  /** How many bytes a sequence starting with `lead` devotes to its first scalar value. */
  function SequenceLength(lead: byte): nat
  {
    if lead < 0x80 then 1 else if lead < 0xE0 then 2 else if lead < 0xF0 then 3 else 4
  }

  /** The encoding of a string: the encodings of its scalar values, in order. It is
      never shorter than the string, so it is empty exactly when the string is. */
  function Encode(s: string): (r: seq<byte>)
    ensures |s| <= |r| <= 4 * |s|
  {
    if s == [] then [] else EncodeScalar(s[0]) + Encode(s[1..])
  }

  /** The lead byte of a scalar value's encoding announces the length of that encoding. */
  lemma LeadAnnouncesLength(c: char)
    ensures SequenceLength(EncodeScalar(c)[0]) == |EncodeScalar(c)|
  {
  }

  /** The scalar value that a well-formed sequence of one to four bytes encodes. */
  function ScalarValue(e: seq<byte>): int
    requires 1 <= |e| <= 4
  {
    var b: seq<int> := e;
    if |b| == 1 then b[0]
    else if |b| == 2 then (b[0] - 0xC0) * 64 + (b[1] - 0x80)
    else if |b| == 3 then (b[0] - 0xE0) * 4096 + (b[1] - 0x80) * 64 + (b[2] - 0x80)
    else (b[0] - 0xF0) * 262144 + (b[1] - 0x80) * 4096 + (b[2] - 0x80) * 64 + (b[3] - 0x80)
  }

  /** Decoding inverts encoding on one scalar value. */
  lemma DecodeEncodeScalar(c: char)
    ensures ScalarValue(EncodeScalar(c)) == c as int
  {
    var x := c as int;
    var e := EncodeScalar(c);
    assert x == (x / 64) * 64 + x % 64;
    if x >= 0x1_0000 {
      assert x / 64 == (x / 4096) * 64 + (x / 64) % 64;
      assert x / 4096 == (x / 262144) * 64 + (x / 4096) % 64;
    } else if x >= 0x800 {
      assert x / 64 == (x / 4096) * 64 + (x / 64) % 64;
    }
  }

  /** Distinct scalar values have distinct encodings. */
  lemma EncodeScalarInjective(c: char, d: char)
    requires EncodeScalar(c) == EncodeScalar(d)
    ensures c == d
  {
    DecodeEncodeScalar(c);
    DecodeEncodeScalar(d);
  }

  /** UTF-8 is prefix-free: an encoding followed by anything determines its scalar value
      and the rest. */
  lemma PrefixFree(c: char, s: seq<byte>, d: char, t: seq<byte>)
    requires EncodeScalar(c) + s == EncodeScalar(d) + t
    ensures c == d && s == t
  {
    var ec, ed := EncodeScalar(c), EncodeScalar(d);
    assert (ec + s)[0] == ec[0] && (ed + t)[0] == ed[0];
    LeadAnnouncesLength(c);
    LeadAnnouncesLength(d);
    assert ec == (ec + s)[..|ec|] && ed == (ed + t)[..|ed|];
    EncodeScalarInjective(c, d);
    assert s == (ec + s)[|ec|..] && t == (ed + t)[|ed|..];
  }

  /** Distinct strings have distinct encodings, so comparing encodings byte by byte is
      comparing the strings. */
  lemma {:induction false} EncodeInjective(s: string, t: string)
    requires Encode(s) == Encode(t)
    ensures s == t
  {
    if s != [] && t != [] {
      PrefixFree(s[0], Encode(s[1..]), t[0], Encode(t[1..]));
      EncodeInjective(s[1..], t[1..]);
      assert s == [s[0]] + s[1..] && t == [t[0]] + t[1..];
    }
  }
}
