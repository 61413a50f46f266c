/**
 * UTF-8 as defined in section 3 of RFC 3629: every Unicode scalar value is
 * written as one to four bytes. The service only ever asks two things of the
 * encoding of a password: its length, and its first 72 bytes.
 */
module Utf8 {

  newtype byte = x: int | 0 <= x < 256

  /** Number of bytes section 3 of RFC 3629 uses for the scalar value `c`. */
  function Width(c: char): nat
  {
    var v := c as int;
    if v < 0x80 then 1 else if v < 0x800 then 2 else if v < 0x1_0000 then 3 else 4
  }

  /** The byte sequence for one scalar value; `v / 64` is a shift by six bits. */
  function EncodeChar(c: char): (r: seq<byte>)
    ensures |r| == Width(c)
    ensures 1 <= |r| <= 4
  {
    var v := c as int;
    if v < 0x80 then [v as byte]
    else if v < 0x800 then
      [(0xC0 + v / 64) as byte, (0x80 + v % 64) as byte]
    else if v < 0x1_0000 then
      [(0xE0 + v / 64 / 64) as byte, (0x80 + v / 64 % 64) as byte, (0x80 + v % 64) as byte]
    else
      [(0xF0 + v / 64 / 64 / 64) as byte, (0x80 + v / 64 / 64 % 64) as byte,
       (0x80 + v / 64 % 64) as byte, (0x80 + v % 64) as byte]
  }

  /**
   * Python's `s.encode('utf-8')`. Every character takes one to four bytes, so
   * the byte length lies between the character count and four times it.
   */
  function Encode(s: string): (r: seq<byte>)
    ensures |s| <= |r| <= 4 * |s|
  {
    if s == [] then [] else EncodeChar(s[0]) + Encode(s[1..])
  }

  /** The sequence length announced by a lead byte (0 for a continuation byte or an invalid one). */
  function LeadWidth(b: byte): nat
  {
    if b < 0x80 then 1
    else if 0xC0 <= b < 0xE0 then 2
    else if 0xE0 <= b < 0xF0 then 3
    else if 0xF0 <= b < 0xF8 then 4
    else 0
  }

  /** The scalar value carried by a well-formed one- to four-byte sequence. */
  function DecodeChar(b: seq<byte>): int
    requires 1 <= |b| <= 4
  {
    if |b| == 1 then b[0] as int
    else if |b| == 2 then (b[0] as int - 0xC0) * 64 + (b[1] as int - 0x80)
    else if |b| == 3 then
      ((b[0] as int - 0xE0) * 64 + (b[1] as int - 0x80)) * 64 + (b[2] as int - 0x80)
    else
      (((b[0] as int - 0xF0) * 64 + (b[1] as int - 0x80)) * 64 + (b[2] as int - 0x80)) * 64
        + (b[3] as int - 0x80)
  }

  /** The lead byte of an encoded character announces exactly its width. */
  lemma LeadByteAnnouncesWidth(c: char)
    ensures LeadWidth(EncodeChar(c)[0]) == Width(c)
  {
  }

  /** Decoding one encoded character gives the character back. */
  lemma DecodeEncodeChar(c: char)
    ensures DecodeChar(EncodeChar(c)) == c as int
  {
    var v := c as int;
    var q1, r1 := v / 64, v % 64;
    var q2, r2 := q1 / 64, q1 % 64;
    var q3, r3 := q2 / 64, q2 % 64;
    assert v == q1 * 64 + r1;
    assert q1 == q2 * 64 + r2;
    assert q2 == q3 * 64 + r3;
  }

  /** Encoding distributes over concatenation. */
  lemma {:induction false} EncodeAppend(s: string, t: string)
    ensures Encode(s + t) == Encode(s) + Encode(t)
  {
    if s == [] {
      assert s + t == t;
    } else {
      assert (s + t)[0] == s[0];
      assert (s + t)[1..] == s[1..] + t;
      EncodeAppend(s[1..], t);
    }
  }

  /** The empty string is the only one with an empty encoding. */
  lemma EncodeEmpty(s: string)
    ensures Encode(s) == [] <==> s == []
  {
  }

  /** Different strings have different encodings: UTF-8 is uniquely decodable. */
  lemma {:induction false} EncodeInjective(s: string, t: string)
    requires Encode(s) == Encode(t)
    ensures s == t
  {
    if s == [] || t == [] {
      EncodeEmpty(s);
      EncodeEmpty(t);
    } else {
      var es, et := EncodeChar(s[0]), EncodeChar(t[0]);
      assert Encode(s) == es + Encode(s[1..]);
      assert Encode(t) == et + Encode(t[1..]);
      assert es[0] == Encode(s)[0] == et[0];
      LeadByteAnnouncesWidth(s[0]);
      LeadByteAnnouncesWidth(t[0]);
      assert |es| == |et|;
      assert es == Encode(s)[..|es|] == et;
      DecodeEncodeChar(s[0]);
      DecodeEncodeChar(t[0]);
      assert s[0] == t[0];
      assert Encode(s[1..]) == Encode(s)[|es|..] == Encode(t[1..]);
      EncodeInjective(s[1..], t[1..]);
    }
  }
}
