/** Go's conversion []byte(s) of a string to its bytes. A Go string literal and
    every string built from literals holds UTF-8, so a string is modelled as the
    sequence of Unicode scalar values it encodes and the conversion as UTF-8
    encoding (RFC 3629, section 3). */
module Utf8 {

  newtype byte = x: int | 0 <= x < 256

  /** A byte that continues a multi-byte sequence: 10xxxxxx. */
  predicate IsContinuation(b: byte) {
    0x80 <= b < 0xC0
  }

  /** The number of bytes UTF-8 uses for a code point. */
  function EncodedLength(cp: int): (n: nat)
    ensures 1 <= n <= 4
  {
    if cp < 0x80 then 1 else if cp < 0x800 then 2 else if cp < 0x10000 then 3 else 4
  }

  /** The UTF-8 bytes of one scalar value. */
  function EncodeChar(c: char): (bs: seq<byte>)
    ensures |bs| == EncodedLength(c as int)
    ensures !IsContinuation(bs[0])
    ensures forall i :: 1 <= i < |bs| ==> IsContinuation(bs[i])
  {
    var cp := c as int;
    if cp < 0x80 then
      [cp as byte]
    else if cp < 0x800 then
      [(0xC0 + cp / 0x40) as byte, (0x80 + cp % 0x40) as byte]
    else if cp < 0x10000 then
      [(0xE0 + cp / 0x1000) as byte, (0x80 + cp / 0x40 % 0x40) as byte, (0x80 + cp % 0x40) as byte]
    else
      [(0xF0 + cp / 0x40000) as byte, (0x80 + cp / 0x1000 % 0x40) as byte,
       (0x80 + cp / 0x40 % 0x40) as byte, (0x80 + cp % 0x40) as byte]
  }

  /** The code point that one well-formed 1- to 4-byte sequence stands for. */
  function DecodeScalar(bs: seq<byte>): int
    requires 1 <= |bs| <= 4
  {
    if |bs| == 1 then bs[0] as int
    else if |bs| == 2 then (bs[0] as int - 0xC0) * 0x40 + (bs[1] as int - 0x80)
    else if |bs| == 3 then
      ((bs[0] as int - 0xE0) * 0x40 + (bs[1] as int - 0x80)) * 0x40 + (bs[2] as int - 0x80)
    else
      (((bs[0] as int - 0xF0) * 0x40 + (bs[1] as int - 0x80)) * 0x40 + (bs[2] as int - 0x80)) * 0x40
        + (bs[3] as int - 0x80)
  }

  /** Decoding the bytes of one scalar value gives that value back. */
  lemma DecodeEncodeChar(c: char)
    ensures DecodeScalar(EncodeChar(c)) == c as int
  {
    var cp := c as int;
    var q1, r1 := cp / 0x40, cp % 0x40;
    var q2, r2 := q1 / 0x40, q1 % 0x40;
    var q3, r3 := q2 / 0x40, q2 % 0x40;
    assert cp == q1 * 0x40 + r1;
    assert q1 == q2 * 0x40 + r2;
    assert q2 == q3 * 0x40 + r3;
    assert cp / 0x1000 == q2 by { DivDiv64(cp); }
    assert cp / 0x40000 == q3 by { DivDiv64(cp); DivDiv4096(cp); }
  }

  /** Dividing twice by 0x40 is dividing once by 0x1000. */
  lemma DivDiv64(x: int)
    requires x >= 0
    ensures x / 0x40 / 0x40 == x / 0x1000
  {
    var q, r := x / 0x40, x % 0x40;
    var q', r' := q / 0x40, q % 0x40;
    assert x == q' * 0x1000 + (r' * 0x40 + r);
  }

  /** Dividing by 0x1000 and then by 0x40 is dividing once by 0x40000. */
  lemma DivDiv4096(x: int)
    requires x >= 0
    ensures x / 0x1000 / 0x40 == x / 0x40000
  {
    var q, r := x / 0x1000, x % 0x1000;
    var q', r' := q / 0x40, q % 0x40;
    assert x == q' * 0x40000 + (r' * 0x1000 + r);
  }

  /** The bytes of a string: the bytes of its characters, in order. */
  function Encode(s: string): (bs: seq<byte>)
    decreases |s|
  {
    if s == [] then [] else EncodeChar(s[0]) + Encode(s[1..])
  }

  /** Encoding distributes over concatenation. */
  lemma {:induction false} EncodeConcat(s: string, t: string)
    ensures Encode(s + t) == Encode(s) + Encode(t)
    decreases |s|
  {
    if s != [] {
      assert (s + t)[0] == s[0] && (s + t)[1..] == s[1..] + t;
      EncodeConcat(s[1..], t);
      assert Encode(s + t) == EncodeChar(s[0]) + (Encode(s[1..]) + Encode(t));
    } else {
      assert s + t == t;
    }
  }

  /** Each character takes one to four bytes. */
  lemma {:induction false} EncodeLength(s: string)
    ensures |s| <= |Encode(s)| <= 4 * |s|
    decreases |s|
  {
    if s != [] {
      EncodeLength(s[1..]);
    }
  }

  predicate IsAscii(s: string) {
    forall i :: 0 <= i < |s| ==> s[i] as int < 0x80
  }

  /** An ASCII string encodes to one byte per character, each its code. */
  lemma {:induction false} EncodeAscii(s: string)
    requires IsAscii(s)
    ensures |Encode(s)| == |s|
    ensures forall i :: 0 <= i < |s| ==> Encode(s)[i] as int == s[i] as int
    decreases |s|
  {
    if s != [] {
      assert IsAscii(s[1..]) by {
        forall i | 0 <= i < |s| - 1 ensures s[1..][i] as int < 0x80 {
          assert s[1..][i] == s[i + 1];
        }
      }
      EncodeAscii(s[1..]);
    }
  }

  /** The bytes of an ASCII prefix followed by any string: the prefix's codes,
      one byte each, then the bytes of the rest. */
  lemma EncodeAsciiPrefix(p: string, s: string)
    requires IsAscii(p)
    ensures |Encode(p + s)| == |p| + |Encode(s)|
    ensures forall i :: 0 <= i < |p| ==> Encode(p + s)[i] as int == p[i] as int
    ensures Encode(p + s)[|p|..] == Encode(s)
  {
    EncodeAscii(p);
    EncodeConcat(p, s);
  }
}
