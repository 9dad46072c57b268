/**
 * UTF-8, the encoding Go strings hold and encodeURIComponent escapes: the
 * bytes of one Unicode scalar value, the bytes of a string (whose count is
 * what Go's len() of a string gives), and the facts that make the encoding
 * decodable: the lead byte fixes the length, and no two characters share an
 * encoding.
 */
module Unicode {

  /** The UTF-8 encoding of a Unicode scalar value. */
  function Utf8(c: char): (r: seq<nat>)
    ensures 1 <= |r| <= 4 && forall i :: 0 <= i < |r| ==> r[i] < 256
  {
    var v := c as int;
    if v < 0x80 then [v]
    else if v < 0x800 then [0xC0 + v / 0x40, 0x80 + v % 0x40]
    else if v < 0x10000 then [0xE0 + v / 0x1000, 0x80 + v / 0x40 % 0x40, 0x80 + v % 0x40]
    else [0xF0 + v / 0x40000, 0x80 + v / 0x1000 % 0x40, 0x80 + v / 0x40 % 0x40, 0x80 + v % 0x40]
  }

  /** The length of a UTF-8 sequence, as its lead byte announces it. */
  function LeadLength(b: nat): nat
  {
    if b < 0x80 then 1 else if b < 0xE0 then 2 else if b < 0xF0 then 3 else 4
  }

  /** The lead byte of a character's encoding announces the encoding's length. */
  lemma Utf8LeadLength(c: char)
    ensures LeadLength(Utf8(c)[0]) == |Utf8(c)|
  {
    var v := c as int;
    if 0x80 <= v < 0x800 {
      assert v / 0x40 < 0x20;
    } else if 0x800 <= v < 0x10000 {
      assert v / 0x1000 < 0x10;
    }
  }

  /** The value a well-formed UTF-8 sequence of one to four bytes encodes. */
  function Utf8Value(bs: seq<nat>): int
    requires 1 <= |bs| <= 4
  {
    if |bs| == 1 then bs[0]
    else if |bs| == 2 then (bs[0] as int - 0xC0) * 0x40 + (bs[1] as int - 0x80)
    else if |bs| == 3 then ((bs[0] as int - 0xE0) * 0x40 + (bs[1] as int - 0x80)) * 0x40 + (bs[2] as int - 0x80)
    else (((bs[0] as int - 0xF0) * 0x40 + (bs[1] as int - 0x80)) * 0x40 + (bs[2] as int - 0x80)) * 0x40 + (bs[3] as int - 0x80)
  }

  /** Splitting off the low six bits. */
  lemma Low6(x: nat)
    ensures x == x / 0x40 * 0x40 + x % 0x40
  {
  }

  /** Decoding undoes encoding. */
  lemma Utf8Decodes(c: char)
    ensures Utf8Value(Utf8(c)) == c as int
  {
    var v := c as int;
    Low6(v);
    if v >= 0x800 {
      Low6(v / 0x40);
      assert v / 0x40 / 0x40 == v / 0x1000;
    }
    if v >= 0x10000 {
      Low6(v / 0x1000);
      assert v / 0x1000 / 0x40 == v / 0x40000;
    }
  }

  /** Two characters with the same encoding are the same character. */
  lemma Utf8Injective(c: char, d: char)
    requires Utf8(c) == Utf8(d)
    ensures c == d
  {
    Utf8Decodes(c);
    Utf8Decodes(d);
  }

  /** The UTF-8 bytes of a string. */
  function Utf8Bytes(s: string): (r: seq<nat>)
    ensures |s| <= |r| <= 4 * |s|
  {
    if s == [] then [] else Utf8(s[0]) + Utf8Bytes(s[1..])
  }

  /** An ASCII string has one byte per character. */
  lemma {:induction false} Utf8BytesAscii(s: string)
    requires forall i :: 0 <= i < |s| ==> s[i] as int < 0x80
    ensures |Utf8Bytes(s)| == |s|
  {
    if s != [] {
      Utf8BytesAscii(s[1..]);
    }
  }
}
