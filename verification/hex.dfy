/** Lowercase base16 text: the encoding Node's `Buffer#toString('hex')`
    produces (section 8 of RFC 4648, lowercase alphabet), and the textual
    form of a MongoDB ObjectId (12 bytes, 24 hex digits). */
module Hex {

  /** A byte, as `crypto.randomBytes` yields them. */
  type Byte = b: int | 0 <= b < 256

  predicate IsLowerHexDigit(c: char) {
    '0' <= c <= '9' || 'a' <= c <= 'f'
  }

  predicate IsLowerHex(s: string) {
    forall i :: 0 <= i < |s| ==> IsLowerHexDigit(s[i])
  }

  /** The digit for a nibble. */
  function HexDigit(n: nat): (c: char)
    requires n < 16
    ensures IsLowerHexDigit(c)
  {
    if n < 10 then '0' + n as char else 'a' + (n - 10) as char
  }

  /** The nibble a digit stands for; the inverse of HexDigit. */
  function NibbleOf(c: char): (n: nat)
    requires IsLowerHexDigit(c)
    ensures n < 16 && HexDigit(n) == c
  {
    if c <= '9' then (c - '0') as nat else (c - 'a') as nat + 10
  }

  lemma NibbleOfHexDigit(n: nat)
    requires n < 16
    ensures NibbleOf(HexDigit(n)) == n
  {
  }

  /** Two digits per byte, high nibble first. */
  function EncodeByte(b: Byte): string {
    [HexDigit(b / 16), HexDigit(b % 16)]
  }

  /** `Buffer#toString('hex')`. */
  function Encode(bytes: seq<Byte>): (s: string)
    ensures |s| == 2 * |bytes| && IsLowerHex(s)
  {
    if bytes == [] then [] else EncodeByte(bytes[0]) + Encode(bytes[1..])
  }

  /** The inverse of Encode on well-formed hex text. */
  function Decode(s: string): (bytes: seq<Byte>)
    requires IsLowerHex(s) && |s| % 2 == 0
    ensures 2 * |bytes| == |s|
  {
    if s == [] then [] else [NibbleOf(s[0]) * 16 + NibbleOf(s[1])] + Decode(s[2..])
  }

  lemma {:induction false} DecodeEncode(bytes: seq<Byte>)
    ensures Decode(Encode(bytes)) == bytes
  {
    if bytes != [] {
      var b := bytes[0];
      NibbleOfHexDigit(b / 16);
      NibbleOfHexDigit(b % 16);
      assert Encode(bytes)[2..] == Encode(bytes[1..]);
      DecodeEncode(bytes[1..]);
    }
  }

  lemma {:induction false} EncodeDecode(s: string)
    requires IsLowerHex(s) && |s| % 2 == 0
    ensures Encode(Decode(s)) == s
  {
    if s != [] {
      var b := NibbleOf(s[0]) * 16 + NibbleOf(s[1]);
      assert b / 16 == NibbleOf(s[0]) && b % 16 == NibbleOf(s[1]);
      EncodeDecode(s[2..]);
      assert Decode(s)[1..] == Decode(s[2..]);
    }
  }

  /** Hex encoding loses nothing: distinct byte strings give distinct text. */
  lemma EncodeInjective(a: seq<Byte>, b: seq<Byte>)
    requires Encode(a) == Encode(b)
    ensures a == b
  {
    DecodeEncode(a);
    DecodeEncode(b);
  }

  /** The 24-digit lowercase hex form of a MongoDB ObjectId, which is what
      `ObjectId#toString()` returns and what ids are compared as. */
  predicate IsObjectId(s: string) {
    |s| == 24 && IsLowerHex(s)
  }

  type ObjectId = s: string | IsObjectId(s) witness "000000000000000000000000"
}
