/** UTF-8 as defined in sections 3 and 4 of RFC 3629, one scalar value at a time. */
module Utf8 {
  import opened Options

  type Byte = b: int | 0 <= b < 256
  type Scalar = v: int | 0 <= v < 0xD800 || 0xE000 <= v < 0x11_0000

  function Encode(v: Scalar): (bytes: seq<Byte>)
    ensures 1 <= |bytes| <= 4
  {
    if v < 0x80 then [v]
    else if v < 0x800 then [0xC0 + v / 64, 0x80 + v % 64]
    else if v < 0x1_0000 then [0xE0 + v / 4096, 0x80 + v / 64 % 64, 0x80 + v % 64]
    else [0xF0 + v / 262144, 0x80 + v / 4096 % 64, 0x80 + v / 64 % 64, 0x80 + v % 64]
  }

  /** The number of leading one bits of a lead byte. */
  function LeadingOnes(b: Byte): (n: nat)
    ensures n <= 8
  {
    if b < 0x80 then 0
    else if b < 0xC0 then 1
    else if b < 0xE0 then 2
    else if b < 0xF0 then 3
    else if b < 0xF8 then 4
    else if b < 0xFC then 5
    else if b < 0xFE then 6
    else if b < 0xFF then 7
    else 8
  }

  predicate IsTail(b: Byte) {
    0x80 <= b <= 0xBF
  }

  /** The syntax of byte sequences, section 4 of RFC 3629. */
  predicate IsWellFormed(bytes: seq<Byte>) {
    || (|bytes| == 1 && bytes[0] <= 0x7F)
    || (|bytes| == 2 && 0xC2 <= bytes[0] <= 0xDF && IsTail(bytes[1]))
    || (|bytes| == 3 && IsTail(bytes[2]) &&
        (|| (bytes[0] == 0xE0 && 0xA0 <= bytes[1] <= 0xBF)
         || (0xE1 <= bytes[0] <= 0xEC && IsTail(bytes[1]))
         || (bytes[0] == 0xED && 0x80 <= bytes[1] <= 0x9F)
         || (0xEE <= bytes[0] <= 0xEF && IsTail(bytes[1]))))
    || (|bytes| == 4 && IsTail(bytes[2]) && IsTail(bytes[3]) &&
        (|| (bytes[0] == 0xF0 && 0x90 <= bytes[1] <= 0xBF)
         || (0xF1 <= bytes[0] <= 0xF3 && IsTail(bytes[1]))
         || (bytes[0] == 0xF4 && 0x80 <= bytes[1] <= 0x8F)))
  }

  function Decode(bytes: seq<Byte>): Option<Scalar> {
    if !IsWellFormed(bytes) then None
    else if |bytes| == 1 then Some(bytes[0])
    else if |bytes| == 2 then
      var a: int, b: int := bytes[0] - 0xC0, bytes[1] - 0x80;
      Some(a * 64 + b)
    else if |bytes| == 3 then
      var a: int, b: int, c: int := bytes[0] - 0xE0, bytes[1] - 0x80, bytes[2] - 0x80;
      Some(a * 4096 + b * 64 + c)
    else
      var a: int, b: int, c: int, d: int :=
        bytes[0] - 0xF0, bytes[1] - 0x80, bytes[2] - 0x80, bytes[3] - 0x80;
      Some(a * 262144 + b * 4096 + c * 64 + d)
  }

  lemma EncodeThenDecode(v: Scalar)
    ensures Decode(Encode(v)) == Some(v)
    ensures var n := LeadingOnes(Encode(v)[0]); |Encode(v)| == if n == 0 then 1 else n
  {
    if v < 0x800 {
    } else if v < 0x1_0000 {
      ThreeByteForm(v);
    } else {
      FourByteForm(v);
    }
  }

  lemma ThreeByteForm(v: Scalar)
    requires 0x800 <= v < 0x1_0000
    ensures Decode(Encode(v)) == Some(v) && LeadingOnes(Encode(v)[0]) == 3
  {
    assert v == v / 4096 * 4096 + v / 64 % 64 * 64 + v % 64;
  }

  lemma FourByteForm(v: Scalar)
    requires 0x1_0000 <= v
    ensures Decode(Encode(v)) == Some(v) && LeadingOnes(Encode(v)[0]) == 4
  {
    FourDigitsOf(v);
  }

  lemma FourDigitsOf(v: nat)
    ensures v == v / 262144 * 262144 + v / 4096 % 64 * 4096 + v / 64 % 64 * 64 + v % 64
  {
    assert v / 64 / 64 == v / 4096 && v / 4096 / 64 == v / 262144;
    assert v / 4096 == v / 262144 * 64 + v / 4096 % 64;
    assert v / 64 == v / 4096 * 64 + v / 64 % 64;
  }

  lemma Digits64(high: nat, low: nat)
    requires low < 64
    ensures (high * 64 + low) / 64 == high && (high * 64 + low) % 64 == low
  {}

  lemma ThreeDigits64(a: nat, b: nat, c: nat)
    requires b < 64 && c < 64
    ensures var v := a * 4096 + b * 64 + c; v / 4096 == a && v / 64 % 64 == b && v % 64 == c
  {
    Digits64(a * 64 + b, c);
    Digits64(a, b);
  }

  lemma FourDigits64(a: nat, b: nat, c: nat, d: nat)
    requires b < 64 && c < 64 && d < 64
    ensures var v := a * 262144 + b * 4096 + c * 64 + d;
            v / 262144 == a && v / 4096 % 64 == b && v / 64 % 64 == c && v % 64 == d
  {
    var v := a * 262144 + b * 4096 + c * 64 + d;
    ThreeDigits64(a * 64 + b, c, d);
    Digits64(a, b);
    assert v / 262144 == v / 4096 / 64;
  }

  lemma DecodeThenEncode(bytes: seq<Byte>)
    requires Decode(bytes).Some?
    ensures Encode(Decode(bytes).value) == bytes
  {
    if |bytes| == 3 {
      ThreeDigits64(bytes[0] - 0xE0, bytes[1] - 0x80, bytes[2] - 0x80);
    } else if |bytes| == 4 {
      FourBytesAgain(bytes);
    }
  }

  lemma FourBytesAgain(bytes: seq<Byte>)
    requires |bytes| == 4 && Decode(bytes).Some?
    ensures Encode(Decode(bytes).value) == bytes
  {
    FourDigits64(bytes[0] - 0xF0, bytes[1] - 0x80, bytes[2] - 0x80, bytes[3] - 0x80);
  }

  /** The code is prefix-free: a byte string has at most one first scalar value. */
  lemma PrefixFree(v: Scalar, w: Scalar, x: seq<Byte>, y: seq<Byte>)
    requires Encode(v) + x == Encode(w) + y
    ensures v == w && x == y
  {
    EncodeThenDecode(v);
    EncodeThenDecode(w);
    var n := |Encode(v)|;
    assert (Encode(v) + x)[0] == Encode(v)[0] && (Encode(w) + y)[0] == Encode(w)[0];
    assert (Encode(v) + x)[..n] == Encode(v) && (Encode(w) + y)[..n] == Encode(w);
    assert (Encode(v) + x)[n..] == x && (Encode(w) + y)[n..] == y;
  }
}
