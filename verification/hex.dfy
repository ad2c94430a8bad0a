/** Lower-case hexadecimal text of a byte string, as Python's `bytes.hex()`
    writes it: two digits per byte, high nibble first. The random request
    path and the random hostname suffix of the port test are such texts. */
module Hex {
  import opened Outcomes
  import opened Text

  newtype byte = x: int | 0 <= x < 256

  predicate IsHexDigit(c: char) {
    ('0' <= c <= '9') || ('a' <= c <= 'f')
  }

  predicate IsHex(s: string) {
    forall i :: 0 <= i < |s| ==> IsHexDigit(s[i])
  }

  /** The lower-case digit of a nibble, `0`-`9` then `a`-`f`. */
  function Digit(n: int): (c: char)
    requires 0 <= n < 16
    ensures IsHexDigit(c)
  {
    if n < 10 then ('0' as int + n) as char else ('a' as int + n - 10) as char
  }

  /** The value of one lower-case hexadecimal digit. */
  function DigitValue(c: char): (n: int)
    requires IsHexDigit(c)
    ensures 0 <= n < 16 && Digit(n) == c
  {
    if c <= '9' then c as int - '0' as int else c as int - 'a' as int + 10
  }

  /** `bytes.hex()` */
  function Encode(bs: seq<byte>): (s: string)
    ensures |s| == 2 * |bs|
    ensures IsHex(s)
    decreases |bs|
  {
    if |bs| == 0 then ""
    else
      var n := bs[0] as int;
      [Digit(n / 16), Digit(n % 16)] + Encode(bs[1..])
  }

  /** `bytes.fromhex()` restricted to what `Encode` writes: an even number
      of lower-case digits. */
  function Decode(s: string): (r: Option<seq<byte>>)
    ensures r.Some? ==> 2 * |r.value| == |s|
    decreases |s|
  {
    if |s| == 0 then Some([])
    else if |s| == 1 || !IsHexDigit(s[0]) || !IsHexDigit(s[1]) then None
    else
      match Decode(s[2..])
      case None => None
      case Some(rest) => Some([(DigitValue(s[0]) * 16 + DigitValue(s[1])) as byte] + rest)
  }

  lemma DigitValueOf(n: int)
    requires 0 <= n < 16
    ensures DigitValue(Digit(n)) == n
  {
  }

  /** Reading the hex text back gives the bytes it was written from. */
  lemma {:induction false} DecodeEncode(bs: seq<byte>)
    ensures Decode(Encode(bs)) == Some(bs)
    decreases |bs|
  {
    if |bs| > 0 {
      var n := bs[0] as int;
      var hi, lo, rest := Digit(n / 16), Digit(n % 16), Encode(bs[1..]);
      assert Encode(bs) == [hi, lo] + rest;
      DecodeEncode(bs[1..]);
      ByteDigits(bs[0]);
      DecodePair(hi, lo, rest);
      var b := (DigitValue(hi) * 16 + DigitValue(lo)) as byte;
      assert b == bs[0];
      assert Decode(Encode(bs)) == Some([b] + bs[1..]);
      assert bs == [bs[0]] + bs[1..];
    }
  }

  /** Decoding a text that starts with two digits. */
  lemma DecodePair(hi: char, lo: char, rest: string)
    requires IsHexDigit(hi) && IsHexDigit(lo)
    ensures Decode(rest).Some? ==> Decode([hi, lo] + rest) == Some([(DigitValue(hi) * 16 + DigitValue(lo)) as byte] + Decode(rest).value)
  {
    var s := [hi, lo] + rest;
    assert s[0] == hi && s[1] == lo && s[2..] == rest;
  }

  /** A byte's two digits read back to the byte. */
  lemma ByteDigits(b: byte)
    ensures (DigitValue(Digit(b as int / 16)) * 16 + DigitValue(Digit(b as int % 16))) as byte == b
  {
    DigitValueOf(b as int / 16);
    DigitValueOf(b as int % 16);
  }

  /** Distinct byte strings have distinct hex texts. */
  lemma EncodeInjective(a: seq<byte>, b: seq<byte>)
    requires Encode(a) == Encode(b)
    ensures a == b
  {
    DecodeEncode(a);
    DecodeEncode(b);
  }

  /** Hex text contains no whitespace, no line feed and no colon. */
  lemma HexIsPlain(s: string)
    requires IsHex(s)
    ensures NoSpace(s) && '\n' !in s && ':' !in s
  {
  }
}
