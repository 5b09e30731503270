/** `binascii.hexlify`, which renders blob literals, and its inverse `binascii.unhexlify`,
    which states what a blob literal's digits stand for. */
module Hex {
  import opened PyRuntime

  predicate IsLowerHexDigit(c: char) {
    '0' <= c <= '9' || 'a' <= c <= 'f'
  }

  predicate IsLowerHex(h: string) {
    forall i :: 0 <= i < |h| ==> IsLowerHexDigit(h[i])
  }

  /** The value of one hexadecimal digit; unhexlify accepts either case. */
  function HexValue(c: char): (r: Option<nat>)
    ensures r.Some? ==> r.value < 16
    ensures IsLowerHexDigit(c) ==> r.Some?
  {
    if '0' <= c <= '9' then Some(c as int - '0' as int)
    else if 'a' <= c <= 'f' then Some(c as int - 'a' as int + 10)
    else if 'A' <= c <= 'F' then Some(c as int - 'A' as int + 10)
    else None
  }

  /** The lower-case digit hexlify writes for a nibble. */
  function HexDigit(n: nat): (c: char)
    requires n < 16
    ensures IsLowerHexDigit(c) && HexValue(c) == Some(n)
  {
    if n < 10 then (n + '0' as int) as char else (n - 10 + 'a' as int) as char
  }

  /** `binascii.hexlify(b)`: two lower-case digits per byte, high nibble first. */
  function Hexlify(b: Bytes): (h: string)
    ensures |h| == 2 * |b|
    ensures IsLowerHex(h)
  {
    if |b| == 0 then "" else [HexDigit(b[0] / 16), HexDigit(b[0] % 16)] + Hexlify(b[1..])
  }

  /** `binascii.unhexlify(h)`: fails on odd length or on a character that is not a hex digit. */
  function Unhexlify(h: string): (r: Option<Bytes>)
    ensures r.Some? ==> 2 * |r.value| == |h|
  {
    if |h| == 0 then Some([])
    else if |h| == 1 then None
    else
      match (HexValue(h[0]), HexValue(h[1]), Unhexlify(h[2..]))
      case (Some(hi), Some(lo), Some(rest)) => Some([hi * 16 + lo] + rest)
      case _ => None
  }

  /** Every byte string survives hexlify followed by unhexlify. */
  lemma {:induction false} UnhexlifyHexlify(b: Bytes)
    ensures Unhexlify(Hexlify(b)) == Some(b)
  {
    if |b| > 0 {
      var h := Hexlify(b);
      var hi, lo := b[0] / 16, b[0] % 16;
      assert h[0] == HexDigit(hi) && h[1] == HexDigit(lo);
      assert h[2..] == Hexlify(b[1..]);
      UnhexlifyHexlify(b[1..]);
      assert hi * 16 + lo == b[0];
      assert Unhexlify(h) == Some([b[0]] + b[1..]);
      assert [b[0]] + b[1..] == b;
    }
  }

  lemma HexDigitOfValue(c: char)
    requires IsLowerHexDigit(c)
    ensures HexDigit(HexValue(c).value) == c
  {
  }

  /** Conversely, an even-length lower-case hex string is exactly what hexlify writes for
      the bytes it stands for: hexlify is a bijection onto such strings. */
  lemma {:induction false} HexlifyUnhexlify(h: string)
    requires |h| % 2 == 0 && IsLowerHex(h)
    ensures Unhexlify(h).Some? && Hexlify(Unhexlify(h).value) == h
  {
    if |h| > 0 {
      HexlifyUnhexlify(h[2..]);
      var hi, lo := HexValue(h[0]).value, HexValue(h[1]).value;
      var x := hi * 16 + lo;
      assert x / 16 == hi && x % 16 == lo;
      HexDigitOfValue(h[0]);
      HexDigitOfValue(h[1]);
      var b := Unhexlify(h).value;
      assert b == [x] + Unhexlify(h[2..]).value;
      assert b[1..] == Unhexlify(h[2..]).value;
    }
  }
}
