/** ObjectIds and hashes in hexadecimal. */
module Hex {
  import opened Bytes
  import opened Wrappers

  function HexDigit(v: int): (c: byte)
    requires 0 <= v < 16
  {
    if v < 10 then 48 + v else 87 + v
  }

  /** The value of a digit of either case, 16 for anything else. */
  function HexValue(c: byte): (v: int)
    ensures 0 <= v <= 16
  {
    if 48 <= c <= 57 then c - 48
    else if 97 <= c <= 102 then c - 87
    else if 65 <= c <= 70 then c - 55
    else 16
  }

  function ToHex(b: text): (h: text)
    ensures |h| == 2 * |b|
    ensures forall c | c in h :: 48 <= c <= 57 || 97 <= c <= 102
  {
    if b == [] then [] else [HexDigit(b[0] / 16), HexDigit(b[0] % 16)] + ToHex(b[1..])
  }

  function FromHex(h: text): Option<text> {
    if h == [] then Some([])
    else if |h| == 1 || HexValue(h[0]) == 16 || HexValue(h[1]) == 16 then None
    else
      match FromHex(h[2..])
      case None => None
      case Some(rest) => Some([HexValue(h[0]) * 16 + HexValue(h[1])] + rest)
  }

  lemma {:induction false} HexRoundTrip(b: text)
    ensures FromHex(ToHex(b)) == Some(b)
  {
    if b != [] {
      HexRoundTrip(b[1..]);
      assert ToHex(b)[2..] == ToHex(b[1..]);
      assert HexValue(HexDigit(b[0] / 16)) == b[0] / 16 && HexValue(HexDigit(b[0] % 16)) == b[0] % 16;
      assert [b[0]] + b[1..] == b;
    }
  }

  const HEX_DIGITS := "0123456789abcdef"

  /** Two lower-case digits a byte, the high one first. */
  lemma {:induction false} HexText(b: text, i: nat)
    requires i < |b|
    ensures ToHex(b)[2 * i] == HEX_DIGITS[b[i] / 16] as int
    ensures ToHex(b)[2 * i + 1] == HEX_DIGITS[b[i] % 16] as int
  {
    DigitText(b[0] / 16);
    DigitText(b[0] % 16);
    if i > 0 {
      HexText(b[1..], i - 1);
      assert ToHex(b)[2..] == ToHex(b[1..]);
      assert ToHex(b)[2..][2 * i - 2] == ToHex(b)[2 * i] && ToHex(b)[2..][2 * i - 1] == ToHex(b)[2 * i + 1];
    }
  }

  lemma DigitText(v: int)
    requires 0 <= v < 16
    ensures HexDigit(v) == HEX_DIGITS[v] as int
  {
  }
}
