/** Section 5 of RFC 4648, the URL-safe alphabet, without padding (section 3.2). */
module Base64Url {
  import opened Bytes
  import opened Wrappers
  import opened Sorting

  function Digit(v: int): byte
    requires 0 <= v < 64
  {
    if v < 26 then 65 + v
    else if v < 52 then 71 + v
    else if v < 62 then v - 4
    else if v == 62 then 45
    else 95
  }

  /** The value of a digit, 64 for a byte outside the alphabet. */
  function Undigit(c: byte): (v: int)
    ensures 0 <= v <= 64
  {
    if 65 <= c <= 90 then c - 65
    else if 97 <= c <= 122 then c - 71
    else if 48 <= c <= 57 then c + 4
    else if c == 45 then 62
    else if c == 95 then 63
    else 64
  }

  /** The four digits of three bytes. */
  function Group(x: byte, y: byte, z: byte): (g: text)
    ensures |g| == 4
  {
    [Digit(x / 4), Digit(x % 4 * 16 + y / 16), Digit(y % 16 * 4 + z / 64), Digit(z % 64)]
  }

  function Encode(b: text): text {
    if b == [] then []
    else if |b| == 1 then Group(b[0], 0, 0)[..2]
    else if |b| == 2 then Group(b[0], b[1], 0)[..3]
    else Group(b[0], b[1], b[2]) + Encode(b[3..])
  }

  /** Line breaks are skipped, and the unused low bits of a last short group are ignored. */
  function Decode(s: text): Option<text> {
    DecodeDigits(Filter(s, NotBreak()))
  }

  function NotBreak(): byte -> bool {
    (c: byte) => c != 10 && c != 13
  }

  /** The three bytes of four digit values. */
  function Octets(a: int, b: int, c: int, d: int): (r: text)
    ensures |r| == 3
  {
    [(a * 4 + b / 16) % 256, (b % 16 * 16 + c / 4) % 256, (c % 4 * 64 + d) % 256]
  }

  /** The bytes in two to four digits. */
  function Ungroup(g: text): (b: Option<text>)
    requires 2 <= |g| <= 4
    ensures b.Some? ==> |b.value| == |g| - 1
  {
    var v2 := if |g| > 2 then Undigit(g[2]) else 0;
    var v3 := if |g| > 3 then Undigit(g[3]) else 0;
    if Undigit(g[0]) == 64 || Undigit(g[1]) == 64 || v2 == 64 || v3 == 64 then None
    else Some(Octets(Undigit(g[0]), Undigit(g[1]), v2, v3)[..|g| - 1])
  }

  function DecodeDigits(s: text): (b: Option<text>)
    ensures b.Some? ==> |b.value| == |s| * 3 / 4
  {
    if s == [] then Some([])
    else if |s| == 1 then None
    else if |s| < 4 then Ungroup(s)
    else
      match (Ungroup(s[..4]), DecodeDigits(s[4..]))
      case (Some(b), Some(rest)) => Some(b + rest)
      case _ => None
  }

  lemma {:induction false} EncodeShape(b: text)
    ensures |Encode(b)| == (|b| * 4 + 2) / 3
    ensures forall c | c in Encode(b) :: NotBreak()(c)
  {
    if |b| > 2 { EncodeShape(b[3..]); }
  }

  lemma DigitRoundTrip(v: int)
    requires 0 <= v < 64
    ensures Undigit(Digit(v)) == v
  {
  }

  lemma Nibbles(a: int, b: int)
    requires 0 <= b < 16
    ensures (a * 16 + b) / 16 == a && (a * 16 + b) % 16 == b
  {
  }

  lemma Quarters(a: int, b: int)
    requires 0 <= b < 4
    ensures (a * 4 + b) / 4 == a && (a * 4 + b) % 4 == b
  {
  }

  lemma BitsRoundTrip(x: byte, y: byte, z: byte, c: int, d: int)
    ensures Octets(x / 4, x % 4 * 16 + y / 16, c, d)[0] == x
    ensures c == y % 16 * 4 + z / 64 ==> Octets(x / 4, x % 4 * 16 + y / 16, c, d)[1] == y
    ensures c == y % 16 * 4 + z / 64 && d == z % 64 ==> Octets(x / 4, x % 4 * 16 + y / 16, c, d)[2] == z
  {
    Nibbles(x % 4, y / 16);
    Quarters(y % 16, z / 64);
  }

  /** n digits of a group give back its first n - 1 bytes. */
  lemma GroupRoundTrip(x: byte, y: byte, z: byte, n: nat)
    requires 2 <= n <= 4
    ensures Ungroup(Group(x, y, z)[..n]) == Some([x, y, z][..n - 1])
  {
    DigitRoundTrip(x / 4);
    DigitRoundTrip(x % 4 * 16 + y / 16);
    DigitRoundTrip(y % 16 * 4 + z / 64);
    DigitRoundTrip(z % 64);
    var c, d := if n > 2 then y % 16 * 4 + z / 64 else 0, if n > 3 then z % 64 else 0;
    BitsRoundTrip(x, y, z, c, d);
    assert Octets(x / 4, x % 4 * 16 + y / 16, c, d)[..n - 1] == [x, y, z][..n - 1];
  }

  lemma {:induction false} DigitsDecode(b: text)
    ensures DecodeDigits(Encode(b)) == Some(b)
    decreases |b|
  {
    if |b| == 1 {
      GroupRoundTrip(b[0], 0, 0, 2);
      assert [b[0], 0, 0][..1] == b;
    } else if |b| == 2 {
      GroupRoundTrip(b[0], b[1], 0, 3);
      assert [b[0], b[1], 0][..2] == b;
    } else if |b| > 2 {
      var g := Group(b[0], b[1], b[2]);
      GroupRoundTrip(b[0], b[1], b[2], 4);
      assert Encode(b)[..4] == g == g[..4] && Encode(b)[4..] == Encode(b[3..]);
      DigitsDecode(b[3..]);
      assert [b[0], b[1], b[2]][..3] == [b[0], b[1], b[2]];
      assert b == [b[0], b[1], b[2]] + b[3..];
    }
  }

  lemma RoundTrip(b: text)
    ensures Decode(Encode(b)) == Some(b)
  {
    EncodeShape(b);
    FilterAll(Encode(b), NotBreak());
    DigitsDecode(b);
  }

  /** A token cut short decodes to a proper prefix of the bytes, if at all. */
  lemma PrefixIsPrefix(b: text, m: nat)
    requires m < |Encode(b)|
    ensures var d := Decode(Encode(b)[..m]); d.Some? ==> |d.value| < |b| && d.value == b[..|d.value|]
  {
    EncodeShape(b);
    FilterAll(Encode(b)[..m], NotBreak());
    DigitsPrefix(b, m);
  }

  lemma {:induction false} DigitsPrefix(b: text, m: nat)
    requires m < |Encode(b)|
    ensures var d := DecodeDigits(Encode(b)[..m]); d.Some? ==> |d.value| < |b| && d.value == b[..|d.value|]
    decreases |b|
  {
    EncodeShape(b);
    if |b| > 2 && m >= 4 {
      FirstGroupDecodes(b, m);
      DigitsPrefix(b[3..], m - 4);
      PrefixGrows(b, DecodeDigits(Encode(b[3..])[..m - 4]));
    } else if m >= 2 {
      PartialGroup(b, m);
    } else {
      assert DecodeDigits(Encode(b)[..m]) == if m == 0 then Some([]) else None;
    }
  }

  lemma PrefixGrows(b: text, d: Option<text>)
    requires |b| > 2 && (d.Some? ==> |d.value| < |b[3..]| && d.value == b[3..][..|d.value|])
    ensures d.Some? ==> [b[0], b[1], b[2]] + d.value == b[..3 + |d.value|]
  {
  }

  lemma FirstGroupDecodes(b: text, m: nat)
    requires |b| > 2 && 4 <= m <= |Encode(b)|
    ensures m - 4 <= |Encode(b[3..])|
    ensures DecodeDigits(Encode(b)[..m]) ==
              match DecodeDigits(Encode(b[3..])[..m - 4])
              case None => None
              case Some(rest) => Some([b[0], b[1], b[2]] + rest)
  {
    var g, s := Group(b[0], b[1], b[2]), Encode(b)[..m];
    GroupRoundTrip(b[0], b[1], b[2], 4);
    assert Encode(b) == g + Encode(b[3..]);
    assert s[..4] == g == g[..4] && s[4..] == Encode(b[3..])[..m - 4];
    assert [b[0], b[1], b[2]][..3] == [b[0], b[1], b[2]];
  }

  /** A first group cut short keeps the first bytes it holds completely. */
  lemma PartialGroup(b: text, m: nat)
    requires |b| > 1 && 2 <= m <= 3 && m < |Encode(b)|
    ensures DecodeDigits(Encode(b)[..m]) == Some(b[..m - 1])
  {
    EncodeShape(b);
    var x, y, z := b[0], b[1], if |b| > 2 then b[2] else 0;
    assert Encode(b)[..m] == Group(x, y, z)[..m];
    GroupRoundTrip(x, y, z, m);
    assert b[..m - 1] == [x, y, z][..m - 1];
  }

  /** Table 2 of RFC 4648: upper case, lower case, numerals, a hyphen and an underscore. */
  lemma DigitIsTabled(v: int)
    requires 0 <= v < 64
    ensures var c := Digit(v);
            && ('A' as int <= c <= 'Z' as int <==> v < 26) && (v < 26 ==> c - 'A' as int == v)
            && ('a' as int <= c <= 'z' as int <==> 26 <= v < 52) && (26 <= v < 52 ==> c - 'a' as int == v - 26)
            && ('0' as int <= c <= '9' as int <==> 52 <= v < 62) && (52 <= v < 62 ==> c - '0' as int == v - 52)
            && (c == '-' as int <==> v == 62) && (c == '_' as int <==> v == 63)
  {
  }

  /** Three bytes and their four digits are one number, the most significant part first. */
  lemma GroupIsBigEndian(x: byte, y: byte, z: byte)
    ensures var g := Group(x, y, z);
            x * 0x1_0000 + y * 0x100 + z ==
              Undigit(g[0]) * 0x4_0000 + Undigit(g[1]) * 0x1000 + Undigit(g[2]) * 0x40 + Undigit(g[3])
  {
    DigitRoundTrip(x / 4);
    DigitRoundTrip(x % 4 * 16 + y / 16);
    DigitRoundTrip(y % 16 * 4 + z / 64);
    DigitRoundTrip(z % 64);
  }
}
