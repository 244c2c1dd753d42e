/** The Base64 encoding as section 4 of RFC 4648 defines it, with the alphabet of its Table 1. */
module Rfc4648 {
  import opened Common
  import opened Ascii

  const ALPHABET := UPPER + LOWER + DIGITS + "+/"

  /** The v-th character of the alphabet, as an octet. */
  function Letter(v: byte): byte
    requires v < 64
  {
    ALPHABET[v as int] as int as byte
  }

  /** The padding character, '='. */
  const EQUALS: byte := 61

  /** Three octets side by side. */
  function Group(a: byte, b: byte, c: byte): bv24 {
    (a as bv24 << 16) | (b as bv24 << 8) | (c as bv24)
  }

  /** The k-th six bits of the group, from the left. */
  function Bits(g: bv24, k: nat): (r: byte)
    requires k < 4
    ensures r < 64
  {
    var v := if k == 0 then (g >> 18) & 0x3f
             else if k == 1 then (g >> 12) & 0x3f
             else if k == 2 then (g >> 6) & 0x3f
             else g & 0x3f;
    v as byte
  }

  function Sextet(g: bv24, k: nat): byte
    requires k < 4
  {
    Letter(Bits(g, k))
  }

  /** Zero bits fill up a short last group. */
  function Encoding(s: seq<byte>): seq<byte> {
    if |s| == 0 then []
    else if |s| == 1 then
      var g := Group(s[0], 0, 0);
      [Sextet(g, 0), Sextet(g, 1), EQUALS, EQUALS]
    else if |s| == 2 then
      var g := Group(s[0], s[1], 0);
      [Sextet(g, 0), Sextet(g, 1), Sextet(g, 2), EQUALS]
    else
      var g := Group(s[0], s[1], s[2]);
      [Sextet(g, 0), Sextet(g, 1), Sextet(g, 2), Sextet(g, 3)] + Encoding(s[3..])
  }
}
