/** What the decoder makes of any alphabet characters, not only of what the encoder wrote. */
module Base64Decoding {
  import opened Common
  import opened Rfc4648
  import opened Base64

  predicate InAlphabet(s: seq<byte>) {
    forall i: nat :: i < |s| ==> Tok(s[i]).Value?
  }

  /** The value of an alphabet character. */
  function ValueOf(c: byte): (v: byte)
    requires Tok(c).Value?
    ensures v < 64 && Tok(c) == Value(v)
  {
    Tok(c).v
  }

  /** Four sextets side by side. */
  function Joined(a: byte, b: byte, c: byte, d: byte): bv24 {
    (a as bv24 << 18) | (b as bv24 << 12) | (c as bv24 << 6) | (d as bv24)
  }

  /** The k-th octet of a group, from the left. */
  function Octet(g: bv24, k: nat): byte
    requires k < 3
  {
    var v := if k == 0 then (g >> 16) & 0xff else if k == 1 then (g >> 8) & 0xff else g & 0xff;
    v as byte
  }

  function Three(g: bv24): (r: seq<byte>)
    ensures |r| == 3
  {
    [Octet(g, 0), Octet(g, 1), Octet(g, 2)]
  }

  /** Every four characters are three octets. */
  function Octets(s: seq<byte>): seq<byte>
    requires |s| % 4 == 0 && InAlphabet(s)
  {
    if s == [] then []
    else Three(Joined(ValueOf(s[0]), ValueOf(s[1]), ValueOf(s[2]), ValueOf(s[3]))) + Octets(s[4..])
  }

  lemma StoresJoin(a: byte, b: byte, c: byte, d: byte, buf: Buf)
    requires a < 64 && b < 64 && c < 64 && d < 64
    ensures var g := Joined(a, b, c, d);
            var b2 := Store(Store(buf, 0, a), 1, b);
            var b3 := Store(b2, 2, c);
            && b2.b0 == Octet(g, 0) && b3.b0 == Octet(g, 0) && b3.b1 == Octet(g, 1)
            && Store(b3, 3, d) == Buf(Octet(g, 0), Octet(g, 1), Octet(g, 2))
  {
  }

  lemma WalkValue(s: seq<byte>, pos: nat, buf: Buf, out: seq<byte>, v: byte)
    requires pos < |s| && Tok(s[pos]) == Value(v)
    ensures Walk(s, pos, buf, out)
         == Walk(s, pos + 1, Store(buf, pos % 4, v), if pos % 4 == 3 then out + Bytes(Store(buf, pos % 4, v)) else out)
  {
  }

  lemma WalkTwo(s: seq<byte>, pos: nat, buf: Buf, out: seq<byte>, a: byte, b: byte)
    requires pos % 4 == 0 && pos + 2 <= |s| && Tok(s[pos]) == Value(a) && Tok(s[pos + 1]) == Value(b)
    ensures Walk(s, pos, buf, out) == Walk(s, pos + 2, Store(Store(buf, 0, a), 1, b), out)
  {
    hide Walk, Store, Tok;
    WalkValue(s, pos, buf, out, a);
    WalkValue(s, pos + 1, Store(buf, 0, a), out, b);
  }

  lemma WalkFour(s: seq<byte>, pos: nat, buf: Buf, out: seq<byte>, a: byte, b: byte, c: byte, d: byte)
    requires pos % 4 == 0 && pos + 4 <= |s| && a < 64 && b < 64 && c < 64 && d < 64
    requires Tok(s[pos]) == Value(a) && Tok(s[pos + 1]) == Value(b)
    requires Tok(s[pos + 2]) == Value(c) && Tok(s[pos + 3]) == Value(d)
    ensures var g := Joined(a, b, c, d);
            Walk(s, pos, buf, out) == Walk(s, pos + 4, Buf(Octet(g, 0), Octet(g, 1), Octet(g, 2)), out + Three(g))
  {
    hide Walk, Store, Joined, Octet, Tok;
    StoresJoin(a, b, c, d, buf);
    WalkTwo(s, pos, buf, out, a, b);
    var b2 := Store(Store(buf, 0, a), 1, b);
    WalkValue(s, pos + 2, b2, out, c);
    WalkValue(s, pos + 3, Store(b2, 2, c), out, d);
  }

  lemma WalkFirst(pre: seq<byte>, t: seq<byte>, rest: seq<byte>, buf: Buf, out: seq<byte>)
    requires |pre| % 4 == 0 && |t| >= 4 && InAlphabet(t)
    ensures var s, g := pre + t + rest, Joined(ValueOf(t[0]), ValueOf(t[1]), ValueOf(t[2]), ValueOf(t[3]));
            Walk(s, |pre|, buf, out) ==
            Walk(s, |pre| + 4, Buf(Octet(g, 0), Octet(g, 1), Octet(g, 2)), out + Three(g))
  {
    var a, b, c, d := ValueOf(t[0]), ValueOf(t[1]), ValueOf(t[2]), ValueOf(t[3]);
    hide Walk, Tok, Octet, Joined, Three, ValueOf, InAlphabet;
    WalkFour(pre + t + rest, |pre|, buf, out, a, b, c, d);
  }

  lemma Regrouped(pre: seq<byte>, t: seq<byte>, rest: seq<byte>)
    requires |t| >= 4
    ensures pre + t + rest == (pre + t[..4]) + t[4..] + rest && pre + t == (pre + t[..4]) + t[4..]
  {
  }

  lemma {:induction false} WalkPlain(pre: seq<byte>, t: seq<byte>, rest: seq<byte>, buf: Buf, out: seq<byte>)
    returns (b: Buf)
    requires |pre| % 4 == 0 && |t| % 4 == 0 && InAlphabet(t)
    ensures Walk(pre + t + rest, |pre|, buf, out) == Walk(pre + t + rest, |pre| + |t|, b, out + Octets(t))
    decreases |t|
  {
    if t == [] {
      b := buf;
      assert out + Octets(t) == out;
    } else {
      hide Walk, Tok, Octet, Joined, Three, ValueOf;
      var g := Joined(ValueOf(t[0]), ValueOf(t[1]), ValueOf(t[2]), ValueOf(t[3]));
      WalkFirst(pre, t, rest, buf, out);
      Regrouped(pre, t, rest);
      b := WalkPlain(pre + t[..4], t[4..], rest, Buf(Octet(g, 0), Octet(g, 1), Octet(g, 2)), out + Three(g));
      assert (out + Three(g)) + Octets(t[4..]) == out + (Three(g) + Octets(t[4..]));
    }
  }

  lemma WalkEnd(s: seq<byte>, b: Buf, out: seq<byte>)
    ensures |s| % 4 == 0 ==> Walk(s, |s|, b, out) == Some(out)
  {
  }

  /** Whatever alphabet characters there are, unpadded: every four of them are three octets. */
  lemma DecodesFours(t: seq<byte>)
    requires |t| % 4 == 0 && InAlphabet(t)
    ensures Decoded(t) == Some(Octets(t))
  {
    hide Octets, Tok, Walk;
    var b := WalkPlain([], t, [], Buf(0, 0, 0), []);
    assert [] + t + [] == t && [] + Octets(t) == Octets(t);
    WalkEnd(t, b, Octets(t));
  }

  lemma WalkEquals(s: seq<byte>, pos: nat, b: Buf, out: seq<byte>)
    requires pos < |s| && s[pos] == EQUALS
    ensures pos % 4 == 2 && pos + 1 < |s| && s[pos + 1] == EQUALS ==> Walk(s, pos, b, out) == Some(out + [b.b0])
    ensures pos % 4 == 3 ==> Walk(s, pos, b, out) == Some(out + [b.b0, b.b1])
  {
  }

  lemma WalkTwoEquals(s: seq<byte>, pos: nat, b: Buf, out: seq<byte>, x: byte, y: byte)
    requires pos % 4 == 0 && pos + 4 <= |s| && x < 64 && y < 64
    requires Tok(s[pos]) == Value(x) && Tok(s[pos + 1]) == Value(y) && s[pos + 2] == s[pos + 3] == EQUALS
    ensures Walk(s, pos, b, out) == Some(out + [Octet(Joined(x, y, 0, 0), 0)])
  {
    hide Walk, Store, Joined, Octet, Tok;
    StoresJoin(x, y, 0, 0, b);
    WalkTwo(s, pos, b, out, x, y);
    WalkEquals(s, pos + 2, Store(Store(b, 0, x), 1, y), out);
  }

  /** The characters before a tail are read as they are without it. */
  lemma DecodedFrom(t: seq<byte>, tail: seq<byte>) returns (b: Buf)
    requires |t| % 4 == 0 && InAlphabet(t)
    ensures Decoded(t + tail) == Walk(t + tail, |t|, b, Octets(t))
  {
    hide Octets, Tok, Walk, InAlphabet;
    b := WalkPlain([], t, tail, Buf(0, 0, 0), []);
    assert [] + t + tail == t + tail && [] + Octets(t) == Octets(t);
  }

  /** Two characters more and two of padding are one octet more, whatever comes behind. */
  lemma DecodesTwo(t: seq<byte>, x: byte, y: byte, rest: seq<byte>)
    requires |t| % 4 == 0 && InAlphabet(t) && Tok(x).Value? && Tok(y).Value?
    ensures Decoded(t + ([x, y, EQUALS, EQUALS] + rest))
         == Some(Octets(t) + [Octet(Joined(ValueOf(x), ValueOf(y), 0, 0), 0)])
  {
    hide *;
    var tail := [x, y, EQUALS, EQUALS] + rest;
    var b := DecodedFrom(t, tail);
    WalkTwoEquals(t + tail, |t|, b, Octets(t), ValueOf(x), ValueOf(y));
  }

  lemma WalkOneEquals(s: seq<byte>, pos: nat, b: Buf, out: seq<byte>, x: byte, y: byte, z: byte)
    requires pos % 4 == 0 && pos + 4 <= |s| && x < 64 && y < 64 && z < 64
    requires Tok(s[pos]) == Value(x) && Tok(s[pos + 1]) == Value(y) && Tok(s[pos + 2]) == Value(z)
    requires s[pos + 3] == EQUALS
    ensures var g := Joined(x, y, z, 0); Walk(s, pos, b, out) == Some(out + [Octet(g, 0), Octet(g, 1)])
  {
    hide Walk, Store, Joined, Octet, Tok;
    StoresJoin(x, y, z, 0, b);
    WalkTwo(s, pos, b, out, x, y);
    var b2 := Store(Store(b, 0, x), 1, y);
    WalkValue(s, pos + 2, b2, out, z);
    WalkEquals(s, pos + 3, Store(b2, 2, z), out);
  }

  /** Three characters more and one of padding are two octets more. */
  lemma DecodesThree(t: seq<byte>, x: byte, y: byte, z: byte, rest: seq<byte>)
    requires |t| % 4 == 0 && InAlphabet(t) && Tok(x).Value? && Tok(y).Value? && Tok(z).Value?
    ensures var g := Joined(ValueOf(x), ValueOf(y), ValueOf(z), 0);
            Decoded(t + ([x, y, z, EQUALS] + rest)) == Some(Octets(t) + [Octet(g, 0), Octet(g, 1)])
  {
    hide *;
    var tail := [x, y, z, EQUALS] + rest;
    var b := DecodedFrom(t, tail);
    WalkOneEquals(t + tail, |t|, b, Octets(t), ValueOf(x), ValueOf(y), ValueOf(z));
  }

  lemma FullGroup()
    ensures Three(Joined(63, 63, 63, 63)) == [255, 255, 255]
    ensures Octet(Joined(63, 63, 63, 63), 0) == 255
    ensures Octet(Joined(63, 63, 63, 63), 1) == 255 && Octet(Joined(63, 63, 63, 63), 2) == 255
  {
  }

  lemma StaleStores()
    ensures Store(Buf(255, 255, 255), 1, 0) == Buf(255, 0, 255)
    ensures Store(Buf(255, 0, 255), 2, 0) == Buf(255, 0, 0)
    ensures Store(Buf(255, 0, 0), 3, 0) == Buf(255, 0, 0)
    ensures Tok(47) == Value(63) && Tok(65) == Value(0) && Tok(33) == Invalid
  {
  }

  lemma WalkInvalid(s: seq<byte>, pos: nat, b: Buf, out: seq<byte>)
    requires pos < |s| && Tok(s[pos]).Invalid?
    ensures Walk(s, pos, b, out) == Walk(s, pos + 1, b, out)
  {
  }

  /** A character outside the alphabet takes up its place and leaves in the scratch buffer what the
      group before put there: "////!AAA" gives 255 four times and 0 twice. */
  lemma InvalidLeavesStaleBits()
    ensures Decoded([47, 47, 47, 47, 33, 65, 65, 65]) == Some([255, 255, 255, 255, 0, 0])
  {
    var s: seq<byte> := [47, 47, 47, 47, 33, 65, 65, 65];
    var out: seq<byte> := [255, 255, 255];
    FullGroup();
    StaleStores();
    hide Walk, Store, Tok, Joined, Octet, Three;
    WalkFour(s, 0, Buf(0, 0, 0), [], 63, 63, 63, 63);
    assert [] + out == out;
    WalkInvalid(s, 4, Buf(255, 255, 255), out);
    WalkValue(s, 5, Buf(255, 255, 255), out, 0);
    WalkValue(s, 6, Buf(255, 0, 255), out, 0);
    WalkValue(s, 7, Buf(255, 0, 0), out, 0);
    assert out + Bytes(Buf(255, 0, 0)) == [255, 255, 255, 255, 0, 0];
    WalkEnd(s, Buf(255, 0, 0), [255, 255, 255, 255, 0, 0]);
  }
}
