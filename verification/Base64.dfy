/** Base64 as msocket/base64.c has it: an encoder that walks the input with one index it bumps in
    the middle of a group, and a decoder that goes by the position of each character. */
module Base64 {
  import opened Common
  import opened Rfc4648

  const PAD: byte := 61

  // ----- Tables ----------------------------------------------------------------------------

  /** The encoding table: A to Z, a to z, 0 to 9, plus, slash. */
  function Symbol(v: byte): byte
    requires v < 64
  {
    if v < 26 then v + 65
    else if v < 52 then v + 71
    else if v < 62 then v - 4
    else if v == 62 then 43
    else 47
  }

  /** The decoding table, whose entries -3, -2 and -1 are End, Padding and Invalid. */
  datatype Token = End | Padding | Invalid | Value(v: byte)

  function Tok(c: byte): Token {
    if c == 0 then End
    else if c == PAD then Padding
    else if c == 43 then Value(62)
    else if c == 47 then Value(63)
    else if 48 <= c <= 57 then Value(c + 4)
    else if 65 <= c <= 90 then Value(c - 65)
    else if 97 <= c <= 122 then Value(c - 71)
    else Invalid
  }

  lemma TablesAreInverse(v: byte)
    requires v < 64
    ensures Tok(Symbol(v)) == Value(v)
  {
  }

  /** The encoding table is the alphabet of the RFC. */
  lemma TableIsAlphabet(v: byte)
    requires v < 64
    ensures |ALPHABET| == 64 && Symbol(v) as int == ALPHABET[v as int] as int && Symbol(v) == Letter(v)
  {
  }

  /** The decoding table finds each character of the RFC's alphabet, and no other. */
  lemma DecodingTableIsAlphabet(c: byte, v: byte)
    requires v < 64
    ensures |ALPHABET| == 64 && (Tok(c) == Value(v) <==> c as int == ALPHABET[v as int] as int)
  {
    TableIsAlphabet(v);
    hide Symbol, Tok, Letter;
    assert c == Symbol(v) <==> c as int == Symbol(v) as int;
  }

  // ----- The encoder -----------------------------------------------------------------------

  /** C shifts ints here; only the low six bits survive the mask, so octets lose nothing. */
  function First(a: byte): byte { Symbol(a >> 2) }
  function Second(a: byte, b: byte): byte { Symbol(((a << 4) | (b >> 4)) & 0x3f) }
  function Third(b: byte, c: byte): byte { Symbol(((b << 2) | (c >> 6)) & 0x3f) }
  function Fourth(c: byte): byte { Symbol(c & 0x3f) }
  function LastThird(b: byte): byte { Symbol((b << 2) & 0x3f) }

  /** What a full group of three octets becomes. */
  function Four(a: byte, b: byte, c: byte): (r: seq<byte>)
    ensures |r| == 4
  {
    [First(a), Second(a, b), Third(b, c), Fourth(c)]
  }

  /** What the encoder writes for s when the octet after it in memory is next. */
  function Coded(s: seq<byte>, next: byte): (r: seq<byte>)
    ensures |r| == (|s| + 2) / 3 * 4
  {
    if |s| == 0 then []
    else if |s| == 1 then [First(s[0]), Second(s[0], next), PAD, PAD]
    else if |s| == 2 then [First(s[0]), Second(s[0], s[1]), LastThird(s[1]), PAD]
    else Four(s[0], s[1], s[2]) + Coded(s[3..], next)
  }

  lemma GroupBits(a: byte, b: byte, c: byte)
    ensures Bits(Group(a, b, c), 0) == a >> 2
    ensures Bits(Group(a, b, c), 1) == ((a << 4) | (b >> 4)) & 0x3f
    ensures Bits(Group(a, b, c), 2) == ((b << 2) | (c >> 6)) & 0x3f
    ensures Bits(Group(a, b, c), 3) == c & 0x3f
    ensures Bits(Group(a, b, 0), 2) == (b << 2) & 0x3f
  {
  }

  lemma GroupIsRfc(a: byte, b: byte, c: byte)
    ensures First(a) == Sextet(Group(a, b, c), 0)
    ensures Second(a, b) == Sextet(Group(a, b, c), 1)
    ensures Third(b, c) == Sextet(Group(a, b, c), 2)
    ensures Fourth(c) == Sextet(Group(a, b, c), 3)
    ensures LastThird(b) == Sextet(Group(a, b, 0), 2)
  {
    hide Symbol, Letter, Bits, Group;
    GroupBits(a, b, c);
    TableIsAlphabet(a >> 2);
    TableIsAlphabet(((a << 4) | (b >> 4)) & 0x3f);
    TableIsAlphabet(((b << 2) | (c >> 6)) & 0x3f);
    TableIsAlphabet(c & 0x3f);
    TableIsAlphabet((b << 2) & 0x3f);
  }

  lemma SymbolsDiffer(v: byte, w: byte)
    requires v < 64 && w < 64
    ensures Symbol(v) == Symbol(w) <==> v == w
  {
  }

  lemma StrayBits(a: byte, next: byte)
    ensures Second(a, next) == Sextet(Group(a, 0, 0), 1) <==> next < 16
  {
    GroupIsRfc(a, 0, 0);
    hide Symbol, Letter, Bits, Group, Sextet;
    SymbolsDiffer(((a << 4) | (next >> 4)) & 0x3f, ((a << 4) | (0 >> 4)) & 0x3f);
  }

  lemma SameGroup(x: seq<byte>, y: seq<byte>, u: seq<byte>, v: seq<byte>)
    requires |x| == |y|
    ensures x + u == y + v <==> x == y && u == v
  {
    if x + u == y + v {
      assert x == (x + u)[..|x|] && y == (y + v)[..|x|];
      assert u == (x + u)[|x|..] && v == (y + v)[|x|..];
    }
  }

  lemma ShortIsRfc(s: seq<byte>, next: byte)
    requires |s| < 3
    ensures Coded(s, next) == Encoding(s) <==> |s| != 1 || next < 16
  {
    hide First, Second, Third, LastThird, Sextet, Group;
    if |s| == 1 {
      GroupIsRfc(s[0], 0, 0);
      StrayBits(s[0], next);
      assert Coded(s, next)[1] == Second(s[0], next);
      assert Encoding(s)[1] == Sextet(Group(s[0], 0, 0), 1);
    } else if |s| == 2 {
      GroupIsRfc(s[0], s[1], 0);
    }
  }

  lemma CodedHead(s: seq<byte>, next: byte)
    requires |s| >= 3
    ensures Coded(s, next) == Four(s[0], s[1], s[2]) + Coded(s[3..], next)
  {
  }

  lemma RfcHead(s: seq<byte>)
    requires |s| >= 3
    ensures Encoding(s) == Four(s[0], s[1], s[2]) + Encoding(s[3..])
  {
    hide First, Second, Third, Fourth, Sextet, Group;
    GroupIsRfc(s[0], s[1], s[2]);
  }

  /** The encoder produces the RFC's encoding exactly when no octet is left over in the last group
      of one, or the octet that is folded in there has no high bits: then the pad bits are zero as
      section 3.5 asks. */
  lemma {:induction false} EncoderIsRfc(s: seq<byte>, next: byte)
    ensures Coded(s, next) == Encoding(s) <==> |s| % 3 != 1 || next < 16
  {
    hide Coded, Encoding, Four;
    if |s| < 3 {
      ShortIsRfc(s, next);
    } else {
      CodedHead(s, next);
      RfcHead(s);
      EncoderIsRfc(s[3..], next);
      var group := Four(s[0], s[1], s[2]);
      SameGroup(group, group, Coded(s[3..], next), Encoding(s[3..]));
    }
  }

  /** With one octet left over, all but the padding is what the RFC makes of the octets and the one
      that follows them. */
  lemma {:induction false} StrayOctetIsEncoded(s: seq<byte>, next: byte)
    requires |s| % 3 == 1
    ensures var r, n := Coded(s, next), |s| / 3 * 4;
            && |r| == n + 4 && r[n + 2..] == [EQUALS, EQUALS]
            && |Encoding(s + [next])| == n + 4 && r[..n + 2] == Encoding(s + [next])[..n + 2]
  {
    hide First, Second, Third, Fourth, LastThird, Sextet, Group;
    if |s| == 1 {
      GroupIsRfc(s[0], next, 0);
      assert (s + [next])[0] == s[0] && (s + [next])[1] == next;
    } else {
      hide Coded, Encoding, Four;
      StrayOctetIsEncoded(s[3..], next);
      CodedHead(s, next);
      RfcHead(s + [next]);
      assert (s + [next])[3..] == s[3..] + [next];
    }
  }

  lemma CodedStep(s: seq<byte>, next: byte, i: nat)
    requires i + 3 <= |s|
    ensures Coded(s[i..], next) == Four(s[i], s[i + 1], s[i + 2]) + Coded(s[i + 3..], next)
  {
    hide Four;
    assert s[i..][3..] == s[i + 3..];
  }

  /** The body of the loop: three octets at i become four characters at p, the index being bumped
      after the first. */
  method EncodeGroup(src: array<byte>, dst: array<byte>, i0: nat, p0: nat) returns (i: nat, p: nat)
    requires src != dst && i0 + 3 <= src.Length && p0 + 4 <= dst.Length
    modifies dst
    ensures i == i0 + 3 && p == p0 + 4
    ensures dst[p0..p] == Four(src[i0], src[i0 + 1], src[i0 + 2])
    ensures dst[..p0] == old(dst[..p0]) && dst[p..] == old(dst[p0 + 4..])
  {
    i, p := i0, p0;
    dst[p], p, i := Symbol(src[i] >> 2), p + 1, i + 1;
    dst[p], p := Symbol(((src[i - 1] << 4) | (src[i] >> 4)) & 0x3f), p + 1;
    dst[p], p := Symbol(((src[i] << 2) | (src[i + 1] >> 6)) & 0x3f), p + 1;
    dst[p], p := Symbol(src[i + 1] & 0x3f), p + 1;
    i := i + 2;
  }

  /** A last group of one: the octet that follows in memory is folded into its second character. */
  method EncodeLastOne(src: array<byte>, dst: array<byte>, i0: nat, p0: nat)
    requires src != dst && i0 + 2 <= src.Length && p0 + 5 <= dst.Length
    modifies dst
    ensures dst[..] == old(dst[..p0]) + Coded([src[i0]], src[i0 + 1]) + [0] + old(dst[p0 + 5..])
  {
    hide Symbol;
    var i, p := i0, p0;
    dst[p], p, i := Symbol(src[i] >> 2), p + 1, i + 1;
    dst[p], p := Symbol(((src[i - 1] << 4) | (src[i] >> 4)) & 0x3f), p + 1;
    dst[p], p := PAD, p + 1;
    dst[p], p := PAD, p + 1;
    dst[p] := 0;
  }

  /** Four characters and a terminator, and nothing else, were written at p. */
  lemma Laid(was: seq<byte>, now: seq<byte>, p: nat, four: seq<byte>)
    requires |now| == |was| && p + 5 <= |was| && |four| == 4
    requires now[p] == four[0] && now[p + 1] == four[1] && now[p + 2] == four[2] && now[p + 3] == four[3]
    requires now[p + 4] == 0 && forall k: nat :: k < p || p + 5 <= k < |was| ==> now[k] == was[k]
    ensures now == was[..p] + four + [0] + was[p + 5..]
  {
  }

  /** A last group of two. */
  method EncodeLastTwo(src: array<byte>, dst: array<byte>, i0: nat, p0: nat, ghost next: byte)
    requires src != dst && i0 + 2 <= src.Length && p0 + 5 <= dst.Length
    modifies dst
    ensures dst[..] == old(dst[..p0]) + Coded([src[i0], src[i0 + 1]], next) + [0] + old(dst[p0 + 5..])
  {
    ghost var a, b := src[i0], src[i0 + 1];
    ghost var four := Coded([a, b], next);
    assert four == [First(a), Second(a, b), LastThird(b), PAD];
    hide Symbol, Coded;
    var i, p := i0, p0;
    dst[p], p, i := Symbol(src[i] >> 2), p + 1, i + 1;
    dst[p], p := Symbol(((src[i - 1] << 4) | (src[i] >> 4)) & 0x3f), p + 1;
    dst[p], p := Symbol((src[i] << 2) & 0x3f), p + 1;
    dst[p], p := PAD, p + 1;
    dst[p] := 0;
    assert dst[p0] == four[0] && dst[p0 + 1] == four[1] && dst[p0 + 2] == four[2] && dst[p0 + 3] == four[3];
    Laid(old(dst[..]), dst[..], p0, four);
  }

  /** The octet the encoder folds into a last group of one. */
  function Following(s: seq<byte>, len: nat): byte
    requires len % 3 == 1 ==> len < |s|
  {
    if len % 3 == 1 then s[len] else 0
  }

  lemma Regroup(done: seq<byte>, group: seq<byte>, rest: seq<byte>)
    ensures done + (group + rest) == (done + group) + rest
  {
  }

  /** What is done and what is left after one more group. */
  lemma OneMoreGroup(done: seq<byte>, group: seq<byte>, s: seq<byte>, i: nat, next: byte)
    requires i + 3 <= |s| && done + Coded(s[i..], next) == Coded(s, next)
    requires group == Four(s[i], s[i + 1], s[i + 2])
    ensures (done + group) + Coded(s[i + 3..], next) == Coded(s, next)
  {
    hide Coded, Four;
    CodedStep(s, next, i);
    Regroup(done, group, Coded(s[i + 3..], next));
  }

  /** The loop: all full groups. */
  method EncodeGroups(src: array<byte>, dst: array<byte>, n: nat, ghost next: byte)
    requires src != dst && 3 * n <= src.Length && 4 * n <= dst.Length
    modifies dst
    ensures dst[..4 * n] == Coded(src[..3 * n], next)
    ensures dst[4 * n..] == old(dst[4 * n..])
  {
    hide Coded, Four;
    var i, p := 0, 0;
    ghost var s, g, done := src[..3 * n], 0, [];
    assert s[0..] == s;
    while i < 3 * n
      invariant 0 <= g <= n && i == 3 * g && p == 4 * g
      invariant done == dst[..p] && done + Coded(s[i..], next) == Coded(s, next)
      invariant dst[p..] == old(dst[..])[p..]
    {
      ghost var i0, p0 := i, p;
      i, p := EncodeGroup(src, dst, i, p);
      ghost var group := dst[p0..p];
      OneMoreGroup(done, group, s, i0, next);
      assert dst[..p] == dst[..p0] + group;
      done := done + group;
      g := g + 1;
    }
    CodedNothing(next);
    assert s[i..] == [] && done + [] == done;
  }

  lemma CodedNothing(next: byte)
    ensures Coded([], next) == []
  {
  }

  /** Full groups first, then the rest. */
  lemma {:induction false} CodedSplits(s: seq<byte>, i: nat, next: byte)
    requires i % 3 == 0 && i <= |s|
    ensures Coded(s, next) == Coded(s[..i], next) + Coded(s[i..], next)
  {
    hide Coded, Four;
    if i == 0 {
      assert s[..i] == [] && s[i..] == s;
      CodedNothing(next);
      assert [] + Coded(s, next) == Coded(s, next);
    } else {
      var t, u := s[..i], s[3..];
      CodedHead(s, next);
      CodedHead(t, next);
      CodedSplits(u, i - 3, next);
      assert u[i - 3..] == s[i..] && u[..i - 3] == t[3..];
      Regroup(Four(s[0], s[1], s[2]), Coded(u[..i - 3], next), Coded(s[i..], next));
    }
  }

  function EncodedLen(len: nat): nat {
    (len + 2) / 3 * 4
  }

  lemma WholeGroups(len: nat)
    ensures len == 3 * (len / 3) + len % 3
    ensures EncodedLen(len) == 4 * (len / 3) + (if len % 3 == 0 then 0 else 4)
  {
  }

  /** The last, short group of s as the encoder sees it. */
  function LastGroup(s: seq<byte>): seq<byte> {
    var n := |s| / 3 * 3;
    if |s| % 3 == 0 then [] else if |s| % 3 == 1 then [s[n]] else [s[n], s[n + 1]]
  }

  lemma CodedParts(s: seq<byte>, next: byte)
    ensures Coded(s, next) == Coded(s[..|s| / 3 * 3], next) + Coded(LastGroup(s), next)
  {
    var n := |s| / 3 * 3;
    CodedSplits(s, n, next);
    assert s[n..] == LastGroup(s);
  }

  /** lms_base64_encode on proper arguments. */
  method EncodeString(src: array<byte>, dst: array<byte>, len: nat)
    requires src != dst && len > 0
    requires len + (if len % 3 == 1 then 1 else 0) <= src.Length && EncodedLen(len) < dst.Length
    modifies dst
    ensures dst[..] == Coded(src[..len], Following(src[..], len)) + [0] + old(dst[EncodedLen(len) + 1..])
  {
    WholeGroups(len);
    hide EncodedLen, Coded, LastGroup;
    var mod, n := len % 3, len / 3;
    ghost var next := Following(src[..], len);
    EncodeGroups(src, dst, n, next);
    CodedParts(src[..len], next);
    LaterStays(old(dst[..]), dst[..], 4 * n, EncodedLen(len) + 1);
    assert src[..len][..3 * n] == src[..3 * n];
    EncodeRest(src, dst, len, 3 * n, 4 * n, next);
  }

  lemma LaterStays(was: seq<byte>, now: seq<byte>, n: nat, k: nat)
    requires |was| == |now| && n <= k <= |was| && now[n..] == was[n..]
    ensures now[k..] == was[k..]
  {
    assert now[k..] == now[n..][k - n..] && was[k..] == was[n..][k - n..];
  }

  /** What follows the loop: the last group, if there is one, and the terminator. */
  method EncodeRest(src: array<byte>, dst: array<byte>, len: nat, i: nat, p: nat, ghost next: byte)
    requires src != dst && i == len / 3 * 3 && p == len / 3 * 4
    requires len + (if len % 3 == 1 then 1 else 0) <= src.Length && EncodedLen(len) < dst.Length
    requires next == Following(src[..], len)
    modifies dst
    ensures dst[..] == old(dst[..p]) + Coded(LastGroup(src[..len]), next) + [0] + old(dst[EncodedLen(len) + 1..])
  {
    WholeGroups(len);
    hide EncodedLen, Coded;
    var mod := len % 3;
    if mod == 0 {
      dst[p] := 0;
      CodedNothing(next);
    } else if mod == 1 {
      EncodeLastOne(src, dst, i, p);
    } else {
      EncodeLastTwo(src, dst, i, p, next);
    }
  }

  /** lms_base64_encode.  With one octet left over it reads one octet past the input, so src must
      have it; dst takes the encoding and a terminator. */
  method Encode(src: array?<byte>, dst: array?<byte>, len: nat) returns (ok: bool)
    requires src != null && dst != null && len > 0 ==>
               && src != dst
               && len + (if len % 3 == 1 then 1 else 0) <= src.Length
               && EncodedLen(len) < dst.Length
    modifies dst
    ensures ok <==> src != null && dst != null && len > 0
    ensures ok ==> dst[..] == Coded(src[..len], Following(src[..], len)) + [0] + old(dst[EncodedLen(len) + 1..])
    ensures !ok && dst != null ==> dst[..] == old(dst[..])
  {
    if src == null || dst == null || len == 0 {
      return false;
    }
    hide EncodedLen, Coded;
    EncodeString(src, dst, len);
    return true;
  }

  // ----- The decoder -----------------------------------------------------------------------

  /** The three-octet scratch buffer. */
  datatype Buf = Buf(b0: byte, b1: byte, b2: byte)

  function Bytes(b: Buf): seq<byte> {
    [b.b0, b.b1, b.b2]
  }

  /** What a character of value x does to the buffer at position k of a group of four. */
  function Store(b: Buf, k: nat, x: byte): Buf
    requires k < 4
  {
    if k == 0 then b.(b0 := x << 2)
    else if k == 1 then b.(b0 := b.b0 | (x >> 4), b1 := x << 4)
    else if k == 2 then b.(b1 := b.b1 | (x >> 2), b2 := x << 6)
    else b.(b2 := b.b2 | x)
  }

  /** The decoder at position pos of the string s, which ends where its terminator was: None is the
      null pointer, otherwise everything written.  A character outside the alphabet is skipped but
      takes up its position. */
  function Walk(s: seq<byte>, pos: nat, b: Buf, out: seq<byte>): (r: Option<seq<byte>>)
    requires pos <= |s|
    decreases |s| - pos
  {
    if pos == |s| then
      if pos % 4 != 0 then None else Some(out)
    else
      match Tok(s[pos])
      case End => None
      case Padding =>
        if pos % 4 < 2 then None
        else if pos % 4 == 2 then
          if pos + 1 < |s| && s[pos + 1] == PAD then Some(out + [b.b0]) else None
        else Some(out + [b.b0, b.b1])
      case Invalid => Walk(s, pos + 1, b, out)
      case Value(x) =>
        var b1 := Store(b, pos % 4, x);
        Walk(s, pos + 1, b1, if pos % 4 == 3 then out + Bytes(b1) else out)
  }

  function Decoded(s: seq<byte>): Option<seq<byte>> {
    Walk(s, 0, Buf(0, 0, 0), [])
  }

  /** The first padding character at or after i, or the end of the string. */
  function FirstPad(s: seq<byte>, i: nat): (r: nat)
    requires i <= |s|
    ensures i <= r <= |s|
    ensures r < |s| ==> s[r] == PAD
    ensures forall j :: i <= j < r ==> s[j] != PAD
    decreases |s| - i
  {
    if i == |s| || s[i] == PAD then i else FirstPad(s, i + 1)
  }

  /** The terminator does not close a group of four, or the padding starts too early in its group,
      or two padding characters are needed and the second is missing. */
  predicate BadEnd(s: seq<byte>, stop: nat)
    requires stop <= |s|
  {
    if stop == |s| then stop % 4 != 0
    else stop % 4 < 2 || (stop % 4 == 2 && !(stop + 1 < |s| && s[stop + 1] == PAD))
  }

  lemma {:induction false} WalkFails(s: seq<byte>, pos: nat, b: Buf, out: seq<byte>)
    requires pos <= |s| && 0 !in s
    ensures Walk(s, pos, b, out).None? <==> BadEnd(s, FirstPad(s, pos))
    decreases |s| - pos
  {
    if pos < |s| {
      assert s[pos] in s;
      match Tok(s[pos])
      case Invalid => WalkFails(s, pos + 1, b, out);
      case Value(x) =>
        var b1 := Store(b, pos % 4, x);
        WalkFails(s, pos + 1, b1, if pos % 4 == 3 then out + Bytes(b1) else out);
      case _ =>
    }
  }

  /** On any string, whatever characters it has, decoding fails exactly when it ends badly. */
  lemma DecodeFailsExactly(s: seq<byte>)
    requires 0 !in s
    ensures Decoded(s).None? <==> BadEnd(s, FirstPad(s, 0))
  {
    WalkFails(s, 0, Buf(0, 0, 0), []);
  }

  /** How many octets the decoder writes from position pos on, whether or not it fails later. */
  function Extent(s: seq<byte>, pos: nat): nat
    requires pos <= |s|
    decreases |s| - pos
  {
    if pos == |s| then 0
    else
      match Tok(s[pos])
      case End => 0
      case Padding =>
        if pos % 4 < 2 then 0
        else if pos % 4 == 2 then if pos + 1 < |s| && s[pos + 1] == PAD then 1 else 0
        else 2
      case Invalid => Extent(s, pos + 1)
      case Value(_) => (if pos % 4 == 3 then 3 else 0) + Extent(s, pos + 1)
  }

  lemma {:induction false} ExtentBound(s: seq<byte>, pos: nat)
    requires pos <= |s|
    ensures 3 * (pos / 4) + Extent(s, pos) <= DecodedSpace(|s|)
    decreases |s| - pos
  {
    if pos < |s| && (Tok(s[pos]).Invalid? || Tok(s[pos]).Value?) {
      ExtentBound(s, pos + 1);
    }
  }

  lemma {:induction false} ExtentIsLength(s: seq<byte>, pos: nat, b: Buf, out: seq<byte>)
    requires pos <= |s|
    ensures Walk(s, pos, b, out).Some? ==> |Walk(s, pos, b, out).value| == |out| + Extent(s, pos)
    decreases |s| - pos
  {
    if pos < |s| {
      match Tok(s[pos])
      case Invalid => ExtentIsLength(s, pos + 1, b, out);
      case Value(x) =>
        var b1 := Store(b, pos % 4, x);
        ExtentIsLength(s, pos + 1, b1, if pos % 4 == 3 then out + Bytes(b1) else out);
      case _ =>
    }
  }

  /** Room for everything the decoder can write: lms_base64_dlen. */
  function DecodedSpace(n: nat): nat {
    3 * (n / 4 + 1)
  }

  /** The decoder never writes more than lms_base64_dlen promises, and what it returns on success
      is all it wrote. */
  lemma DecodeFits(s: seq<byte>)
    ensures Extent(s, 0) <= DecodedSpace(|s|) == 3 * (|s| / 4 + 1)
    ensures Decoded(s).Some? ==> |Decoded(s).value| == Extent(s, 0)
  {
    ExtentBound(s, 0);
    ExtentIsLength(s, 0, Buf(0, 0, 0), []);
  }

  // ----- Decoding what was encoded ---------------------------------------------------------

  /** The octets of a group come back from its four sextets, and from the two or three of a short
      last group, whatever was folded into the second. */
  lemma StoresInvert(a: byte, b: byte, c: byte, buf: Buf)
    ensures var b1 := Store(buf, 0, a >> 2);
            var b2 := Store(b1, 1, ((a << 4) | (b >> 4)) & 0x3f);
            var b3 := Store(b2, 2, ((b << 2) | (c >> 6)) & 0x3f);
            var b3' := Store(b2, 2, (b << 2) & 0x3f);
            var b4 := Store(b3, 3, c & 0x3f);
            b2.b0 == a && b3'.b0 == a && b3'.b1 == b && b4 == Buf(a, b, c)
  {
  }

  lemma WalkOne(s: seq<byte>, pos: nat, buf: Buf, out: seq<byte>, v: byte)
    requires pos < |s| && v < 64 && s[pos] == Symbol(v)
    ensures Walk(s, pos, buf, out)
         == Walk(s, pos + 1, Store(buf, pos % 4, v),
                 if pos % 4 == 3 then out + Bytes(Store(buf, pos % 4, v)) else out)
  {
    TablesAreInverse(v);
  }

  lemma WalkGroup(s: seq<byte>, pos: nat, buf: Buf, out: seq<byte>, a: byte, b: byte, c: byte)
    requires pos + 4 <= |s| && pos % 4 == 0
    requires s[pos] == First(a) && s[pos + 1] == Second(a, b) && s[pos + 2] == Third(b, c) && s[pos + 3] == Fourth(c)
    ensures Walk(s, pos, buf, out) == Walk(s, pos + 4, Buf(a, b, c), out + [a, b, c])
  {
    hide Walk, Store, Symbol;
    StoresInvert(a, b, c, buf);
    var b1 := Store(buf, 0, a >> 2);
    var b2 := Store(b1, 1, ((a << 4) | (b >> 4)) & 0x3f);
    var b3 := Store(b2, 2, ((b << 2) | (c >> 6)) & 0x3f);
    WalkOne(s, pos, buf, out, a >> 2);
    WalkOne(s, pos + 1, b1, out, ((a << 4) | (b >> 4)) & 0x3f);
    WalkOne(s, pos + 2, b2, out, ((b << 2) | (c >> 6)) & 0x3f);
    WalkOne(s, pos + 3, b3, out, c & 0x3f);
  }

  lemma WalkLastOne(s: seq<byte>, pos: nat, buf: Buf, out: seq<byte>, a: byte, next: byte)
    requires pos + 4 == |s| && pos % 4 == 0
    requires s[pos] == First(a) && s[pos + 1] == Second(a, next) && s[pos + 2] == PAD && s[pos + 3] == PAD
    ensures Walk(s, pos, buf, out) == Some(out + [a])
  {
    hide Symbol, Store;
    StoresInvert(a, next, 0, buf);
    WalkOne(s, pos, buf, out, a >> 2);
    WalkOne(s, pos + 1, Store(buf, 0, a >> 2), out, ((a << 4) | (next >> 4)) & 0x3f);
  }

  lemma WalkLastTwo(s: seq<byte>, pos: nat, buf: Buf, out: seq<byte>, a: byte, b: byte)
    requires pos + 4 == |s| && pos % 4 == 0
    requires s[pos] == First(a) && s[pos + 1] == Second(a, b) && s[pos + 2] == LastThird(b) && s[pos + 3] == PAD
    ensures Walk(s, pos, buf, out) == Some(out + [a, b])
  {
    hide Symbol, Store;
    StoresInvert(a, b, 0, buf);
    var b1 := Store(buf, 0, a >> 2);
    WalkOne(s, pos, buf, out, a >> 2);
    WalkOne(s, pos + 1, b1, out, ((a << 4) | (b >> 4)) & 0x3f);
    WalkOne(s, pos + 2, Store(b1, 1, ((a << 4) | (b >> 4)) & 0x3f), out, (b << 2) & 0x3f);
  }

  lemma FourAt(pre: seq<byte>, a: byte, b: byte, c: byte, rest: seq<byte>)
    ensures var s, n := pre + (Four(a, b, c) + rest), |pre|;
            && n + 4 <= |s| && s[n] == First(a) && s[n + 1] == Second(a, b)
            && s[n + 2] == Third(b, c) && s[n + 3] == Fourth(c)
  {
    hide First, Second, Third, Fourth;
    var four, n := Four(a, b, c), |pre|;
    var s := pre + (four + rest);
    assert s[n] == four[0] && s[n + 1] == four[1] && s[n + 2] == four[2] && s[n + 3] == four[3];
  }

  lemma {:induction false} WalkCoded(pre: seq<byte>, t: seq<byte>, next: byte, buf: Buf, out: seq<byte>)
    requires |pre| % 4 == 0
    ensures Walk(pre + Coded(t, next), |pre|, buf, out) == Some(out + t)
    decreases |t|
  {
    if |t| < 3 {
      WalkLast(pre, t, next, buf, out);
    } else {
      hide Walk, Coded, Four;
      var a, b, c, rest := t[0], t[1], t[2], Coded(t[3..], next);
      CodedHead(t, next);
      FourAt(pre, a, b, c, rest);
      WalkGroup(pre + (Four(a, b, c) + rest), |pre|, buf, out, a, b, c);
      Regroup(pre, Four(a, b, c), rest);
      WalkCoded(pre + Four(a, b, c), t[3..], next, Buf(a, b, c), out + [a, b, c]);
      assert t == [a, b, c] + t[3..];
      Regroup(out, [a, b, c], t[3..]);
    }
  }

  lemma WalkLast(pre: seq<byte>, t: seq<byte>, next: byte, buf: Buf, out: seq<byte>)
    requires |pre| % 4 == 0 && |t| < 3
    ensures Walk(pre + Coded(t, next), |pre|, buf, out) == Some(out + t)
  {
    hide Symbol, Store, First, Second, Third, Fourth, LastThird;
    var s := pre + Coded(t, next);
    if |t| == 0 {
      assert out + t == out;
    } else if |t| == 1 {
      hide Walk;
      WalkLastOne(s, |pre|, buf, out, t[0], next);
      assert t == [t[0]];
    } else {
      hide Walk;
      WalkLastTwo(s, |pre|, buf, out, t[0], t[1]);
      assert t == [t[0], t[1]];
    }
  }

  /** Decoding an encoding gives exactly the octets back, whatever octet followed them. */
  lemma DecodeInvertsEncode(t: seq<byte>, next: byte)
    ensures Decoded(Coded(t, next)) == Some(t)
  {
    WalkCoded([], t, next, Buf(0, 0, 0), []);
    assert [] + Coded(t, next) == Coded(t, next);
    assert [] + t == t;
  }

  // ----- The decoder's loop ----------------------------------------------------------------

  ghost function Scratch(buf: array<byte>): Buf
    requires buf.Length == 3
    reads buf
  {
    Buf(buf[0], buf[1], buf[2])
  }

  /** The default case of the switch: a character of the alphabet. */
  method StoreValue(buf: array<byte>, dst: array<byte>, o: nat, pos: nat, x: byte) returns (o': nat)
    requires buf.Length == 3 && buf != dst && (pos % 4 == 3 ==> o + 3 <= dst.Length) && o <= dst.Length
    modifies buf, dst
    ensures Scratch(buf) == Store(old(Scratch(buf)), pos % 4, x)
    ensures o' == (if pos % 4 == 3 then o + 3 else o)
    ensures dst[..o'] == if pos % 4 == 3 then old(dst[..o]) + Bytes(Scratch(buf)) else old(dst[..o])
    ensures dst[o'..] == old(dst[..])[o'..]
  {
    o' := o;
    if pos % 4 == 0 {
      buf[0] := x << 2;
    } else if pos % 4 == 1 {
      buf[0] := buf[0] | (x >> 4);
      buf[1] := x << 4;
    } else if pos % 4 == 2 {
      buf[1] := buf[1] | (x >> 2);
      buf[2] := x << 6;
    } else {
      buf[2] := buf[2] | x;
      o' := CopyOut(buf, dst, o, 3);
    }
  }

  /** The loop that copies the first n octets of the scratch buffer out. */
  method CopyOut(buf: array<byte>, dst: array<byte>, o: nat, n: nat) returns (o': nat)
    requires buf.Length == 3 && buf != dst && n <= 3 && o + n <= dst.Length
    modifies dst
    ensures o' == o + n
    ensures dst[..o'] == old(dst[..o]) + buf[..n] && dst[o'..] == old(dst[..])[o'..]
    ensures buf[..] == old(buf[..])
  {
    var x := 0;
    o' := o;
    while x < n
      invariant 0 <= x <= n && o' == o + x
      invariant dst[..o'] == old(dst[..o]) + buf[..x]
      invariant dst[o'..] == old(dst[..])[o'..]
    {
      dst[o'] := buf[x];
      o' := o' + 1;
      x := x + 1;
    }
  }

  lemma EndIsTerminator(c: byte)
    ensures Tok(c).End? <==> c == 0
  {
  }

  /** The string in a terminated buffer, and the character at p of it or its terminator. */
  lemma AtOrAfter(src: seq<byte>, p: nat)
    requires 0 in src && p <= |Until(src, 0)|
    ensures var s := Until(src, 0);
            |s| < |src| && src[|s|] == 0 && (p < |s| <==> src[p] != 0) && (p < |s| ==> s[p] == src[p])
  {
    var s := Until(src, 0);
    assert s == src[..|s|];
    if p < |s| { assert s[p] in s; }
  }

  /** The padding case of the switch, at position pos: how many octets of the last group to leave
      out, or 0 when the padding is malformed. */
  method Pad(src: array<byte>, buf: array<byte>, pos: nat, ghost s: seq<byte>, ghost out: seq<byte>)
    returns (pad: nat)
    requires src != buf && buf.Length == 3 && 0 in src[..] && s == Until(src[..], 0)
    requires pos < |s| && Tok(s[pos]).Padding?
    modifies buf
    ensures pad <= 2 && src[..] == old(src[..])
    ensures Walk(s, pos, old(Scratch(buf)), out) == if pad == 0 then None else Some(out + buf[..3 - pad])
    ensures pad > 0 ==> 3 - pad == Extent(s, pos)
  {
    AtOrAfter(src[..], pos + 1);
    if pos % 4 < 2 {
      return 0;
    } else if pos % 4 == 2 {
      if src[pos + 1] != PAD {
        return 0;
      }
      buf[2] := 0;
      assert buf[..1] == [buf[0]];
      return 2;
    } else {
      assert buf[..2] == [buf[0], buf[1]];
      return 1;
    }
  }

  /** How the switch leaves the loop, or not. */
  datatype Next = Failed | Finished | Padded(pad: nat) | More(o: nat)

  /** One turn of the loop: the character at p. */
  method Character(src: array<byte>, dst: array<byte>, buf: array<byte>, p: nat, o: nat, ghost s: seq<byte>)
    returns (next: Next)
    requires src != buf && dst != buf && src != dst && buf.Length == 3 && 0 in src[..] && s == Until(src[..], 0)
    requires p <= |s| && o + Extent(s, p) <= dst.Length
    modifies dst, buf
    ensures src[..] == old(src[..]) && dst[o + Extent(s, p)..] == old(dst[o + Extent(s, p)..])
    ensures !next.More? ==> dst[..] == old(dst[..])
    ensures var was := Walk(s, p, old(Scratch(buf)), old(dst[..o]));
            match next
            case Failed => was.None?
            case Finished => was == Some(old(dst[..o]))
            case Padded(pad) => 1 <= pad <= 2 && 3 - pad == Extent(s, p) && was == Some(old(dst[..o]) + buf[..3 - pad])
            case More(o') => p < |s| && o <= o' && o' + Extent(s, p + 1) == o + Extent(s, p)
                             && was == Walk(s, p + 1, Scratch(buf), dst[..o'])
  {
    hide Store, Tok, Until;
    AtOrAfter(src[..], p);
    EndIsTerminator(src[p]);
    match Tok(src[p])
    case End =>
      return if p % 4 != 0 then Failed else Finished;
    case Padding =>
      var pad := Pad(src, buf, p, s, dst[..o]);
      return if pad == 0 then Failed else Padded(pad);
    case Invalid =>
      return More(o);
    case Value(v) =>
      var o' := StoreValue(buf, dst, o, p, v);
      LaterStays(old(dst[..]), dst[..], o', o + Extent(s, p));
      return More(o');
  }

  /** The loop of lms_base64_decode. */
  method DecodeString(src: array<byte>, dst: array<byte>, ghost s: seq<byte>) returns (r: Option<nat>)
    requires src != dst && 0 in src[..] && s == Until(src[..], 0) && Extent(s, 0) <= dst.Length
    modifies dst
    ensures Decoded(s).None? ==> r.None?
    ensures Decoded(s).Some? ==>
              r == Some(|Decoded(s).value|) && r.value <= dst.Length && dst[..r.value] == Decoded(s).value
    ensures dst[Extent(s, 0)..] == old(dst[Extent(s, 0)..])
  {
    ghost var n := Extent(s, 0);
    var p: nat, o: nat := 0, 0;
    var buf := new byte[3](_ => 0);
    hide Walk, Until, Extent;
    while true
      invariant p <= |s| && o + Extent(s, p) == n
      invariant src[..] == old(src[..]) && dst[n..] == old(dst[n..])
      invariant Decoded(s) == Walk(s, p, Scratch(buf), dst[..o])
      decreases |s| - p
    {
      var next := Character(src, dst, buf, p, o, s);
      match next
      case Failed =>
        return None;
      case Finished =>
        return Some(o);
      case Padded(pad) =>
        o := CopyOut(buf, dst, o, 3 - pad);
        return Some(o);
      case More(o') =>
        o, p := o', p + 1;
    }
  }

  /** lms_base64_decode: the number of octets written, or None for the null pointer.  dst has to
      take what is written; DecodedSpace is always enough. */
  method Decode(src: array?<byte>, dst: array?<byte>) returns (r: Option<nat>)
    requires src != null && dst != null ==>
               src != dst && 0 in src[..] && Extent(Until(src[..], 0), 0) <= dst.Length
    modifies dst
    ensures src == null || dst == null ==> r.None?
    ensures src != null && dst != null ==>
              var s := Until(old(src[..]), 0);
              && (Decoded(s).None? ==> r.None?)
              && (Decoded(s).Some? ==>
                    r == Some(|Decoded(s).value|) && r.value <= dst.Length && dst[..r.value] == Decoded(s).value)
              && dst[Extent(s, 0)..] == old(dst[Extent(s, 0)..])
  {
    if src == null || dst == null {
      return None;
    }
    hide Walk, Until, Decoded, Extent;
    r := DecodeString(src, dst, Until(src[..], 0));
  }
}
