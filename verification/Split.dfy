/** Splitting a string at a separator (msocket/str.c): what the pieces are, and the loop that stores
    each in a block of its own. */
module Split {
  import opened CStrings

  function Pieces(s: string, c: char): (r: seq<string>)
    ensures r != []
  {
    if s == "" then [""]
    else
      var n := |s| - 1;
      var before := Pieces(s[..n], c);
      if s[n] == c then before + [""] else before[|before| - 1 := before[|before| - 1] + [s[n]]]
  }

  function Count(s: string, c: char): (r: nat)
    ensures r <= |s|
  {
    if s == "" then 0 else Count(s[..|s| - 1], c) + if s[|s| - 1] == c then 1 else 0
  }

  function Join(ps: seq<string>, c: char): string
    requires ps != []
  {
    if |ps| == 1 then ps[0] else Join(ps[..|ps| - 1], c) + [c] + ps[|ps| - 1]
  }

  predicate Apart(ps: seq<string>, c: char) {
    forall i: nat :: i < |ps| ==> c !in ps[i]
  }

  /** No piece holds the separator, and there is one piece more than there are separators. */
  lemma {:induction false} PiecesAreApart(s: string, c: char)
    ensures Apart(Pieces(s, c), c) && |Pieces(s, c)| == Count(s, c) + 1
  {
    if s == "" {
    } else {
      PiecesAreApart(s[..|s| - 1], c);
    }
  }

  /** Joined again, the pieces give the string back. */
  lemma {:induction false} JoinOfPieces(s: string, c: char)
    ensures Join(Pieces(s, c), c) == s
  {
    if s == "" {
    } else {
      var n := |s| - 1;
      var before := Pieces(s[..n], c);
      JoinOfPieces(s[..n], c);
      if s[n] == c {
        assert (before + [""])[..|before|] == before;
        assert Join(before + [""], c) == s[..n] + [c] + "" == s;
      } else {
        assert s[..n] + [s[n]] == s;
      }
    }
  }

  lemma {:induction false} PiecesOfTail(s: string, t: string, c: char)
    requires c !in t
    ensures var before := Pieces(s, c);
            Pieces(s + t, c) == before[|before| - 1 := before[|before| - 1] + t]
  {
    var before := Pieces(s, c);
    var k := |before| - 1;
    if t == "" {
      assert s + t == s && before[k] + t == before[k];
    } else {
      var m := |t| - 1;
      PiecesOfTail(s, t[..m], c);
      assert (s + t)[..|s + t| - 1] == s + t[..m] && (s + t)[|s + t| - 1] == t[m];
      assert t[m] in t;
      assert before[k] + t[..m] + [t[m]] == before[k] + t;
    }
  }

  /** Splitting is the only way to cut a string into separator-free pieces that join to it. */
  lemma {:induction false} PiecesOfJoin(ps: seq<string>, c: char)
    requires ps != [] && Apart(ps, c)
    ensures Pieces(Join(ps, c), c) == ps
  {
    var k := |ps| - 1;
    if k == 0 {
      PiecesOfTail("", ps[0], c);
      assert "" + ps[0] == ps[0];
    } else {
      var front := Join(ps[..k], c);
      PiecesOfJoin(ps[..k], c);
      PiecesOfTail(front + [c], ps[k], c);
      hide Pieces, Apart;
      assert "" + ps[k] == ps[k];
      assert (ps[..k] + [""])[k := ps[k]] == ps;
    }
  }

  /** lms_str_cntchr */
  method CntChr(str: array?<char>, c: char, ghost s: string) returns (cnt: nat)
    requires str != null ==> Holds(str, 0, s)
    ensures cnt == if str == null then 0 else Count(s, c)
  {
    cnt := 0;
    if str == null { return; }
    var i: nat := 0;
    ReadAt(str, 0, s, 0);
    while str[i] != NUL
      invariant i <= |s| && cnt == Count(s[..i], c)
      invariant i < str.Length && str[i] == (if i < |s| then s[i] else NUL) && (str[i] == NUL <==> i == |s|)
      decreases |s| - i
    {
      OneMore(s, i, c);
      if str[i] == c { cnt := cnt + 1; }
      i := i + 1;
      ReadAt(str, 0, s, i);
    }
    assert s[..i] == s;
  }

  lemma OneMore(s: string, i: nat, c: char)
    requires i < |s|
    ensures Count(s[..i + 1], c) == Count(s[..i], c) + (if s[i] == c then 1 else 0)
    ensures var before := Pieces(s[..i], c);
            Pieces(s[..i + 1], c) ==
            if s[i] == c then before + [""] else before[|before| - 1 := before[|before| - 1] + [s[i]]]
  {
    assert s[..i + 1][..i] == s[..i];
  }

  lemma CountOfMore(s: string, i: nat, c: char)
    requires i <= |s|
    ensures Count(s[..i], c) <= Count(s, c)
    decreases |s| - i
  {
    if i == |s| {
      assert s[..i] == s;
    } else {
      OneMore(s, i, c);
      CountOfMore(s, i + 1, c);
    }
  }

  /** A zeroed block for a piece. The code writes a terminator one byte behind the last piece
      (str.c:112); every block here has a spare byte for it. */
  method Block(n: nat) returns (a: array<char>)
    ensures fresh(a) && a.Length == n + 2 && Growing(a, "")
  {
    a := new char[n + 2](_ => NUL);
  }

  /** A piece under construction: the rest of its block is still zero. */
  predicate Growing(a: array<char>, t: string)
    reads a
  {
    && |t| < a.Length && NUL !in t
    && (forall k: nat :: k < |t| ==> a[k] == t[k])
    && (forall k: nat :: |t| <= k < a.Length ==> a[k] == NUL)
  }

  predicate IsPiece(a: array?<char>, t: string)
    reads a
  {
    a != null && Holds(a, 0, t)
  }

  method PutChar(piece: array<char>, at: nat, x: char, ghost t: string)
    requires Growing(piece, t) && at == |t| && at + 1 < piece.Length && x != NUL
    modifies piece
    ensures Growing(piece, t + [x])
  {
    piece[at] := x;
  }

  /** Terminates a piece and measures it. */
  method EndPiece(piece: array<char>, at: nat, ghost t: string) returns (n: nat)
    requires Growing(piece, t) && at == |t|
    modifies piece
    ensures n == |t| && IsPiece(piece, t)
  {
    piece[at] := NUL;
    n := StrLen(piece, 0, t);
  }

  /** The terminator behind the last piece, and the end of the list. */
  method Finish(mstr: array<array?<char>>, x: nat, piece: array<char>, at: nat, ghost ps: seq<string>)
    requires x + 1 < mstr.Length && |ps| == x + 1 && mstr[x] == piece
    requires Growing(piece, ps[x]) && at == |ps[x]| && at + 1 < piece.Length
    requires forall j: nat :: j < x ==> IsPiece(mstr[j], ps[j]) && mstr[j] != piece
    modifies mstr, piece
    ensures mstr[x + 1] == null && forall j: nat :: j <= x ==> IsPiece(mstr[j], ps[j])
  {
    piece[at + 1] := NUL;
    mstr[x + 1] := null;
  }

  /** At a separator: ends the x-th piece and begins the next, with room for the rest of the string. */
  method NextPiece(mstr: array<array?<char>>, x: nat, piece: array<char>, at: nat, room: nat, ghost ps: seq<string>)
    returns (next: array<char>, n: nat)
    requires x + 1 < mstr.Length && |ps| == x + 1 && mstr[x] == piece
    requires Growing(piece, ps[x]) && at == |ps[x]| && at < room
    requires forall j: nat :: j < x ==> IsPiece(mstr[j], ps[j]) && mstr[j] != piece
    modifies mstr, piece
    ensures n == |ps[x]| && fresh(next) && next.Length == room - n - 1 + 2 && Growing(next, "")
    ensures mstr[x + 1] == next && forall j: nat :: j <= x ==> mstr[j] != next && IsPiece(mstr[j], ps[j])
  {
    hide Growing, Holds, IsPiece;
    n := EndPiece(piece, at, ps[x]);
    next := Block(room - n - 1);
    mstr[x + 1] := next;
  }

  /** What the next character does to the pieces and to the count. */
  lemma NextChar(s: string, i: nat, c: char, ps: seq<string>, x: nat)
    requires i < |s| && ps == Pieces(s[..i], c) && x == Count(s[..i], c) && |ps| == x + 1
    ensures var qs := if s[i] == c then ps + [""] else ps[x := ps[x] + [s[i]]];
            Pieces(s[..i + 1], c) == qs
    ensures var y := if s[i] == c then x + 1 else x;
            Count(s[..i + 1], c) == y && y <= Count(s, c)
  {
    hide Pieces, Count;
    OneMore(s, i, c);
    CountOfMore(s, i + 1, c);
  }

  lemma StartsEmpty(c: char)
    ensures Pieces("", c) == [""] && Count("", c) == 0
  {
  }

  /** The loop of lms_str_splitchr, which has just begun the first piece. */
  method Fill(str: array<char>, c: char, mstr: array<array?<char>>, first: array<char>, len: nat, ghost s: string)
    returns (x: nat, i: nat, offset: nat, piece: array<char>, ghost ps: seq<string>)
    requires Holds(str, 0, s) && len == |s| && mstr.Length >= Count(s, c) + 2
    requires mstr[0] == first && first != str && first.Length == len + 2 && Growing(first, "")
    modifies mstr, first
    ensures ps == Pieces(s, c) && x == Count(s, c) && |ps| == x + 1 && mstr[x] == piece
    ensures piece == first || fresh(piece)
    ensures i == offset + |ps[x]| && i - offset + 1 < piece.Length && Growing(piece, ps[x])
    ensures forall j: nat :: j < x ==> IsPiece(mstr[j], ps[j]) && mstr[j] != piece
  {
    hide Pieces, Count, Growing, IsPiece, Holds;
    StartsEmpty(c);
    offset, x, i, piece, ps := 0, 0, 0, first, [""];
    assert s[..0] == "";
    ReadAt(str, 0, s, 0);
    while str[i] != NUL
      invariant i <= |s| && Holds(str, 0, s) && piece != str
      invariant i < str.Length && (str[i] == NUL <==> i == |s|) && (i < |s| ==> str[i] == s[i])
      invariant ps == Pieces(s[..i], c) && x == Count(s[..i], c) && |ps| == x + 1 && x + 1 < mstr.Length
      invariant mstr[x] == piece && (piece == first || fresh(piece))
      invariant i == offset + |ps[x]| && piece.Length == len - offset + 2 && Growing(piece, ps[x])
      invariant forall j: nat :: j < x ==> IsPiece(mstr[j], ps[j]) && mstr[j] != piece
      decreases |s| - i
    {
      NextChar(s, i, c, ps, x);
      if str[i] == c {
        var n;
        piece, n := NextPiece(mstr, x, piece, i - offset, len - offset, ps);
        offset := offset + n + 1;
        x := x + 1;
        ps := ps + [""];
      } else {
        PutChar(piece, i - offset, str[i], ps[x]);
        ps := ps[x := ps[x] + [s[i]]];
      }
      i := i + 1;
      ReadAt(str, 0, s, i);
    }
    assert s[..i] == s;
  }

  /** lms_str_splitchr */
  method SplitChr(str: array?<char>, c: char, mstr: array?<array?<char>>, ghost s: string) returns (r: int)
    requires str != null ==> Holds(str, 0, s)
    requires mstr != null ==> mstr.Length >= Count(s, c) + 2
    modifies mstr
    ensures str == null || mstr == null ==> r == -1 && (mstr != null ==> mstr[..] == old(mstr[..]))
    ensures str != null && mstr != null ==>
              && r == Count(s, c) && |Pieces(s, c)| == r + 1 && mstr[r + 1] == null
              && forall j: nat :: j <= r ==> IsPiece(mstr[j], Pieces(s, c)[j])
  {
    if str == null || mstr == null { return -1; }
    hide Pieces, Count, Growing, IsPiece, Holds;
    var len := StrLen(str, 0, s);
    var first := Block(len);
    mstr[0] := first;
    var x, i, offset, piece, ps := Fill(str, c, mstr, first, len, s);
    Finish(mstr, x, piece, i - offset, ps);
    r := x;
  }
}
