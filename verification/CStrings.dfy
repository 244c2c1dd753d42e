/** Strings that end in a terminator, inside arrays of characters. */
module CStrings {

  const NUL: char := '\0'

  /** The C string that starts at p in a is t. */
  predicate Holds(a: array<char>, p: nat, t: string)
    reads a
  {
    && p + |t| < a.Length && a[p + |t|] == NUL
    && forall k: nat :: k < |t| ==> a[p + k] == t[k] && t[k] != NUL
  }

  lemma ReadAt(a: array<char>, s: nat, t: string, n: nat)
    requires Holds(a, s, t) && n <= |t|
    ensures s + n < a.Length
    ensures a[s + n] == if n < |t| then t[n] else NUL
    ensures a[s + n] == NUL <==> n == |t|
  {
  }

  method StrLen(a: array<char>, s: nat, ghost t: string) returns (n: nat)
    requires Holds(a, s, t)
    ensures n == |t|
  {
    n := 0;
    ReadAt(a, s, t, 0);
    while a[s + n] != NUL
      invariant n <= |t| && (a[s + n] == NUL <==> n == |t|)
      decreases |t| - n
    {
      n := n + 1;
      ReadAt(a, s, t, n);
    }
  }

  /** What a reader of the C string at s sees. */
  method Text(a: array<char>, s: nat, ghost t: string) returns (r: string)
    requires Holds(a, s, t)
    ensures r == t
  {
    r := "";
    ReadAt(a, s, t, 0);
    while a[s + |r|] != NUL
      invariant |r| <= |t| && r == t[..|r|] && (a[s + |r|] == NUL <==> |r| == |t|)
      decreases |t| - |r|
    {
      assert a[s + |r|] == t[|r|];
      r := r + [a[s + |r|]];
      ReadAt(a, s, t, |r|);
    }
  }
}
