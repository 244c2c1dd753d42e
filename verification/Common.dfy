/** Small definitions shared by the modules: octets, an optional value, C strings, distinctness. */
module Common {

  type byte = bv8

  datatype Option<+T> = None | Some(value: T)

  /** Everything before the first occurrence of stop: what a C routine sees of a buffer when stop
      is the terminator. */
  function Until<T(==)>(s: seq<T>, stop: T): (r: seq<T>)
    ensures |r| <= |s| && r == s[..|r|]
    ensures stop !in r
    ensures |r| < |s| ==> s[|r|] == stop
  {
    if s == [] || s[0] == stop then [] else [s[0]] + Until(s[1..], stop)
  }

  /** The first n elements, when the stop comes right after them and not before. */
  lemma {:induction false} UntilIs<T>(s: seq<T>, stop: T, n: nat)
    requires n <= |s| && stop !in s[..n] && (n < |s| ==> s[n] == stop)
    ensures Until(s, stop) == s[..n]
  {
    if n > 0 {
      assert s[0] == s[..n][0];
      assert s[1..][..n - 1] == s[..n][1..];
      UntilIs(s[1..], stop, n - 1);
      assert [s[0]] + s[1..][..n - 1] == s[..n];
    }
  }

  ghost predicate Distinct<T>(s: seq<T>) {
    forall i: nat, j: nat :: i < j < |s| ==> s[i] != s[j]
  }

  /** Taking the k-th element out moves the later ones up by one. */
  lemma WithoutKth<T>(was: seq<T>, front: seq<T>, x: T, rest: seq<T>)
    requires was == front + [x] + rest && Distinct(was)
    ensures Distinct(front + rest)
    ensures forall i: nat :: i < |front + rest| ==> (front + rest)[i] == was[if i < |front| then i else i + 1]
    ensures forall i: nat :: i < |front + rest| ==> (front + rest)[i] in was
  {
    var now, k := front + rest, |front|;
    forall i: nat | i < |now| ensures now[i] == was[if i < k then i else i + 1] {}
  }

  function Min(a: int, b: int): int {
    if a <= b then a else b
  }

  function Max(a: int, b: int): int {
    if a >= b then a else b
  }
}
