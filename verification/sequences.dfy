/** Generic facts about sequences used where order is unspecified or rearranged. */
module Sequences {

  /** `s` with the element at `j` taken out. */
  function RemoveAt<T>(s: seq<T>, j: nat): (r: seq<T>)
    requires j < |s|
    ensures |r| == |s| - 1
    ensures multiset(r) == multiset(s) - multiset{s[j]}
  {
    assert s == s[..j] + [s[j]] + s[j + 1..];
    assert multiset(s) == multiset(s[..j]) + multiset{s[j]} + multiset(s[j + 1..]);
    s[..j] + s[j + 1..]
  }

  /** Taking the same element out of two permutations leaves two permutations. */
  lemma RemoveFirst<T>(a: seq<T>, b: seq<T>, j: nat)
    requires a != [] && j < |b| && b[j] == a[0]
    requires multiset(a) == multiset(b)
    ensures multiset(a[1..]) == multiset(RemoveAt(b, j))
  {
    assert a == [a[0]] + a[1..];
    assert multiset(a) == multiset{a[0]} + multiset(a[1..]);
  }

  /** Some position of `b` holds `x` when `x` is in a permutation of `b`. */
  lemma PositionOf<T>(x: T, a: seq<T>, b: seq<T>) returns (j: nat)
    requires x in a && multiset(a) == multiset(b)
    ensures j < |b| && b[j] == x
  {
    assert x in multiset(a);
    assert x in multiset(b);
    j :| 0 <= j < |b| && b[j] == x;
  }
}
