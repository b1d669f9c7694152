/**
 * The comparison helpers the tests use: sequence equality, map equality
 * and equality up to order (multiset equality).
 */
module Utils {

  /** Element-wise comparison from index `i` on. */
  function EqualFrom<T(==)>(a: seq<T>, b: seq<T>, i: nat): (r: bool)
    requires |a| == |b| && i <= |a|
    ensures r <==> a[i..] == b[i..]
    decreases |a| - i
  {
    if i == |a| then true
    else if a[i] != b[i] then false
    else
      assert a[i..] == [a[i]] + a[i + 1..] && b[i..] == [b[i]] + b[i + 1..];
      EqualFrom(a, b, i + 1)
  }

  /** Equal lengths and equal elements at every index: exactly sequence equality. */
  function CompareArrays<T(==)>(a: seq<T>, b: seq<T>): (r: bool)
    ensures r <==> a == b
  {
    if |a| != |b| then false
    else
      assert a == a[0..] && b == b[0..];
      EqualFrom(a, b, 0)
  }

  /** A subset as large as the set containing it is that set. */
  lemma {:induction false} SubsetSameSize<K>(s: set<K>, t: set<K>)
    requires s <= t && |s| == |t|
    ensures s == t
  {
    assert t == s + (t - s);
    assert |t| == |s| + |t - s|;
  }

  /**
   * The same size, and every key of `a` present in `b` with the same value:
   * exactly map equality, because a map as large as `b` whose keys lie in
   * `b` has all of `b`'s keys.
   */
  function CompareMaps<K(==), V(==)>(a: map<K, V>, b: map<K, V>): (r: bool)
    ensures r <==> a == b
  {
    if |a| != |b| then false
    else if forall k :: k in a ==> k in b && a[k] == b[k] then
      SubsetSameSize(a.Keys, b.Keys);
      true
    else false
  }

  /** Count of `e` in a count map; a missing key counts zero. */
  function Count<T>(m: map<T, int>, e: T): int
  {
    if e in m then m[e] else 0
  }

  /** A sub-multiset as large as the multiset containing it is that multiset. */
  lemma {:induction false} SubMultisetSameSize<T>(x: multiset<T>, y: multiset<T>)
    requires x <= y && |x| == |y|
    ensures x == y
  {
    assert y == x + (y - x);
    assert |y| == |x| + |y - x|;
  }

  lemma PrefixStep<T>(s: seq<T>, i: nat)
    requires i < |s|
    ensures multiset(s[..i + 1]) == multiset(s[..i]) + multiset{s[i]}
    ensures multiset(s[..i + 1]) <= multiset(s)
  {
    assert s[..i + 1] == s[..i] + [s[i]];
    assert s == s[..i + 1] + s[i + 1..];
  }

  /** The first loop: a count map of the elements of `a`. */
  method Tally<T(==)>(a: seq<T>) returns (am: map<T, int>)
    ensures forall e :: Count(am, e) == multiset(a)[e]
  {
    am := map[];
    for i := 0 to |a|
      invariant forall e :: Count(am, e) == multiset(a[..i])[e]
    {
      PrefixStep(a, i);
      am := am[a[i] := Count(am, a[i]) + 1];
    }
    assert a[..|a|] == a;
  }

  /**
   * Counts the elements of `a` in a map, then takes one off for each
   * element of `b`, failing when a count is already zero. True exactly
   * when `a` and `b` hold the same elements with the same multiplicities.
   */
  method CompareArraysUnordered<T(==)>(a: seq<T>, b: seq<T>) returns (r: bool)
    ensures r <==> multiset(a) == multiset(b)
    ensures |a| != |b| ==> !r
  {
    if |a| != |b| {
      return false;
    }
    var am := Tally(a);
    for j := 0 to |b|
      invariant forall e :: Count(am, e) == multiset(a)[e] as int - multiset(b[..j])[e]
      invariant forall e :: Count(am, e) >= 0
    {
      PrefixStep(b, j);
      if Count(am, b[j]) == 0 {
        assert multiset(b)[b[j]] > multiset(a)[b[j]] by {
          assert multiset(b[..j + 1])[b[j]] == multiset(b[..j])[b[j]] + 1;
        }
        return false;
      }
      am := am[b[j] := Count(am, b[j]) - 1];
    }
    assert b[..|b|] == b;
    assert multiset(b) <= multiset(a) by {
      forall e
        ensures multiset(b)[e] <= multiset(a)[e]
      {
        assert Count(am, e) >= 0;
      }
    }
    SubMultisetSameSize(multiset(b), multiset(a));
    return true;
  }

  /** Equal sequences are also equal up to order. */
  lemma CompareArraysImpliesUnordered<T>(a: seq<T>, b: seq<T>)
    requires CompareArrays(a, b)
    ensures multiset(a) == multiset(b)
  {
  }
}
