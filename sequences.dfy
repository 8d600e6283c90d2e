/** Generic helpers on sequences shared by the ranking, the metrics and the dashboard. */
module Sequences {

  /** The sequence obtained by applying `f` to every element of `s`, in order. */
  function MapSeq<A, B>(s: seq<A>, f: A -> B): (r: seq<B>)
    ensures |r| == |s|
    ensures forall i :: 0 <= i < |s| ==> r[i] == f(s[i])
  {
    seq(|s|, i requires 0 <= i < |s| => f(s[i]))
  }

  /** The smaller of two naturals; the length of a Python slice `s[:k]` for `k >= 0`. */
  function Min(a: nat, b: nat): (m: nat)
    ensures m <= a && m <= b && (m == a || m == b)
  {
    if a <= b then a else b
  }

  /** Python's `s[:k]` for a non-negative `k`: at most the first `k` elements. */
  function Take<T>(s: seq<T>, k: nat): (r: seq<T>)
    ensures |r| == Min(k, |s|)
    ensures r <= s
  {
    s[..Min(k, |s|)]
  }

  lemma MapConcat<A, B>(a: seq<A>, b: seq<A>, f: A -> B)
    ensures MapSeq(a + b, f) == MapSeq(a, f) + MapSeq(b, f)
  {
  }

  lemma MapTake<A, B>(s: seq<A>, k: nat, f: A -> B)
    ensures MapSeq(Take(s, k), f) == Take(MapSeq(s, f), k)
  {
  }

  /** Mapping a permutation gives a permutation of the mapped sequence. */
  lemma {:induction false} MapPermutation<A, B>(a: seq<A>, b: seq<A>, f: A -> B)
    requires multiset(a) == multiset(b)
    ensures multiset(MapSeq(a, f)) == multiset(MapSeq(b, f))
    decreases |a|
  {
    if a == [] {
      assert |b| == |multiset(b)| == 0;
    } else {
      var n := |a| - 1;
      var x := a[n];
      assert x in multiset(a);
      var j :| 0 <= j < |b| && b[j] == x;
      var rest := b[..j] + b[j + 1..];
      assert b == b[..j] + [x] + b[j + 1..];
      assert a == a[..n] + [x];
      assert multiset(a[..n]) == multiset(rest) by {
        assert multiset(b) == multiset(b[..j]) + multiset{x} + multiset(b[j + 1..]);
        assert multiset(rest) == multiset(b[..j]) + multiset(b[j + 1..]);
        assert multiset(a) == multiset(a[..n]) + multiset{x};
        assert multiset(a[..n]) + multiset{x} == multiset(rest) + multiset{x};
        assert multiset(a[..n]) == multiset(a[..n]) + multiset{x} - multiset{x};
      }
      MapPermutation(a[..n], rest, f);
      MapConcat(a[..n], [x], f);
      MapConcat(b[..j], [x], f);
      MapConcat(b[..j] + [x], b[j + 1..], f);
      MapConcat(b[..j], b[j + 1..], f);
    }
  }
}
