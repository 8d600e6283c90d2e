/**
 * Stable sorting in descending order of a real-valued key, the behaviour of
 * Python's `list.sort(key=..., reverse=True)` and `sorted(..., reverse=True)`:
 * entries whose keys are equal keep their original relative order.
 *
 * `SortDesc` is the reference definition (insertion of each element, left to
 * right, behind every element whose key is at least its own); the lemmas prove
 * it sorted, a permutation and stable; `InsertionSortDesc` sorts an array in
 * place and is proved to produce exactly `SortDesc` of its old contents.
 */
module StableSort {
  import opened Sequences

  /** Non-increasing in `key`. */
  predicate Descending<T>(s: seq<T>, key: T -> real)
  {
    forall i, j :: 0 <= i < j < |s| ==> key(s[i]) >= key(s[j])
  }

  /** The subsequence of `s` whose key equals `v`, in the order of `s`. */
  function KeyFilter<T>(s: seq<T>, key: T -> real, v: real): seq<T>
  {
    if s == [] then []
    else (if key(s[0]) == v then [s[0]] else []) + KeyFilter(s[1..], key, v)
  }

  /** Inserts `x` in front of the first element whose key is strictly smaller. */
  function Insert<T>(t: seq<T>, x: T, key: T -> real): seq<T>
  {
    if t == [] then [x]
    else if key(t[0]) < key(x) then [x] + t
    else [t[0]] + Insert(t[1..], x, key)
  }

  /** Stable descending sort of `s` by `key`. */
  function SortDesc<T>(s: seq<T>, key: T -> real): seq<T>
  {
    if s == [] then []
    else Insert(SortDesc(s[..|s| - 1], key), s[|s| - 1], key)
  }

  /** Insertion adds exactly `x`. */
  lemma {:induction false} InsertPermutation<T>(t: seq<T>, x: T, key: T -> real)
    ensures multiset(Insert(t, x, key)) == multiset(t) + multiset{x}
  {
    if t != [] && key(t[0]) >= key(x) {
      InsertPermutation(t[1..], x, key);
      assert t == [t[0]] + t[1..];
    }
  }

  /** The output of `SortDesc` is a permutation of its input. */
  lemma {:induction false} SortDescPermutation<T>(s: seq<T>, key: T -> real)
    ensures multiset(SortDesc(s, key)) == multiset(s)
  {
    if s != [] {
      var n := |s| - 1;
      SortDescPermutation(s[..n], key);
      InsertPermutation(SortDesc(s[..n], key), s[n], key);
      assert s == s[..n] + [s[n]];
      assert multiset(s) == multiset(s[..n]) + multiset{s[n]};
    }
  }

  lemma SortDescLength<T>(s: seq<T>, key: T -> real)
    ensures |SortDesc(s, key)| == |s|
  {
    SortDescPermutation(s, key);
    assert |multiset(SortDesc(s, key))| == |multiset(s)|;
  }

  lemma {:induction false} InsertDescending<T>(t: seq<T>, x: T, key: T -> real)
    requires Descending(t, key)
    ensures Descending(Insert(t, x, key), key)
  {
    if t != [] && key(t[0]) >= key(x) {
      InsertDescending(t[1..], x, key);
      InsertPermutation(t[1..], x, key);
      var r := Insert(t, x, key);
      assert r == [t[0]] + Insert(t[1..], x, key);
      forall j | 0 < j < |r| ensures key(r[0]) >= key(r[j]) {
        assert r[j] in multiset(Insert(t[1..], x, key));
        assert r[j] in multiset(t[1..]) + multiset{x};
        if r[j] != x {
          var m :| 1 <= m < |t| && t[m] == r[j];
        }
      }
    }
  }

  /** The output of `SortDesc` is non-increasing in `key`. */
  lemma {:induction false} SortDescDescending<T>(s: seq<T>, key: T -> real)
    ensures Descending(SortDesc(s, key), key)
  {
    if s != [] {
      SortDescDescending(s[..|s| - 1], key);
      InsertDescending(SortDesc(s[..|s| - 1], key), s[|s| - 1], key);
    }
  }

  lemma {:induction false} KeyFilterConcat<T>(a: seq<T>, b: seq<T>, key: T -> real, v: real)
    ensures KeyFilter(a + b, key, v) == KeyFilter(a, key, v) + KeyFilter(b, key, v)
  {
    if a != [] {
      assert (a + b)[1..] == a[1..] + b;
      KeyFilterConcat(a[1..], b, key, v);
    } else {
      assert a + b == b;
    }
  }

  lemma KeyFilterSnoc<T>(s: seq<T>, key: T -> real, v: real)
    requires s != []
    ensures KeyFilter(s, key, v)
         == KeyFilter(s[..|s| - 1], key, v) + (if key(s[|s| - 1]) == v then [s[|s| - 1]] else [])
  {
    var n := |s| - 1;
    assert KeyFilter([s[n]], key, v) == (if key(s[n]) == v then [s[n]] else []) by {
      assert [s[n]][1..] == [];
    }
    assert s == s[..n] + [s[n]];
    KeyFilterConcat(s[..n], [s[n]], key, v);
  }

  lemma {:induction false} KeyFilterNone<T>(t: seq<T>, key: T -> real, v: real)
    requires forall i :: 0 <= i < |t| ==> key(t[i]) < v
    ensures KeyFilter(t, key, v) == []
  {
    if t != [] {
      KeyFilterNone(t[1..], key, v);
    }
  }

  lemma DescendingTail<T>(t: seq<T>, key: T -> real)
    requires t != [] && Descending(t, key)
    ensures Descending(t[1..], key)
    ensures forall m :: 0 <= m < |t| ==> key(t[m]) <= key(t[0])
  {
    var u := t[1..];
    forall a, b | 0 <= a < b < |u| ensures key(u[a]) >= key(u[b]) {
      assert u[a] == t[a + 1] && u[b] == t[b + 1];
    }
  }

  lemma KeyFilterCons<T>(x: T, t: seq<T>, key: T -> real, v: real)
    ensures KeyFilter([x] + t, key, v) == (if key(x) == v then [x] else []) + KeyFilter(t, key, v)
  {
    assert ([x] + t)[1..] == t;
  }

  lemma {:induction false} InsertKeyFilter<T>(t: seq<T>, x: T, key: T -> real, v: real)
    requires Descending(t, key)
    ensures KeyFilter(Insert(t, x, key), key, v)
         == KeyFilter(t, key, v) + (if key(x) == v then [x] else [])
  {
    if t == [] {
    } else if key(t[0]) < key(x) {
      KeyFilterCons(x, t, key, v);
      if key(x) == v {
        DescendingTail(t, key);
        KeyFilterNone(t, key, v);
      }
    } else {
      DescendingTail(t, key);
      InsertKeyFilter(t[1..], x, key, v);
      KeyFilterCons(t[0], Insert(t[1..], x, key), key, v);
      KeyFilterCons(t[0], t[1..], key, v);
      assert [t[0]] + t[1..] == t;
    }
  }

  /**
   * Stability: for every key value, the entries with that key appear in the
   * output in the same relative order as in the input.
   */
  lemma {:induction false} SortDescStable<T>(s: seq<T>, key: T -> real, v: real)
    ensures KeyFilter(SortDesc(s, key), key, v) == KeyFilter(s, key, v)
  {
    if s != [] {
      var n := |s| - 1;
      var x, t := s[n], SortDesc(s[..n], key);
      var last := if key(x) == v then [x] else [];
      SortDescStable(s[..n], key, v);
      SortDescDescending(s[..n], key);
      InsertKeyFilter(t, x, key, v);
      assert SortDesc(s, key) == Insert(t, x, key);
      KeyFilterSnoc(s, key, v);
    }
  }

  /** Keys that agree across `f` make insertion commute with mapping. */
  lemma {:induction false} InsertMap<A, B>(t: seq<A>, x: A, ka: A -> real, f: A -> B, kb: B -> real)
    requires forall i :: 0 <= i < |t| ==> kb(f(t[i])) == ka(t[i])
    requires kb(f(x)) == ka(x)
    ensures Insert(MapSeq(t, f), f(x), kb) == MapSeq(Insert(t, x, ka), f)
  {
    if t == [] {
    } else if ka(t[0]) < ka(x) {
      MapConcat([x], t, f);
    } else {
      InsertMap(t[1..], x, ka, f, kb);
      assert MapSeq(t, f)[1..] == MapSeq(t[1..], f);
      MapConcat([t[0]], Insert(t[1..], x, ka), f);
    }
  }

  /**
   * Sorting commutes with a mapping that carries every key over unchanged:
   * sorting the images gives the images of the sorted sequence.
   */
  lemma {:induction false} SortDescMap<A, B>(s: seq<A>, ka: A -> real, f: A -> B, kb: B -> real)
    requires forall i :: 0 <= i < |s| ==> kb(f(s[i])) == ka(s[i])
    ensures SortDesc(MapSeq(s, f), kb) == MapSeq(SortDesc(s, ka), f)
  {
    if s != [] {
      var n := |s| - 1;
      assert MapSeq(s, f)[..n] == MapSeq(s[..n], f);
      SortDescMap(s[..n], ka, f, kb);
      var t := SortDesc(s[..n], ka);
      SortDescPermutation(s[..n], ka);
      forall i | 0 <= i < |t| ensures kb(f(t[i])) == ka(t[i]) {
        assert t[i] in multiset(s[..n]);
        var m :| 0 <= m < n && s[..n][m] == t[i];
      }
      InsertMap(t, s[n], ka, f, kb);
    }
  }

  /** Insertion lands behind every element whose key is at least `key(x)`, before the first smaller one. */
  lemma {:induction false} InsertAt<T>(t: seq<T>, x: T, key: T -> real, j: nat)
    requires j <= |t|
    requires forall m :: 0 <= m < j ==> key(t[m]) >= key(x)
    requires j < |t| ==> key(t[j]) < key(x)
    ensures Insert(t, x, key) == t[..j] + [x] + t[j..]
  {
    if j > 0 {
      var u := t[1..];
      forall m | 0 <= m < j - 1 ensures key(u[m]) >= key(x) {
        assert u[m] == t[m + 1];
      }
      assert j - 1 < |u| ==> u[j - 1] == t[j];
      InsertAt(u, x, key, j - 1);
      assert t[..j] == [t[0]] + u[..j - 1];
      assert t[j..] == u[j - 1..];
      assert [t[0]] + (u[..j - 1] + [x] + u[j - 1..]) == ([t[0]] + u[..j - 1]) + [x] + u[j - 1..];
    }
  }

  /** An element whose key is at most every key goes last. */
  lemma InsertLast<T>(t: seq<T>, x: T, key: T -> real)
    requires forall m :: 0 <= m < |t| ==> key(t[m]) >= key(x)
    ensures Insert(t, x, key) == t + [x]
  {
    InsertAt(t, x, key, |t|);
    assert t[..|t|] == t && t[|t|..] == [];
  }

  /** In a sorted sequence, everything before an element with key at least `k` has key at least `k`. */
  lemma DescendingAbove<T>(t: seq<T>, key: T -> real, j: nat, k: real)
    requires Descending(t, key) && 0 < j <= |t| && key(t[j - 1]) >= k
    ensures forall m :: 0 <= m < j ==> key(t[m]) >= k
  {
  }

  lemma SortDescPrefix<T>(s: seq<T>, i: nat, key: T -> real)
    requires i < |s|
    ensures SortDesc(s[..i + 1], key) == Insert(SortDesc(s[..i], key), s[i], key)
  {
    assert s[..i + 1][..i] == s[..i];
  }

  lemma SplitAt<T>(u: seq<T>, k: nat)
    requires k <= |u|
    ensures u == u[..k] + u[k..]
  {
  }

  /** A sequence that is `t` with `x` placed at index `j` is `t[..j] + [x] + t[j..]`. */
  lemma Shifted<T>(r: seq<T>, t: seq<T>, x: T, j: nat)
    requires j <= |t| && |r| == |t| + 1
    requires forall m :: 0 <= m < j ==> r[m] == t[m]
    requires r[j] == x
    requires forall m :: j < m < |r| ==> r[m] == t[m - 1]
    ensures r == t[..j] + [x] + t[j..]
  {
  }

  /** The state the inner loop of `InsertStep` leaves behind is the insertion of `x` into `t`. */
  lemma InsertShifted<T>(r: seq<T>, t: seq<T>, x: T, key: T -> real, j: nat)
    requires Descending(t, key)
    requires j <= |t| && |r| == |t| + 1
    requires j == 0 || key(t[j - 1]) >= key(x)
    requires forall m :: j <= m < |t| ==> key(t[m]) < key(x)
    requires forall m :: 0 <= m < j ==> r[m] == t[m]
    requires r[j] == x
    requires forall m :: j < m < |r| ==> r[m] == t[m - 1]
    ensures r == Insert(t, x, key)
  {
    if j > 0 {
      DescendingAbove(t, key, j, key(x));
    }
    InsertAt(t, x, key, j);
    Shifted(r, t, x, j);
  }

  /**
   * One step of insertion sort: with `a[..i]` already sorted, moves `a[i]`
   * left past every element whose key is strictly smaller.
   */
  method InsertStep<T>(a: array<T>, i: nat, key: T -> real)
    requires i < a.Length
    requires Descending(a[..i], key)
    modifies a
    ensures a[..i + 1] == Insert(old(a[..i]), old(a[i]), key)
    ensures a[i + 1..] == old(a[i + 1..])
  {
    ghost var t := a[..i];
    var x := a[i];
    var j := i;
    while j > 0 && key(a[j - 1]) < key(x)
      invariant 0 <= j <= i
      invariant forall m :: 0 <= m < j ==> a[m] == t[m]
      invariant forall m :: j < m <= i ==> a[m] == t[m - 1]
      invariant forall m :: j <= m < i ==> key(t[m]) < key(x)
      invariant forall m :: i < m < a.Length ==> a[m] == old(a[m])
    {
      a[j] := a[j - 1];
      j := j - 1;
    }
    a[j] := x;
    InsertShifted(a[..i + 1], t, x, key, j);
    assert a[i + 1..] == old(a[i + 1..]);
  }

  /** Splits the loop invariant of `InsertionSortDesc` around the element to insert next. */
  lemma SplitBeforeStep<T>(u: seq<T>, t: seq<T>, s: seq<T>, i: nat)
    requires i < |s| && |t| == i && u == t + s[i..]
    ensures u[..i] == t && u[i] == s[i] && u[i + 1..] == s[i + 1..]
  {
    assert s[i..] == [s[i]] + s[i + 1..];
  }

  /** Joins the sorted prefix and the untouched rest back into the loop invariant. */
  lemma JoinAfterStep<T>(u: seq<T>, s: seq<T>, i: nat, key: T -> real)
    requires i < |s| && |u| == |s|
    requires u[..i + 1] == Insert(SortDesc(s[..i], key), s[i], key)
    requires u[i + 1..] == s[i + 1..]
    ensures u == SortDesc(s[..i + 1], key) + s[i + 1..]
  {
    SortDescPrefix(s, i, key);
    SplitAt(u, i + 1);
  }

  /** Sorts `a` in place, stably and in descending order of `key`. */
  method InsertionSortDesc<T>(a: array<T>, key: T -> real)
    modifies a
    ensures a[..] == SortDesc(old(a[..]), key)
  {
    ghost var s := a[..];
    for i := 0 to a.Length
      invariant a[..] == SortDesc(s[..i], key) + s[i..]
    {
      SortDescLength(s[..i], key);
      SplitBeforeStep(a[..], SortDesc(s[..i], key), s, i);
      SortDescDescending(s[..i], key);
      InsertStep(a, i, key);
      JoinAfterStep(a[..], s, i, key);
    }
    assert s[..a.Length] == s;
  }
}
