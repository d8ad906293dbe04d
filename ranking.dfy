/**
  * The report order of `compare_buckets`: `sort_by` with a comparator that
  * puts the larger bucket value first. `sort_by` is stable, so buckets of
  * equal value keep their relative order. The sort is stated for any
  * element type and integer key; the buckets use `BucketValue` as the key.
  */
module Ranking {
  import opened Seqs
  import opened Buckets

  /** No element has a larger key than one before it. */
  predicate SortedDesc<T>(s: seq<T>, key: T -> int) {
    forall i, j :: 0 <= i < j < |s| ==> key(s[i]) >= key(s[j])
  }

  /** The elements whose key is `v`, in their order in `s`. */
  function WithKey<T>(s: seq<T>, key: T -> int, v: int): (r: seq<T>)
    ensures |r| <= |s|
  {
    if s == [] then []
    else
      var last := s[|s| - 1];
      WithKey(s[..|s| - 1], key, v) + (if key(last) == v then [last] else [])
  }

  lemma {:induction false} WithKeyAppend<T>(a: seq<T>, b: seq<T>, key: T -> int, v: int)
    ensures WithKey(a + b, key, v) == WithKey(a, key, v) + WithKey(b, key, v)
    decreases |b|
  {
    if b != [] {
      AppendDropLast(a, b);
      WithKeyAppend(a, b[..|b| - 1], key, v);
    } else {
      assert a + b == a;
    }
  }

  /**
    * Places `x` after `s`, then moves it left past every element of smaller
    * key and no further, so equal keys keep their order.
    */
  function Insert<T>(s: seq<T>, x: T, key: T -> int): (r: seq<T>)
    ensures |r| == |s| + 1
    decreases |s|
  {
    if s == [] || key(s[|s| - 1]) >= key(x) then s + [x]
    else Insert(s[..|s| - 1], x, key) + [s[|s| - 1]]
  }

  /** Insertion sort by key, largest first. */
  function SortDesc<T>(s: seq<T>, key: T -> int): (r: seq<T>)
    ensures |r| == |s|
  {
    if s == [] then [] else Insert(SortDesc(s[..|s| - 1], key), s[|s| - 1], key)
  }

  lemma {:induction false} InsertPermutes<T>(s: seq<T>, x: T, key: T -> int)
    ensures multiset(Insert(s, x, key)) == multiset(s) + multiset{x}
    decreases |s|
  {
    if !(s == [] || key(s[|s| - 1]) >= key(x)) {
      InsertPermutes(s[..|s| - 1], x, key);
      LastSplit(s);
      assert multiset(s) == multiset(s[..|s| - 1]) + multiset{s[|s| - 1]};
    }
  }

  /** Insertion into a sorted sequence keeps it sorted. */
  lemma {:induction false} InsertSorted<T>(s: seq<T>, x: T, key: T -> int)
    requires SortedDesc(s, key)
    ensures SortedDesc(Insert(s, x, key), key)
    ensures forall y :: y in Insert(s, x, key) ==> y == x || y in s
    decreases |s|
  {
    if !(s == [] || key(s[|s| - 1]) >= key(x)) {
      var pre, last := s[..|s| - 1], s[|s| - 1];
      assert SortedDesc(pre, key);
      InsertSorted(pre, x, key);
      var r := Insert(pre, x, key);
      forall y | y in r ensures key(y) >= key(last) {
        if y != x {
          var k :| 0 <= k < |pre| && pre[k] == y;
          assert s[k] == y;
        }
      }
      assert Insert(s, x, key) == r + [last];
      forall i, j | 0 <= i < j < |r| + 1
        ensures key((r + [last])[i]) >= key((r + [last])[j])
      {
        if j == |r| {
          assert (r + [last])[i] in r;
        }
      }
      forall y | y in Insert(s, x, key) ensures y == x || y in s {
        if y in r {
          assert y == x || y in pre;
        }
      }
    } else if s != [] {
      forall i, j | 0 <= i < j < |s| + 1
        ensures key((s + [x])[i]) >= key((s + [x])[j])
      {
        if j == |s| {
          assert key(s[i]) >= key(s[|s| - 1]);
        }
      }
    }
  }

  /** Insertion adds `x` after the elements of its own key and changes no other key group. */
  lemma {:induction false} InsertStable<T>(s: seq<T>, x: T, key: T -> int, v: int)
    ensures WithKey(Insert(s, x, key), key, v) == WithKey(s, key, v) + WithKey([x], key, v)
    decreases |s|
  {
    if s == [] || key(s[|s| - 1]) >= key(x) {
      WithKeyAppend(s, [x], key, v);
    } else {
      var pre, last := s[..|s| - 1], s[|s| - 1];
      InsertStable(pre, x, key, v);
      WithKeyAppend(Insert(pre, x, key), [last], key, v);
      WithKeyAppend(pre, [last], key, v);
      LastSplit(s);
      assert [x][..0] == [] && [last][..0] == [];
    }
  }

  /** The sort yields its input ordered by key, largest first. */
  lemma {:induction false} SortSorted<T>(s: seq<T>, key: T -> int)
    ensures SortedDesc(SortDesc(s, key), key)
  {
    if s != [] {
      SortSorted(s[..|s| - 1], key);
      InsertSorted(SortDesc(s[..|s| - 1], key), s[|s| - 1], key);
    }
  }

  /** The sort neither loses nor duplicates an element. */
  lemma {:induction false} SortPermutes<T>(s: seq<T>, key: T -> int)
    ensures multiset(SortDesc(s, key)) == multiset(s)
  {
    if s != [] {
      var pre := s[..|s| - 1];
      SortPermutes(pre, key);
      InsertPermutes(SortDesc(pre, key), s[|s| - 1], key);
      LastSplit(s);
    }
  }

  /** The sort is stable: for every key, the elements with that key appear in their input order. */
  lemma {:induction false} SortStable<T>(s: seq<T>, key: T -> int, v: int)
    ensures WithKey(SortDesc(s, key), key, v) == WithKey(s, key, v)
  {
    if s != [] {
      var pre, last := s[..|s| - 1], s[|s| - 1];
      SortStable(pre, key, v);
      InsertStable(SortDesc(pre, key), last, key, v);
      WithKeyAppend(pre, [last], key, v);
      LastSplit(s);
      assert [last][..0] == [];
    }
  }

  /**
    * `Insert` puts `x` right after the last element whose key is at least
    * its own, when every element after that point has a smaller key.
    */
  lemma {:induction false} InsertPoint<T>(s: seq<T>, j: nat, x: T, key: T -> int)
    requires j <= |s| && (j == 0 || key(s[j - 1]) >= key(x))
    requires forall k :: j <= k < |s| ==> key(s[k]) < key(x)
    ensures Insert(s, x, key) == s[..j] + [x] + s[j..]
    decreases |s|
  {
    if j < |s| {
      var pre := s[..|s| - 1];
      assert pre[..j] == s[..j];
      InsertPoint(pre, j, x, key);
      assert s[j..] == pre[j..] + [s[|s| - 1]];
    } else {
      assert s[..j] == s && s[j..] == [];
    }
  }

  /** Sorting one more input element inserts it into the sorted prefix. */
  lemma SortStep<T>(input: seq<T>, i: nat, key: T -> int)
    requires i < |input|
    ensures SortDesc(input[..i + 1], key) == Insert(SortDesc(input[..i], key), input[i], key)
  {
    TakeOneMore(input, i);
  }

  /** One pass of the insertion sort: moves `a[i]` into place among `a[..i + 1]`. */
  method InsertAt<T>(a: array<T>, i: nat, key: T -> int)
    requires i < a.Length
    modifies a
    ensures a[..i + 1] == Insert(old(a[..i]), old(a[i]), key)
    ensures a[i + 1..] == old(a[i + 1..])
  {
    var x := a[i];
    ghost var sorted := a[..i];
    var j := i;
    while j > 0 && key(a[j - 1]) < key(x)
      invariant 0 <= j <= i
      invariant forall k :: 0 <= k < j ==> a[k] == sorted[k]
      invariant a[j] == x
      invariant forall k :: j < k <= i ==> a[k] == sorted[k - 1]
      invariant forall k :: i < k < a.Length ==> a[k] == old(a[k])
      invariant forall k :: j <= k < i ==> key(sorted[k]) < key(x)
    {
      a[j - 1], a[j] := a[j], a[j - 1];
      j := j - 1;
    }
    InsertPoint(sorted, j, x, key);
    assert a[..i + 1] == sorted[..j] + [x] + sorted[j..];
  }

  /** `slice::sort_by` with a larger-key-first comparator, as a stable in-place sort. */
  method SortByKeyDesc<T>(a: array<T>, key: T -> int)
    modifies a
    ensures a[..] == SortDesc(old(a[..]), key)
    ensures SortedDesc(a[..], key)
    ensures multiset(a[..]) == multiset(old(a[..]))
    ensures forall v :: WithKey(a[..], key, v) == WithKey(old(a[..]), key, v)
  {
    ghost var input := a[..];
    var i := 0;
    while i < a.Length
      invariant 0 <= i <= a.Length
      invariant a[..i] == SortDesc(input[..i], key)
      invariant a[i..] == input[i..]
    {
      assert a[i] == input[i] by { assert a[i..][0] == input[i..][0]; }
      InsertAt(a, i, key);
      SortStep(input, i, key);
      assert a[i + 1..] == input[i + 1..];
      i := i + 1;
    }
    TakeAll(input);
    assert a[..] == a[..i];
    SortSorted(input, key);
    SortPermutes(input, key);
    forall v ensures WithKey(a[..], key, v) == WithKey(input, key, v) {
      SortStable(input, key, v);
    }
  }

  /**
    * `compare_buckets` without its printing: the buckets sorted in place by
    * value, largest first, equal values in their original order.
    */
  method CompareBuckets(buckets: array<Bucket>)
    modifies buckets
    ensures SortedDesc(buckets[..], BucketValue)
    ensures multiset(buckets[..]) == multiset(old(buckets[..]))
    ensures forall v :: WithKey(buckets[..], BucketValue, v) == WithKey(old(buckets[..]), BucketValue, v)
  {
    SortByKeyDesc(buckets, BucketValue);
  }
}
