/** Reading order of the kept boxes: Python's stable `list.sort` with the key
    `(y // 100, x)`. The divisor is positive, so Python's floor division and
    Dafny's Euclidean `/` agree on every `y`. */
module Ordering {
  import opened Regions

  const RowBand := 100

  /** The coarse row a box falls into. */
  function RowBucket(b: Box): int {
    b.y / RowBand
  }

  /** The bucket is Python's `y // 100`: the floor of y / 100, for negative y too. */
  lemma RowBucketIsFloor(b: Box)
    ensures RowBand * RowBucket(b) <= b.y < RowBand * (RowBucket(b) + 1)
  {
  }

  function SortKey(b: Box): (int, int) {
    (RowBucket(b), b.x)
  }

  /** Lexicographic comparison of the sort keys of two boxes, as Python compares tuples. */
  predicate KeyLe(a: Box, b: Box) {
    RowBucket(a) < RowBucket(b) || (RowBucket(a) == RowBucket(b) && a.x <= b.x)
  }

  predicate Sorted(s: seq<Box>) {
    forall i, j :: 0 <= i < j < |s| ==> KeyLe(s[i], s[j])
  }

  /** The boxes of `s` whose key is `k`, in their order in `s`. */
  function WithKey(s: seq<Box>, k: (int, int)): seq<Box> {
    if s == [] then []
    else (if SortKey(s[0]) == k then [s[0]] else []) + WithKey(s[1..], k)
  }

  /** Inserts `b` in front of the first box whose key is not smaller. */
  function Insert(b: Box, s: seq<Box>): (r: seq<Box>)
    ensures |r| == |s| + 1
  {
    if s == [] || KeyLe(b, s[0]) then [b] + s
    else [s[0]] + Insert(b, s[1..])
  }

  /** Stable sort by key (insertion sort). */
  function SortByKey(s: seq<Box>): (r: seq<Box>)
    ensures |r| == |s|
  {
    if s == [] then [] else Insert(s[0], SortByKey(s[1..]))
  }

  lemma {:induction false} InsertPermutation(b: Box, s: seq<Box>)
    ensures multiset(Insert(b, s)) == multiset(s) + multiset{b}
  {
    if s != [] && !KeyLe(b, s[0]) {
      InsertPermutation(b, s[1..]);
      assert s == [s[0]] + s[1..];
    }
  }

  lemma {:induction false} InsertSorted(b: Box, s: seq<Box>)
    requires Sorted(s)
    ensures Sorted(Insert(b, s))
  {
    if s != [] && !KeyLe(b, s[0]) {
      var rest := Insert(b, s[1..]);
      InsertSorted(b, s[1..]);
      InsertPermutation(b, s[1..]);
      var r := [s[0]] + rest;
      assert Insert(b, s) == r;
      forall j | 0 < j < |r| ensures KeyLe(s[0], r[j]) {
        var y := rest[j - 1];
        assert y in multiset(rest);
        if y != b {
          assert y in multiset(s[1..]);
          var m :| 0 <= m < |s[1..]| && s[1..][m] == y;
          assert s[1 + m] == y;
        }
      }
    }
  }

  lemma {:induction false} InsertWithKey(b: Box, s: seq<Box>, k: (int, int))
    ensures WithKey(Insert(b, s), k) == (if SortKey(b) == k then [b] else []) + WithKey(s, k)
  {
    if s == [] || KeyLe(b, s[0]) {
      assert ([b] + s)[1..] == s;
    } else {
      var rest := Insert(b, s[1..]);
      InsertWithKey(b, s[1..], k);
      assert ([s[0]] + rest)[1..] == rest;
    }
  }

  /** SortByKey returns the input boxes, each as often as before, in non-decreasing key order. */
  lemma {:induction false} SortByKeySortedPermutation(s: seq<Box>)
    ensures Sorted(SortByKey(s))
    ensures multiset(SortByKey(s)) == multiset(s)
  {
    if s != [] {
      SortByKeySortedPermutation(s[1..]);
      InsertSorted(s[0], SortByKey(s[1..]));
      InsertPermutation(s[0], SortByKey(s[1..]));
      assert s == [s[0]] + s[1..];
    }
  }

  /** Stability: boxes with equal keys keep their relative order. */
  lemma {:induction false} SortByKeyStable(s: seq<Box>, k: (int, int))
    ensures WithKey(SortByKey(s), k) == WithKey(s, k)
  {
    if s != [] {
      SortByKeyStable(s[1..], k);
      InsertWithKey(s[0], SortByKey(s[1..]), k);
    }
  }

  lemma WithKeyMember(s: seq<Box>, k: (int, int), x: Box)
    requires x in WithKey(s, k)
    ensures x in s && SortKey(x) == k
  {
    if s != [] && x !in WithKey(s[1..], k) {
      assert x == s[0];
    } else if s != [] {
      WithKeyMember(s[1..], k, x);
    }
  }

  lemma SortedHeadLeast(s: seq<Box>, x: Box)
    requires Sorted(s) && x in s
    ensures KeyLe(s[0], x)
  {
    var j :| 0 <= j < |s| && s[j] == x;
    if j > 0 {
      assert KeyLe(s[0], s[j]);
    }
  }

  /** Two sorted lists with the same per-key subsequences start with the same box. */
  lemma SameHead(t: seq<Box>, u: seq<Box>)
    requires Sorted(t) && Sorted(u) && t != [] && u != []
    requires forall k :: WithKey(t, k) == WithKey(u, k)
    ensures t[0] == u[0]
  {
    var k1, k2 := SortKey(t[0]), SortKey(u[0]);
    assert WithKey(t, k1)[0] == t[0];
    assert WithKey(u, k2)[0] == u[0];
    WithKeyMember(u, k1, t[0]);
    WithKeyMember(t, k2, u[0]);
    SortedHeadLeast(u, t[0]);
    SortedHeadLeast(t, u[0]);
    assert WithKey(u, k1)[0] == u[0];
  }

  lemma SameTailKeys(t: seq<Box>, u: seq<Box>, k: (int, int))
    requires t != [] && u != [] && t[0] == u[0]
    requires WithKey(t, k) == WithKey(u, k)
    ensures WithKey(t[1..], k) == WithKey(u[1..], k)
  {
    var head := if SortKey(t[0]) == k then [t[0]] else [];
    assert WithKey(t, k) == head + WithKey(t[1..], k);
    assert WithKey(u, k) == head + WithKey(u[1..], k);
    assert WithKey(t[1..], k) == (head + WithKey(t[1..], k))[|head|..];
    assert WithKey(u[1..], k) == (head + WithKey(u[1..], k))[|head|..];
  }

  /** A sorted arrangement is fixed by its per-key subsequences. */
  lemma {:induction false} SortedUnique(t: seq<Box>, u: seq<Box>)
    requires Sorted(t) && Sorted(u)
    requires forall k :: WithKey(t, k) == WithKey(u, k)
    ensures t == u
  {
    if t != [] {
      assert WithKey(t, SortKey(t[0]))[0] == t[0];
      assert WithKey(u, SortKey(t[0])) != [];
    }
    if u != [] {
      assert WithKey(u, SortKey(u[0]))[0] == u[0];
      assert WithKey(t, SortKey(u[0])) != [];
    }
    if t != [] {
      SameHead(t, u);
      forall k ensures WithKey(t[1..], k) == WithKey(u[1..], k) {
        SameTailKeys(t, u, k);
      }
      SortedUnique(t[1..], u[1..]);
      assert t == [t[0]] + t[1..] && u == [u[0]] + u[1..];
    }
  }

  /** Any sorted, stable arrangement of `s` is SortByKey(s): whichever stable
      sorting algorithm runs, the reading order is this one. */
  lemma StableSortIsSortByKey(s: seq<Box>, t: seq<Box>)
    requires Sorted(t)
    requires forall k :: WithKey(t, k) == WithKey(s, k)
    ensures t == SortByKey(s)
  {
    SortByKeySortedPermutation(s);
    forall k ensures WithKey(t, k) == WithKey(SortByKey(s), k) {
      SortByKeyStable(s, k);
    }
    SortedUnique(t, SortByKey(s));
  }
}
