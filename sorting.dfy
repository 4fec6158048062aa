/**
 * Python's `list.sort(key=...)` on an integer key: a stable sort. A stable
 * sort is pinned down by two facts: the result is ascending by key, and for
 * every key the elements carrying it keep their relative order.
 */
module StableSort {

  predicate SortedBy<T>(s: seq<T>, key: T -> int) {
    forall i, j :: 0 <= i < j < |s| ==> key(s[i]) <= key(s[j])
  }

  /** The subsequence of the elements of `s` whose key is `k`, in their order in `s`. */
  function WithKey<T>(s: seq<T>, key: T -> int, k: int): seq<T>
  {
    if s == [] then [] else (if key(s[0]) == k then [s[0]] else []) + WithKey(s[1..], key, k)
  }

  /** Two sequences that agree on the elements of every key. */
  ghost predicate SameKeyRuns<T>(a: seq<T>, b: seq<T>, key: T -> int) {
    forall k :: WithKey(a, key, k) == WithKey(b, key, k)
  }

  lemma {:induction false} WithKeyAppend<T>(a: seq<T>, b: seq<T>, key: T -> int, k: int)
    ensures WithKey(a + b, key, k) == WithKey(a, key, k) + WithKey(b, key, k)
  {
    if a != [] {
      assert (a + b)[1..] == a[1..] + b;
      WithKeyAppend(a[1..], b, key, k);
    } else {
      assert a + b == b;
    }
  }

  /** Insert `x` in front of the first element whose key is not smaller. */
  function Insert<T>(x: T, t: seq<T>, key: T -> int): (r: seq<T>)
    ensures multiset(r) == multiset(t) + multiset{x}
  {
    if t == [] || key(x) <= key(t[0]) then
      [x] + t
    else
      assert t == [t[0]] + t[1..];
      [t[0]] + Insert(x, t[1..], key)
  }

  /** Every element of an insertion is `x` or an element of `t`. */
  lemma {:induction false} InsertMembers<T>(x: T, t: seq<T>, key: T -> int, i: nat)
    requires i < |Insert(x, t, key)|
    ensures Insert(x, t, key)[i] == x || Insert(x, t, key)[i] in t
  {
    var r := Insert(x, t, key);
    assert r[i] in multiset(r);
  }

  /** Inserting into a sorted sequence keeps it sorted. */
  lemma {:induction false} InsertSorted<T>(x: T, t: seq<T>, key: T -> int)
    requires SortedBy(t, key)
    ensures SortedBy(Insert(x, t, key), key)
  {
    if t != [] && key(x) > key(t[0]) {
      var r' := Insert(x, t[1..], key);
      InsertSorted(x, t[1..], key);
      var r := [t[0]] + r';
      assert Insert(x, t, key) == r;
      forall i, j | 0 <= i < j < |r| ensures key(r[i]) <= key(r[j]) {
        if i == 0 {
          InsertMembers(x, t[1..], key, j - 1);
          if r'[j - 1] != x {
            var m :| 0 <= m < |t[1..]| && t[1..][m] == r'[j - 1];
            assert t[m + 1] == r'[j - 1];
          }
        } else {
          assert r[i] == r'[i - 1] && r[j] == r'[j - 1];
        }
      }
    }
  }

  /** Insertion puts `x` before the elements of its own key and keeps their order. */
  lemma {:induction false} InsertWithKey<T>(x: T, t: seq<T>, key: T -> int, k: int)
    ensures WithKey(Insert(x, t, key), key, k) == (if key(x) == k then [x] else []) + WithKey(t, key, k)
  {
    if t == [] || key(x) <= key(t[0]) {
      assert ([x] + t)[1..] == t;
    } else {
      var r' := Insert(x, t[1..], key);
      InsertWithKey(x, t[1..], key, k);
      var r := [t[0]] + r';
      assert r[0] == t[0] && r[1..] == r';
      assert WithKey(t, key, k) == (if key(t[0]) == k then [t[0]] else []) + WithKey(t[1..], key, k);
      // the skipped head has a smaller key than `x`, so at most one of the two is in the run of `k`
      if key(t[0]) == k {
        assert key(x) != k;
      }
    }
  }

  /** Stable insertion sort by key: the reference definition of `list.sort(key=...)`. */
  function SortByKey<T>(s: seq<T>, key: T -> int): (r: seq<T>)
    ensures SortedBy(r, key)
    ensures multiset(r) == multiset(s)
  {
    if s == [] then []
    else
      assert s == [s[0]] + s[1..];
      InsertSorted(s[0], SortByKey(s[1..], key), key);
      Insert(s[0], SortByKey(s[1..], key), key)
  }

  /** Sorting keeps, for every key, the order of the elements that carry it. */
  lemma {:induction false} SortByKeyStable<T>(s: seq<T>, key: T -> int, k: int)
    ensures WithKey(SortByKey(s, key), key, k) == WithKey(s, key, k)
  {
    if s != [] {
      SortByKeyStable(s[1..], key, k);
      InsertWithKey(s[0], SortByKey(s[1..], key), key, k);
    }
  }

  lemma {:induction false} WithKeyHead<T>(s: seq<T>, key: T -> int)
    requires s != []
    ensures WithKey(s, key, key(s[0])) == [s[0]] + WithKey(s[1..], key, key(s[0]))
  {
  }

  /** Sorted by key with the same elements per key: there is only one such sequence. */
  lemma {:induction false} StableSortUnique<T>(a: seq<T>, b: seq<T>, key: T -> int)
    requires SortedBy(a, key) && SortedBy(b, key)
    requires SameKeyRuns(a, b, key)
    ensures a == b
  {
    // a head on one side has a non-empty run of its key, which the other side shares
    assert a != [] <==> b != [] by {
      if a != [] { WithKeyHead(a, key); }
      if b != [] { WithKeyHead(b, key); }
    }
    if a != [] {
      var ka, kb := key(a[0]), key(b[0]);
      // each head key occurs in the other sequence, where it is at least the head key
      assert ka == kb by {
        KeyAtLeastHead(b, key, ka);
        KeyAtLeastHead(a, key, kb);
      }
      WithKeyHead(a, key);
      WithKeyHead(b, key);
      var wa, wb := WithKey(a[1..], key, ka), WithKey(b[1..], key, ka);
      assert [a[0]] + wa == [b[0]] + wb by {
        assert WithKey(a, key, ka) == WithKey(b, key, ka);
      }
      assert a[0] == ([a[0]] + wa)[0] && b[0] == ([b[0]] + wb)[0];
      assert wa == ([a[0]] + wa)[1..] && wb == ([b[0]] + wb)[1..];
      forall k ensures WithKey(a[1..], key, k) == WithKey(b[1..], key, k) {
        assert WithKey(a, key, k) == WithKey(b, key, k);
        if k != ka {
          assert WithKey(a, key, k) == WithKey(a[1..], key, k);
          assert WithKey(b, key, k) == WithKey(b[1..], key, k);
        }
      }
      assert SortedBy(a[1..], key) && SortedBy(b[1..], key);
      StableSortUnique(a[1..], b[1..], key);
      assert a == [a[0]] + a[1..] && b == [b[0]] + b[1..];
    }
  }

  /** In a sorted non-empty sequence, a key that occurs is no smaller than the first key. */
  lemma {:induction false} KeyAtLeastHead<T>(s: seq<T>, key: T -> int, k: int)
    requires SortedBy(s, key) && s != []
    requires WithKey(s, key, k) != []
    ensures key(s[0]) <= k
  {
    if key(s[0]) != k {
      assert WithKey(s[1..], key, k) != [];
      if |s| > 1 {
        assert SortedBy(s[1..], key);
        KeyAtLeastHead(s[1..], key, k);
      }
    }
  }

  /** Swapping two neighbours with different keys changes no key's subsequence. */
  lemma SwapNeighbours<T>(s: seq<T>, j: nat, key: T -> int)
    requires 0 < j < |s| && key(s[j - 1]) != key(s[j])
    ensures SameKeyRuns(s[j - 1 := s[j]][j := s[j - 1]], s, key)
  {
    var t := s[j - 1 := s[j]][j := s[j - 1]];
    var pre, post := s[..j - 1], s[j + 1..];
    assert s == pre + [s[j - 1], s[j]] + post;
    assert t == pre + [s[j], s[j - 1]] + post;
    forall k ensures WithKey(t, key, k) == WithKey(s, key, k) {
      WithKeyAppend(pre + [s[j - 1], s[j]], post, key, k);
      WithKeyAppend(pre, [s[j - 1], s[j]], key, k);
      WithKeyAppend(pre + [s[j], s[j - 1]], post, key, k);
      WithKeyAppend(pre, [s[j], s[j - 1]], key, k);
      assert [s[j - 1], s[j]][1..] == [s[j]];
      assert [s[j], s[j - 1]][1..] == [s[j - 1]];
    }
  }

  /** The first `i + 1` elements are in key order, except possibly at position `j`. */
  predicate SortedExcept<T>(s: seq<T>, i: nat, j: nat, key: T -> int)
    requires i < |s|
  {
    forall p, q :: 0 <= p < q <= i && q != j ==> key(s[p]) <= key(s[q])
  }

  lemma StartInsertion<T>(s: seq<T>, i: nat, key: T -> int)
    requires i < |s| && SortedBy(s[..i], key)
    ensures SortedExcept(s, i, i, key)
  {
    forall p, q | 0 <= p < q <= i && q != i ensures key(s[p]) <= key(s[q]) {
      assert s[p] == s[..i][p] && s[q] == s[..i][q];
    }
  }

  /** Swapping the out-of-order element one step down moves the exception down with it. */
  lemma SwapDown<T>(s: seq<T>, i: nat, j: nat, key: T -> int)
    requires 0 < j <= i < |s| && SortedExcept(s, i, j, key) && key(s[j - 1]) > key(s[j])
    ensures SortedExcept(s[j - 1 := s[j]][j := s[j - 1]], i, j - 1, key)
  {
  }

  lemma FinishInsertion<T>(s: seq<T>, i: nat, j: nat, key: T -> int)
    requires j <= i < |s| && SortedExcept(s, i, j, key)
    requires j == 0 || key(s[j - 1]) <= key(s[j])
    ensures SortedBy(s[..i + 1], key)
  {
    forall p, q | 0 <= p < q <= i ensures key(s[p]) <= key(s[q]) {
      if q == j && p < j - 1 {
        assert key(s[p]) <= key(s[j - 1]);
      }
    }
  }

  /** `items.sort(key=key)` in place, by insertion with neighbour swaps. */
  method SortInPlace<T>(a: array<T>, key: T -> int)
    modifies a
    ensures a[..] == SortByKey(old(a[..]), key)
  {
    var i := 0;
    while i < a.Length
      invariant 0 <= i <= a.Length
      invariant SortedBy(a[..i], key)
      invariant SameKeyRuns(a[..], old(a[..]), key)
    {
      StartInsertion(a[..], i, key);
      var j := i;
      while j > 0 && key(a[j - 1]) > key(a[j])
        invariant 0 <= j <= i
        invariant SortedExcept(a[..], i, j, key)
        invariant SameKeyRuns(a[..], old(a[..]), key)
      {
        SwapNeighbours(a[..], j, key);
        SwapDown(a[..], i, j, key);
        a[j - 1], a[j] := a[j], a[j - 1];
        j := j - 1;
      }
      FinishInsertion(a[..], i, j, key);
      i := i + 1;
    }
    assert a[..a.Length] == a[..];
    ghost var spec := SortByKey(old(a[..]), key);
    forall k ensures WithKey(spec, key, k) == WithKey(old(a[..]), key, k) {
      SortByKeyStable(old(a[..]), key, k);
    }
    StableSortUnique(a[..], spec, key);
  }
}
