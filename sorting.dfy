/** The library sort the repository relies on. `Array.prototype.sort` with a
    comparator `(a, b) => key(a) - key(b)` is stable: it orders by ascending key
    and keeps the input order among elements with equal keys. `SortBy` is that
    sort, written as an insertion sort over sequences. */
module Sorting {

  /** Inserts `x` in front of the first element whose key is not smaller than
      the key of `x`. */
  function Insert<T>(x: T, s: seq<T>, key: T -> real): (r: seq<T>)
    ensures |r| == |s| + 1
  {
    if s == [] || key(x) <= key(s[0]) then [x] + s
    else
      assert s == [s[0]] + s[1..];
      [s[0]] + Insert(x, s[1..], key)
  }

  /** Stable ascending sort by `key`. */
  function SortBy<T>(s: seq<T>, key: T -> real): (r: seq<T>)
    ensures |r| == |s|
  {
    if s == [] then []
    else
      assert s == [s[0]] + s[1..];
      Insert(s[0], SortBy(s[1..], key), key)
  }

  lemma {:induction false} InsertPermutes<T>(x: T, s: seq<T>, key: T -> real)
    ensures multiset(Insert(x, s, key)) == multiset(s) + multiset{x}
  {
    if s != [] && key(s[0]) < key(x) {
      InsertPermutes(x, s[1..], key);
      assert s == [s[0]] + s[1..];
    }
  }

  /** `SortBy` only reorders: the sorted sequence holds the same elements,
      each as many times as the input. */
  lemma {:induction false} SortByPermutes<T>(s: seq<T>, key: T -> real)
    ensures multiset(SortBy(s, key)) == multiset(s)
  {
    if s != [] {
      SortByPermutes(s[1..], key);
      InsertPermutes(s[0], SortBy(s[1..], key), key);
      assert s == [s[0]] + s[1..];
    }
  }

  ghost predicate SortedBy<T>(s: seq<T>, key: T -> real) {
    forall i, j :: 0 <= i < j < |s| ==> key(s[i]) <= key(s[j])
  }

  /** The elements of `s` whose key is `k`, in the order they have in `s`. */
  function WithKey<T>(s: seq<T>, key: T -> real, k: real): seq<T> {
    if s == [] then []
    else (if key(s[0]) == k then [s[0]] else []) + WithKey(s[1..], key, k)
  }

  /** Every element of `s` has a key of at least `b`. */
  ghost predicate AllAtLeast<T>(s: seq<T>, key: T -> real, b: real) {
    forall i :: 0 <= i < |s| ==> b <= key(s[i])
  }

  lemma {:induction false} InsertAtLeast<T>(x: T, s: seq<T>, key: T -> real, b: real)
    requires AllAtLeast(s, key, b) && b <= key(x)
    ensures AllAtLeast(Insert(x, s, key), key, b)
  {
    if s != [] && key(s[0]) < key(x) {
      InsertAtLeast(x, s[1..], key, b);
    }
  }

  lemma ConsSorted<T>(h: T, t: seq<T>, key: T -> real)
    requires SortedBy(t, key) && AllAtLeast(t, key, key(h))
    ensures SortedBy([h] + t, key)
  {
    var r := [h] + t;
    forall i, j | 0 <= i < j < |r|
      ensures key(r[i]) <= key(r[j])
    {
      assert r[j] == t[j - 1];
      if i > 0 {
        assert r[i] == t[i - 1];
      }
    }
  }

  lemma {:induction false} InsertSorted<T>(x: T, s: seq<T>, key: T -> real)
    requires SortedBy(s, key)
    ensures SortedBy(Insert(x, s, key), key)
  {
    if s == [] || key(x) <= key(s[0]) {
      var r := [x] + s;
      assert AllAtLeast(s, key, key(x)) by {
        forall i | 0 <= i < |s| ensures key(x) <= key(s[i]) {
          if i > 0 {
            assert key(s[0]) <= key(s[i]);
          }
        }
      }
      ConsSorted(x, s, key);
    } else {
      var t := Insert(x, s[1..], key);
      InsertSorted(x, s[1..], key);
      assert AllAtLeast(s[1..], key, key(s[0])) by {
        forall i | 0 <= i < |s[1..]| ensures key(s[0]) <= key(s[1..][i]) {
          assert s[1..][i] == s[i + 1];
        }
      }
      InsertAtLeast(x, s[1..], key, key(s[0]));
      ConsSorted(s[0], t, key);
    }
  }

  /** `SortBy` orders by ascending key. */
  lemma {:induction false} SortBySorted<T>(s: seq<T>, key: T -> real)
    ensures SortedBy(SortBy(s, key), key)
  {
    if s != [] {
      SortBySorted(s[1..], key);
      InsertSorted(s[0], SortBy(s[1..], key), key);
    }
  }

  lemma {:induction false} InsertWithKey<T>(x: T, s: seq<T>, key: T -> real, k: real)
    ensures WithKey(Insert(x, s, key), key, k)
         == (if key(x) == k then [x] else []) + WithKey(s, key, k)
  {
    if s == [] || key(x) <= key(s[0]) {
      WithKeyCons(x, s, key, k);
    } else {
      InsertWithKey(x, s[1..], key, k);
      WithKeyCons(s[0], Insert(x, s[1..], key), key, k);
    }
  }

  lemma WithKeyCons<T>(h: T, t: seq<T>, key: T -> real, k: real)
    ensures WithKey([h] + t, key, k) == (if key(h) == k then [h] else []) + WithKey(t, key, k)
  {
    assert ([h] + t)[0] == h && ([h] + t)[1..] == t;
  }

  /** `SortBy` is stable: for every key, the elements carrying it appear in
      the sorted sequence in the same order as in the input. */
  lemma {:induction false} SortByStable<T>(s: seq<T>, key: T -> real, k: real)
    ensures WithKey(SortBy(s, key), key, k) == WithKey(s, key, k)
  {
    if s != [] {
      SortByStable(s[1..], key, k);
      InsertWithKey(s[0], SortBy(s[1..], key), key, k);
    }
  }

  /** The first element of the sorted sequence: the input's first element if
      its key is not above the key at the head of the sorted rest. */
  lemma SortByHead<T>(s: seq<T>, key: T -> real)
    requires |s| > 1
    ensures SortBy(s, key)[0]
         == (if key(s[0]) <= key(SortBy(s[1..], key)[0]) then s[0] else SortBy(s[1..], key)[0])
  {
  }

  lemma SortByCons<T>(x: T, s: seq<T>, key: T -> real)
    ensures SortBy([x] + s, key) == Insert(x, SortBy(s, key), key)
  {
    assert ([x] + s)[1..] == s;
  }

  lemma InsertAfter<T>(x: T, h: T, s: seq<T>, key: T -> real)
    requires key(h) < key(x)
    ensures Insert(x, [h] + s, key) == [h] + Insert(x, s, key)
  {
    assert ([h] + s)[1..] == s;
  }

  function Identity(x: real): real { x }

  /** A sorted sequence of numbers is determined by its multiset of elements. */
  lemma {:induction false} SortedUnique(a: seq<real>, b: seq<real>)
    requires SortedBy(a, Identity) && SortedBy(b, Identity)
    requires multiset(a) == multiset(b)
    ensures a == b
  {
    assert |a| == |multiset(a)| == |multiset(b)| == |b|;
    if |a| > 0 {
      var i := IndexOf(a, b[0]);
      var j := IndexOf(b, a[0]);
      SortedHeadMin(a, Identity, i);
      SortedHeadMin(b, Identity, j);
      assert a[0] == b[0];
      MultisetTail(a);
      MultisetTail(b);
      SortedTail(a, Identity);
      SortedTail(b, Identity);
      SortedUnique(a[1..], b[1..]);
    }
  }

  lemma MultisetTail<T>(s: seq<T>)
    requires |s| > 0
    ensures multiset(s[1..]) == multiset(s) - multiset{s[0]}
  {
    assert s == [s[0]] + s[1..];
  }

  lemma SortedHeadMin<T>(s: seq<T>, key: T -> real, i: nat)
    requires SortedBy(s, key) && i < |s|
    ensures key(s[0]) <= key(s[i])
  {
  }

  lemma SortedTail<T>(s: seq<T>, key: T -> real)
    requires SortedBy(s, key) && |s| > 0
    ensures SortedBy(s[1..], key)
  {
    forall i, j | 0 <= i < j < |s[1..]|
      ensures key(s[1..][i]) <= key(s[1..][j])
    {
      assert s[1..][i] == s[i + 1] && s[1..][j] == s[j + 1];
    }
  }

  /** A position of `x` in `s`, for an `x` that `s` contains. */
  lemma IndexOf<T>(s: seq<T>, x: T) returns (i: nat)
    requires x in multiset(s)
    ensures i < |s| && s[i] == x
  {
    assert x in s;
    i :| 0 <= i < |s| && s[i] == x;
  }
}
