/** Stable sorting by an integer key, the model of Python's
    `sorted(xs, key=...)`: the result is ordered by key, and elements with
    equal keys keep the relative order they had in the input. */
module StableSort {
  import opened Seqs

  /** Keys never decrease from left to right. */
  ghost predicate SortedBy<T>(s: seq<T>, key: T -> int)
  {
    forall i, j :: 0 <= i < j < |s| ==> key(s[i]) <= key(s[j])
  }

  /** The elements of `s` whose key is `k`, in the order they have in `s`. */
  function WithKey<T(!new)>(s: seq<T>, key: T -> int, k: int): seq<T>
  {
    Filter(s, x => key(x) == k)
  }

  lemma WithKeyCons<T(!new)>(x: T, s: seq<T>, key: T -> int, k: int)
    ensures WithKey([x] + s, key, k) == (if key(x) == k then [x] else []) + WithKey(s, key, k)
  {
    assert ([x] + s)[0] == x;
    assert ([x] + s)[1..] == s;
  }

  /** `x` placed in front of the first element of `s` whose key is not
      smaller than its own. */
  function Insert<T(!new)>(x: T, s: seq<T>, key: T -> int): (r: seq<T>)
    ensures multiset(r) == multiset(s) + multiset{x}
  {
    if |s| == 0 || key(x) <= key(s[0]) then
      [x] + s
    else
      assert s == [s[0]] + s[1..];
      [s[0]] + Insert(x, s[1..], key)
  }

  /** Inserting into a sorted sequence keeps it sorted. */
  lemma {:induction false} InsertSorted<T(!new)>(x: T, s: seq<T>, key: T -> int)
    requires SortedBy(s, key)
    ensures SortedBy(Insert(x, s, key), key)
  {
    if |s| != 0 && key(x) > key(s[0]) {
      var t := Insert(x, s[1..], key);
      assert Insert(x, s, key) == [s[0]] + t;
      assert SortedBy(s[1..], key);
      InsertSorted(x, s[1..], key);
      HeadBelowInserted(x, s, key);
      SortedCons(s[0], t, key);
    }
  }

  /** The head of a sorted sequence is at most every key of its tail with a
      larger-keyed element inserted. */
  lemma HeadBelowInserted<T(!new)>(x: T, s: seq<T>, key: T -> int)
    requires SortedBy(s, key) && |s| != 0 && key(x) > key(s[0])
    ensures forall y :: y in Insert(x, s[1..], key) ==> key(s[0]) <= key(y)
  {
    var t := Insert(x, s[1..], key);
    forall y | y in t ensures key(s[0]) <= key(y) {
      assert y in multiset(t);
      if y != x {
        assert y in multiset(s[1..]);
        var j :| 0 <= j < |s[1..]| && s[1..][j] == y;
        assert s[j + 1] == y;
      }
    }
  }

  lemma SortedCons<T(!new)>(h: T, t: seq<T>, key: T -> int)
    requires SortedBy(t, key)
    requires forall y :: y in t ==> key(h) <= key(y)
    ensures SortedBy([h] + t, key)
  {
    var r := [h] + t;
    forall i, j | 0 <= i < j < |r| ensures key(r[i]) <= key(r[j]) {
      assert r[j] == t[j - 1];
      if i == 0 {
        assert r[j] in t;
      } else {
        assert r[i] == t[i - 1];
      }
    }
  }

  /** Inserting `x` adds it, among the elements with its key, in front of
      all of them; the other keys' subsequences are untouched. */
  lemma {:induction false} InsertWithKey<T(!new)>(x: T, s: seq<T>, key: T -> int, k: int)
    ensures WithKey(Insert(x, s, key), key, k) == (if key(x) == k then [x] else []) + WithKey(s, key, k)
  {
    if |s| == 0 || key(x) <= key(s[0]) {
      WithKeyCons(x, s, key, k);
    } else {
      assert s == [s[0]] + s[1..];
      InsertWithKey(x, s[1..], key, k);
      WithKeyCons(s[0], Insert(x, s[1..], key), key, k);
      WithKeyCons(s[0], s[1..], key, k);
    }
  }

  /** Insertion sort; inserting the head in front of equal keys of the
      already-sorted tail is what makes it stable. */
  function SortBy<T(!new)>(s: seq<T>, key: T -> int): (r: seq<T>)
    ensures SortedBy(r, key)
    ensures multiset(r) == multiset(s)
    ensures forall k :: WithKey(r, key, k) == WithKey(s, key, k)
  {
    if |s| == 0 then []
    else
      var rest := SortBy(s[1..], key);
      var r := Insert(s[0], rest, key);
      InsertSorted(s[0], rest, key);
      assert s == [s[0]] + s[1..];
      assert forall k :: WithKey(r, key, k) == WithKey(s, key, k) by {
        forall k ensures WithKey(r, key, k) == WithKey(s, key, k) {
          InsertWithKey(s[0], rest, key, k);
          WithKeyCons(s[0], s[1..], key, k);
        }
      }
      r
  }

  /** A sorted sequence that agrees with `b` on every key's subsequence and
      is itself sorted is `b`: there is exactly one stable sort of a
      sequence, so any stable sorting algorithm computes `SortBy`. */
  lemma {:induction false} StableSortIsUnique<T(!new)>(a: seq<T>, b: seq<T>, key: T -> int)
    requires SortedBy(a, key) && SortedBy(b, key)
    requires forall k :: WithKey(a, key, k) == WithKey(b, key, k)
    ensures a == b
    decreases |a|
  {
    if |a| == 0 || |b| == 0 {
      NonemptyWithKey(a, key);
      NonemptyWithKey(b, key);
    } else {
      var k0 := key(a[0]);
      assert key(a[0]) == key(b[0]) by {
        KeyOrderFromWithKey(a, b, key);
        KeyOrderFromWithKey(b, a, key);
      }
      assert a == [a[0]] + a[1..];
      assert b == [b[0]] + b[1..];
      WithKeyCons(a[0], a[1..], key, k0);
      WithKeyCons(b[0], b[1..], key, k0);
      assert WithKey(a, key, k0)[0] == a[0];
      assert a[0] == b[0];
      forall k ensures WithKey(a[1..], key, k) == WithKey(b[1..], key, k) {
        WithKeyCons(a[0], a[1..], key, k);
        WithKeyCons(b[0], b[1..], key, k);
        assert WithKey(a, key, k) == WithKey(b, key, k);
        if k == k0 {
          assert WithKey(a[1..], key, k) == WithKey(a, key, k)[1..];
          assert WithKey(b[1..], key, k) == WithKey(b, key, k)[1..];
        } else {
          assert WithKey(a[1..], key, k) == WithKey(a, key, k);
          assert WithKey(b[1..], key, k) == WithKey(b, key, k);
        }
      }
      StableSortIsUnique(a[1..], b[1..], key);
    }
  }

  lemma NonemptyWithKey<T(!new)>(s: seq<T>, key: T -> int)
    ensures |s| != 0 ==> s[0] in WithKey(s, key, key(s[0]))
  {
  }

  /** When `a` and `b` agree on every key's subsequence and `a` is sorted,
      the first key of `a` is at most the first key of `b`. */
  lemma KeyOrderFromWithKey<T(!new)>(a: seq<T>, b: seq<T>, key: T -> int)
    requires |a| != 0 && |b| != 0 && SortedBy(a, key)
    requires forall k :: WithKey(a, key, k) == WithKey(b, key, k)
    ensures key(a[0]) <= key(b[0])
  {
    NonemptyWithKey(b, key);
    assert b[0] in WithKey(a, key, key(b[0]));
    assert b[0] in a;
  }

  /** Sorting neither adds nor drops an element. */
  lemma SortByKeepsMembers<T(!new)>(s: seq<T>, key: T -> int)
    ensures forall x :: x in SortBy(s, key) <==> x in s
  {
    var r := SortBy(s, key);
    forall x ensures x in r <==> x in s {
      assert x in r <==> x in multiset(r);
      assert x in s <==> x in multiset(s);
    }
  }
}
