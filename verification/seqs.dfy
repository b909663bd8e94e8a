/** Order-keeping filtering of sequences, the model of Python's
    `list(filter(p, s))`. */
module Seqs {

  /** The elements of `s` that satisfy `p`, in the order they have in `s`. */
  function Filter<T(!new)>(s: seq<T>, p: T -> bool): (r: seq<T>)
    ensures |r| <= |s|
    ensures forall x :: x in r <==> x in s && p(x)
  {
    if |s| == 0 then []
    else (if p(s[0]) then [s[0]] else []) + Filter(s[1..], p)
  }

  /** The positions in `s` whose elements satisfy `p`, from left to right. */
  function FilterPositions<T>(s: seq<T>, p: T -> bool): seq<nat>
  {
    if |s| == 0 then []
    else
      var moved := Successors(FilterPositions(s[1..], p));
      if p(s[0]) then [0] + moved else moved
  }

  /** `idx` is a strictly increasing list of positions in `s` that holds `r`,
      element by element, and misses no position of `s` that satisfies `p`. */
  ghost predicate PicksInOrder<T>(s: seq<T>, r: seq<T>, idx: seq<nat>, p: T -> bool)
  {
    && |idx| == |r|
    && (forall i :: 0 <= i < |idx| ==> idx[i] < |s| && s[idx[i]] == r[i])
    && (forall i, j :: 0 <= i < j < |idx| ==> idx[i] < idx[j])
    && (forall j :: 0 <= j < |s| && p(s[j]) ==> j in idx)
  }

  /** `Filter` keeps exactly the elements that satisfy `p`, in their original
      relative order: its result is read off `s` at increasing positions that
      cover every satisfying element. */
  lemma {:induction false} FilterKeepsOrder<T(!new)>(s: seq<T>, p: T -> bool)
    ensures PicksInOrder(s, Filter(s, p), FilterPositions(s, p), p)
  {
    if |s| != 0 {
      var tail := FilterPositions(s[1..], p);
      var rest := Filter(s[1..], p);
      FilterKeepsOrder(s[1..], p);
      PicksAfterHead(s, rest, tail, p);
      if p(s[0]) {
        assert Filter(s, p) == [s[0]] + rest;
        PicksWithHead(s, rest, Successors(tail), p);
      } else {
        assert Filter(s, p) == rest;
      }
    }
  }

  /** Positions picked in the tail of `s`, moved one to the right, pick the
      same elements in `s` itself. */
  lemma PicksAfterHead<T(!new)>(s: seq<T>, rest: seq<T>, tail: seq<nat>, p: T -> bool)
    requires |s| != 0 && PicksInOrder(s[1..], rest, tail, p)
    ensures var moved := Successors(tail);
      && |moved| == |rest|
      && (forall i :: 0 <= i < |moved| ==> 1 <= moved[i] < |s| && s[moved[i]] == rest[i])
      && (forall i, j :: 0 <= i < j < |moved| ==> moved[i] < moved[j])
      && (forall j :: 1 <= j < |s| && p(s[j]) ==> j in moved)
      && (!p(s[0]) ==> PicksInOrder(s, rest, moved, p))
  {
    var moved := Successors(tail);
    forall i | 0 <= i < |moved| ensures 1 <= moved[i] < |s| && s[moved[i]] == rest[i] {
      assert s[1..][tail[i]] == s[tail[i] + 1];
    }
    forall j | 1 <= j < |s| && p(s[j]) ensures j in moved {
      assert s[1..][j - 1] == s[j];
      assert j - 1 in tail;
    }
  }

  /** Adding position 0 in front picks the head as well. */
  lemma PicksWithHead<T(!new)>(s: seq<T>, rest: seq<T>, moved: seq<nat>, p: T -> bool)
    requires |s| != 0 && |moved| == |rest|
    requires forall i :: 0 <= i < |moved| ==> 1 <= moved[i] < |s| && s[moved[i]] == rest[i]
    requires forall i, j :: 0 <= i < j < |moved| ==> moved[i] < moved[j]
    requires forall j :: 1 <= j < |s| && p(s[j]) ==> j in moved
    ensures PicksInOrder(s, [s[0]] + rest, [0] + moved, p)
  {
    var idx := [0] + moved;
    forall j | 0 <= j < |s| && p(s[j]) ensures j in idx {
      if j > 0 {
        assert j in moved;
      }
    }
    forall i, j | 0 <= i < j < |idx| ensures idx[i] < idx[j] {
      assert idx[j] == moved[j - 1];
      if i > 0 {
        assert idx[i] == moved[i - 1];
      }
    }
    forall i | 0 <= i < |idx| ensures idx[i] < |s| && s[idx[i]] == ([s[0]] + rest)[i] {
      if i > 0 {
        assert idx[i] == moved[i - 1];
      }
    }
  }

  /** Every position moved one place to the right. */
  function Successors(idx: seq<nat>): (r: seq<nat>)
    ensures |r| == |idx|
    ensures forall i :: 0 <= i < |r| ==> r[i] == idx[i] + 1
    ensures forall j :: j in idx ==> j + 1 in r
  {
    seq(|idx|, i requires 0 <= i < |idx| => idx[i] + 1)
  }

  lemma {:induction false} FilterAppend<T(!new)>(a: seq<T>, b: seq<T>, p: T -> bool)
    ensures Filter(a + b, p) == Filter(a, p) + Filter(b, p)
  {
    if |a| == 0 {
      assert a + b == b;
    } else {
      assert (a + b)[0] == a[0];
      assert (a + b)[1..] == a[1..] + b;
      FilterAppend(a[1..], b, p);
    }
  }

  /** Filtering a sequence all of whose elements pass changes nothing. */
  lemma {:induction false} FilterKeepsAll<T(!new)>(s: seq<T>, p: T -> bool)
    requires forall x :: x in s ==> p(x)
    ensures Filter(s, p) == s
  {
    if |s| != 0 {
      assert s[0] in s;
      assert forall x :: x in s[1..] ==> x in s;
      FilterKeepsAll(s[1..], p);
    }
  }

  /** Filtering a sequence none of whose elements pass leaves nothing. */
  lemma FilterKeepsNone<T(!new)>(s: seq<T>, p: T -> bool)
    requires forall x :: x in s ==> !p(x)
    ensures Filter(s, p) == []
  {
  }

  /** Filtering twice by the same predicate is filtering once. */
  lemma FilterIdempotent<T(!new)>(s: seq<T>, p: T -> bool)
    ensures Filter(Filter(s, p), p) == Filter(s, p)
  {
    FilterKeepsAll(Filter(s, p), p);
  }
}
