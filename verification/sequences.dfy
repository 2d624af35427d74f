/**
 * The `Array.prototype` operations the sources use, on immutable sequences:
 * `filter`, `find`, de-duplication through `new Set`, and `sort` with a
 * comparator. The comparator (`localeCompare` in the sources) is abstract:
 * `leq(a, b)` stands for `compare(a, b) <= 0`.
 */
module Sequences {
  import opened Base

  predicate Distinct<T(==)>(xs: seq<T>) {
    forall i, j :: 0 <= i < j < |xs| ==> xs[i] != xs[j]
  }

  /** The elements satisfying `p`, in input order (`Array.prototype.filter`). */
  function Filter<T>(xs: seq<T>, p: T -> bool): (r: seq<T>)
    ensures |r| <= |xs|
    ensures forall i :: 0 <= i < |r| ==> r[i] in xs && p(r[i])
    ensures forall i :: 0 <= i < |xs| && p(xs[i]) ==> xs[i] in r
  {
    if |xs| == 0 then []
    else if p(xs[0]) then [xs[0]] + Filter(xs[1..], p)
    else Filter(xs[1..], p)
  }

  /** Filtering distributes over concatenation, so a filter keeps the input order. */
  lemma {:induction false} FilterAppend<T>(xs: seq<T>, ys: seq<T>, p: T -> bool)
    ensures Filter(xs + ys, p) == Filter(xs, p) + Filter(ys, p)
    decreases |xs|
  {
    if |xs| == 0 {
      assert xs + ys == ys;
    } else {
      assert (xs + ys)[1..] == xs[1..] + ys;
      FilterAppend(xs[1..], ys, p);
    }
  }

  /** The index of the first element satisfying `p` (`Array.prototype.findIndex`), with `None` for -1. */
  function FindIndex<T>(xs: seq<T>, p: T -> bool): (r: Option<nat>)
    ensures r.Some? ==> r.value < |xs| && p(xs[r.value])
    ensures r.Some? ==> forall j :: 0 <= j < r.value ==> !p(xs[j])
    ensures r.None? ==> forall j :: 0 <= j < |xs| ==> !p(xs[j])
  {
    if |xs| == 0 then None
    else if p(xs[0]) then Some(0)
    else match FindIndex(xs[1..], p)
      case Some(i) => Some(i + 1)
      case None => None
  }

  /** The first element satisfying `p` (`Array.prototype.find`). */
  function Find<T>(xs: seq<T>, p: T -> bool): Option<T> {
    match FindIndex(xs, p)
    case Some(i) => Some(xs[i])
    case None => None
  }

  /**
   * De-duplication by folding every element into a `Set` and spreading it
   * back into an array: each value once, in the order of first occurrence.
   */
  function Dedupe<T(==)>(xs: seq<T>): (r: seq<T>)
    ensures forall i :: 0 <= i < |r| ==> r[i] in xs
    ensures forall i :: 0 <= i < |xs| ==> xs[i] in r
    ensures Distinct(r)
    decreases |xs|
  {
    if |xs| == 0 then []
    else
      var d := Dedupe(xs[..|xs| - 1]);
      if xs[|xs| - 1] in d then d else d + [xs[|xs| - 1]]
  }

  /** The position of the first occurrence of `x` in `xs`. */
  function IndexIn<T(==)>(xs: seq<T>, x: T): (k: nat)
    requires x in xs
    ensures k < |xs| && xs[k] == x
    ensures forall j :: 0 <= j < k ==> xs[j] != x
  {
    if xs[0] == x then 0 else IndexIn(xs[1..], x) + 1
  }

  /** Every element of `r` occurs in `xs`, and `r` lists them in the order they first occur there. */
  predicate InFirstOccurrenceOrder<T(==)>(r: seq<T>, xs: seq<T>) {
    && (forall i :: 0 <= i < |r| ==> r[i] in xs)
    && (forall i, j :: 0 <= i < j < |r| ==> IndexIn(xs, r[i]) < IndexIn(xs, r[j]))
  }

  /** Appending never moves the first occurrence of a value already present. */
  lemma {:induction false} IndexInPrefix<T>(xs: seq<T>, ys: seq<T>, x: T)
    requires x in xs
    ensures IndexIn(xs + ys, x) == IndexIn(xs, x)
    decreases |xs|
  {
    if xs[0] != x {
      assert (xs + ys)[1..] == xs[1..] + ys;
      IndexInPrefix(xs[1..], ys, x);
    }
  }

  /** Appending to the source keeps an order of first occurrences. */
  lemma OrderExtend<T>(d: seq<T>, p: seq<T>, x: T)
    requires InFirstOccurrenceOrder(d, p)
    ensures InFirstOccurrenceOrder(d, p + [x])
  {
    forall y | y in p
      ensures IndexIn(p + [x], y) == IndexIn(p, y)
    {
      IndexInPrefix(p, [x], y);
    }
  }

  /** A value new to the source goes last in the order of first occurrences. */
  lemma OrderAppend<T>(d: seq<T>, p: seq<T>, x: T)
    requires InFirstOccurrenceOrder(d, p) && x !in p
    ensures InFirstOccurrenceOrder(d + [x], p + [x])
  {
    var xs, r := p + [x], d + [x];
    forall y | y in p
      ensures IndexIn(xs, y) == IndexIn(p, y) < |p|
    {
      IndexInPrefix(p, [x], y);
    }
    assert IndexIn(xs, x) == |p|;
    forall i, j | 0 <= i < j < |r|
      ensures IndexIn(xs, r[i]) < IndexIn(xs, r[j])
    {
      assert r[i] == d[i] && d[i] in p;
      if j < |d| {
        assert r[j] == d[j] && d[j] in p;
      }
    }
  }

  /** The de-duplicated list keeps the order in which values first occur. */
  lemma {:induction false} DedupeOrder<T>(xs: seq<T>)
    ensures InFirstOccurrenceOrder(Dedupe(xs), xs)
    decreases |xs|
  {
    if |xs| > 0 {
      var n := |xs| - 1;
      var p, x := xs[..n], xs[n];
      var d := Dedupe(p);
      assert xs == p + [x];
      DedupeOrder(p);
      if x in d {
        OrderExtend(d, p, x);
      } else {
        OrderAppend(d, p, x);
      }
    }
  }

  ghost predicate TotalPreorder<T(!new)>(leq: (T, T) -> bool) {
    && (forall a, b :: leq(a, b) || leq(b, a))
    && (forall a, b, c :: leq(a, b) && leq(b, c) ==> leq(a, c))
  }

  ghost predicate SortedBy<T>(xs: seq<T>, leq: (T, T) -> bool) {
    forall i, j :: 0 <= i < j < |xs| ==> leq(xs[i], xs[j])
  }

  /** Inserts `x` before the first element it is `leq` to. */
  function Insert<T>(x: T, xs: seq<T>, leq: (T, T) -> bool): seq<T> {
    if |xs| == 0 then [x]
    else if leq(x, xs[0]) then [x] + xs
    else [xs[0]] + Insert(x, xs[1..], leq)
  }

  /**
   * Sorting with a comparator, as a stable insertion sort. Earlier elements are inserted
   * in front of later ones they compare equal to, so ties keep input order.
   */
  function Sort<T>(xs: seq<T>, leq: (T, T) -> bool): seq<T> {
    if |xs| == 0 then [] else Insert(xs[0], Sort(xs[1..], leq), leq)
  }

  lemma {:induction false} InsertPermutes<T>(x: T, xs: seq<T>, leq: (T, T) -> bool)
    ensures multiset(Insert(x, xs, leq)) == multiset(xs) + multiset{x}
    decreases |xs|
  {
    if |xs| > 0 && !leq(x, xs[0]) {
      InsertPermutes(x, xs[1..], leq);
      assert xs == [xs[0]] + xs[1..];
    }
  }

  /** Sorting only reorders: the result is a permutation of the input. */
  lemma {:induction false} SortPermutes<T>(xs: seq<T>, leq: (T, T) -> bool)
    ensures multiset(Sort(xs, leq)) == multiset(xs)
    decreases |xs|
  {
    if |xs| > 0 {
      SortPermutes(xs[1..], leq);
      InsertPermutes(xs[0], Sort(xs[1..], leq), leq);
      assert xs == [xs[0]] + xs[1..];
      assert multiset(xs) == multiset{xs[0]} + multiset(xs[1..]);
    }
  }

  lemma {:induction false} InsertSorted<T(!new)>(x: T, xs: seq<T>, leq: (T, T) -> bool)
    requires TotalPreorder(leq)
    requires SortedBy(xs, leq)
    ensures SortedBy(Insert(x, xs, leq), leq)
    decreases |xs|
  {
    if |xs| > 0 && !leq(x, xs[0]) {
      var rest := Insert(x, xs[1..], leq);
      InsertSorted(x, xs[1..], leq);
      InsertPermutes(x, xs[1..], leq);
      forall k | 0 <= k < |rest|
        ensures leq(xs[0], rest[k])
      {
        assert rest[k] in multiset(rest);
        assert rest[k] == x || rest[k] in multiset(xs[1..]);
        if rest[k] != x {
          assert rest[k] in xs[1..];
        }
      }
    }
  }

  lemma {:induction false} InsertFilter<T>(x: T, xs: seq<T>, leq: (T, T) -> bool, tied: T -> bool)
    requires forall a, b :: tied(a) && tied(b) ==> leq(a, b)
    ensures Filter(Insert(x, xs, leq), tied) == (if tied(x) then [x] else []) + Filter(xs, tied)
    decreases |xs|
  {
    if |xs| == 0 {
    } else if leq(x, xs[0]) {
      assert ([x] + xs)[1..] == xs;
    } else {
      var rest := Insert(x, xs[1..], leq);
      assert ([xs[0]] + rest)[1..] == rest;
      InsertFilter(x, xs[1..], leq, tied);
      assert !(tied(x) && tied(xs[0]));
    }
  }

  /**
   * Stability: among elements the comparator cannot tell apart (any two
   * `tied` elements compare equal), the sorted list keeps the input order.
   */
  lemma {:induction false} SortStable<T>(xs: seq<T>, leq: (T, T) -> bool, tied: T -> bool)
    requires forall a, b :: tied(a) && tied(b) ==> leq(a, b)
    ensures Filter(Sort(xs, leq), tied) == Filter(xs, tied)
    decreases |xs|
  {
    if |xs| > 0 {
      SortStable(xs[1..], leq, tied);
      InsertFilter(xs[0], Sort(xs[1..], leq), leq, tied);
    }
  }

  /** Under a consistent comparator the result is ordered by it. */
  lemma {:induction false} SortSorted<T(!new)>(xs: seq<T>, leq: (T, T) -> bool)
    requires TotalPreorder(leq)
    ensures SortedBy(Sort(xs, leq), leq)
    decreases |xs|
  {
    if |xs| > 0 {
      SortSorted(xs[1..], leq);
      InsertSorted(xs[0], Sort(xs[1..], leq), leq);
    }
  }
}
