/**
 * Order-preserving grouping, as both sources write it with a fold: the
 * navigation plugin's `groupBy` into a `Map`, and the queue script's
 * grouping of pending translations into an object keyed by locale. In both,
 * updating an existing key keeps its position and a new key goes last, so
 * a grouping is an association list with distinct keys.
 */
module Grouping {
  import opened Sequences

  type Groups<K, V> = seq<(K, seq<V>)>

  function Keys<K, V>(g: Groups<K, V>): (r: seq<K>)
    ensures |r| == |g|
    ensures forall i :: 0 <= i < |g| ==> r[i] == g[i].0
  {
    if |g| == 0 then [] else [g[0].0] + Keys(g[1..])
  }

  /** The key of every item, in input order. */
  function KeysOf<T, K>(xs: seq<T>, key: T -> K): (r: seq<K>)
    ensures |r| == |xs|
    ensures forall i :: 0 <= i < |xs| ==> r[i] == key(xs[i])
  {
    seq(|xs|, i requires 0 <= i < |xs| => key(xs[i]))
  }

  /** Total number of grouped values. */
  function Size<K, V>(g: Groups<K, V>): nat {
    if |g| == 0 then 0 else |g[0].1| + Size(g[1..])
  }

  /** Appends `v` to the group of `k`, opening a new group at the end when `k` has none yet. */
  function Add<K(==), V>(g: Groups<K, V>, k: K, v: V): Groups<K, V> {
    if |g| == 0 then [(k, [v])]
    else if g[0].0 == k then [(k, g[0].1 + [v])] + g[1..]
    else [g[0]] + Add(g[1..], k, v)
  }

  /** Folds the items, left to right, into an insertion-ordered map from each key to its values. */
  function GroupBy<T, K(==), V>(xs: seq<T>, key: T -> K, val: T -> V): Groups<K, V>
    decreases |xs|
  {
    if |xs| == 0 then []
    else
      var x := xs[|xs| - 1];
      Add(GroupBy(xs[..|xs| - 1], key, val), key(x), val(x))
  }

  /** Reference definition: the values of the items whose key is `k`, in input order. */
  function Select<T, K(==), V>(xs: seq<T>, key: T -> K, val: T -> V, k: K): seq<V>
    decreases |xs|
  {
    if |xs| == 0 then []
    else
      var x := xs[|xs| - 1];
      Select(xs[..|xs| - 1], key, val, k) + (if key(x) == k then [val(x)] else [])
  }

  lemma {:induction false} SelectAbsent<T, K, V>(xs: seq<T>, key: T -> K, val: T -> V, k: K)
    requires forall i :: 0 <= i < |xs| ==> key(xs[i]) != k
    ensures Select(xs, key, val, k) == []
    decreases |xs|
  {
    if |xs| > 0 {
      SelectAbsent(xs[..|xs| - 1], key, val, k);
    }
  }

  /** A new key goes last; an existing key keeps its place. */
  lemma {:induction false} AddKeys<K, V>(g: Groups<K, V>, k: K, v: V)
    ensures Keys(Add(g, k, v)) == if k in Keys(g) then Keys(g) else Keys(g) + [k]
    decreases |g|
  {
    if |g| > 0 && g[0].0 != k {
      AddKeys(g[1..], k, v);
      assert k in Keys(g) <==> k in Keys(g[1..]);
    }
  }

  lemma {:induction false} AddSize<K, V>(g: Groups<K, V>, k: K, v: V)
    ensures Size(Add(g, k, v)) == Size(g) + 1
    decreases |g|
  {
    if |g| > 0 {
      if g[0].0 == k {
        assert Add(g, k, v)[1..] == g[1..];
      } else {
        AddSize(g[1..], k, v);
        assert Add(g, k, v)[1..] == Add(g[1..], k, v);
      }
    }
  }

  lemma {:induction false} AddEntries<K, V>(g: Groups<K, V>, k: K, v: V)
    requires Distinct(Keys(g))
    ensures |Add(g, k, v)| == if k in Keys(g) then |g| else |g| + 1
    ensures k !in Keys(g) ==> Add(g, k, v)[|g|] == (k, [v])
    ensures forall i :: 0 <= i < |g| ==>
      Add(g, k, v)[i] == (if g[i].0 == k then (k, g[i].1 + [v]) else g[i])
    decreases |g|
  {
    if |g| > 0 {
      assert Keys(g) == [g[0].0] + Keys(g[1..]);
      if g[0].0 != k {
        assert Distinct(Keys(g[1..])) by {
          forall i, j | 0 <= i < j < |g[1..]|
            ensures Keys(g[1..])[i] != Keys(g[1..])[j]
          {
            assert Keys(g)[i + 1] != Keys(g)[j + 1];
          }
        }
        AddEntries(g[1..], k, v);
      } else {
        forall i | 1 <= i < |g|
          ensures g[i].0 != k
        {
          assert Keys(g)[0] != Keys(g)[i];
        }
      }
    }
  }

  lemma {:induction false} GroupByKeys<T, K, V>(xs: seq<T>, key: T -> K, val: T -> V)
    ensures Keys(GroupBy(xs, key, val)) == Dedupe(KeysOf(xs, key))
    decreases |xs|
  {
    if |xs| > 0 {
      var init := xs[..|xs| - 1];
      var x := xs[|xs| - 1];
      GroupByKeys(init, key, val);
      AddKeys(GroupBy(init, key, val), key(x), val(x));
      assert KeysOf(xs, key)[..|xs| - 1] == KeysOf(init, key);
    }
  }

  lemma {:induction false} GroupBySize<T, K, V>(xs: seq<T>, key: T -> K, val: T -> V)
    ensures Size(GroupBy(xs, key, val)) == |xs|
    decreases |xs|
  {
    if |xs| > 0 {
      var init := xs[..|xs| - 1];
      var x := xs[|xs| - 1];
      GroupBySize(init, key, val);
      AddSize(GroupBy(init, key, val), key(x), val(x));
    }
  }

  /** Every group of `g` holds exactly the reference values of its key. */
  ghost predicate GroupsMatch<T, K, V>(xs: seq<T>, key: T -> K, val: T -> V, g: Groups<K, V>) {
    forall i :: 0 <= i < |g| ==> g[i].1 == Select(xs, key, val, g[i].0)
  }

  /** One more item: the grouping after `Add` still matches the reference groups. */
  lemma AddKeepsSelect<T, K, V>(init: seq<T>, x: T, key: T -> K, val: T -> V)
    requires Distinct(Keys(GroupBy(init, key, val)))
    requires GroupsMatch(init, key, val, GroupBy(init, key, val))
    requires key(x) !in Keys(GroupBy(init, key, val)) ==> Select(init, key, val, key(x)) == []
    ensures GroupsMatch(init + [x], key, val, GroupBy(init + [x], key, val))
  {
    var xs := init + [x];
    assert xs[..|xs| - 1] == init;
    var g0 := GroupBy(init, key, val);
    var g := GroupBy(xs, key, val);
    assert g == Add(g0, key(x), val(x));
    AddEntries(g0, key(x), val(x));
    forall i | 0 <= i < |g|
      ensures g[i].1 == Select(xs, key, val, g[i].0)
    {
      var k := g[i].0;
      assert Select(xs, key, val, k) == Select(init, key, val, k) + (if key(x) == k then [val(x)] else []);
      if i < |g0| {
        assert g0[i].1 == Select(init, key, val, g0[i].0);
      } else {
        assert key(x) !in Keys(g0) && i == |g0|;
        assert g[i] == (key(x), [val(x)]);
      }
    }
  }

  /** The grouping's keys are distinct, and a key it does not hold selects nothing. */
  lemma AbsentKeySelectsNothing<T, K, V>(xs: seq<T>, key: T -> K, val: T -> V, k: K)
    ensures Distinct(Keys(GroupBy(xs, key, val)))
    ensures k !in Keys(GroupBy(xs, key, val)) ==> Select(xs, key, val, k) == []
  {
    GroupByKeys(xs, key, val);
    if k !in Keys(GroupBy(xs, key, val)) {
      forall i | 0 <= i < |xs|
        ensures key(xs[i]) != k
      {
        assert KeysOf(xs, key)[i] in Dedupe(KeysOf(xs, key));
      }
      SelectAbsent(xs, key, val, k);
    }
  }

  lemma {:induction false} GroupByValues<T, K, V>(xs: seq<T>, key: T -> K, val: T -> V)
    ensures GroupsMatch(xs, key, val, GroupBy(xs, key, val))
    decreases |xs|
  {
    if |xs| > 0 {
      var init := xs[..|xs| - 1];
      var x := xs[|xs| - 1];
      GroupByValues(init, key, val);
      AbsentKeySelectsNothing(init, key, val, key(x));
      AddKeepsSelect(init, x, key, val);
      assert init + [x] == xs;
    }
  }

  /**
   * The grouping is a partition of the input: the keys are distinct and
   * cover every item's key, each group holds exactly the values of its key's
   * items in input order, and the group sizes add up to the input length, so
   * every item lands in exactly one group. (The order of the keys is
   * `GroupByKeys`.)
   */
  lemma {:induction false} GroupByPartition<T, K, V>(xs: seq<T>, key: T -> K, val: T -> V)
    ensures Distinct(Keys(GroupBy(xs, key, val)))
    ensures forall j :: 0 <= j < |xs| ==> key(xs[j]) in Keys(GroupBy(xs, key, val))
    ensures forall i :: 0 <= i < |GroupBy(xs, key, val)| ==>
      GroupBy(xs, key, val)[i].1 == Select(xs, key, val, GroupBy(xs, key, val)[i].0)
    ensures Size(GroupBy(xs, key, val)) == |xs|
  {
    GroupByKeys(xs, key, val);
    GroupBySize(xs, key, val);
    GroupByValues(xs, key, val);
    forall j | 0 <= j < |xs|
      ensures key(xs[j]) in Keys(GroupBy(xs, key, val))
    {
      assert KeysOf(xs, key)[j] in Dedupe(KeysOf(xs, key));
    }
  }
}
