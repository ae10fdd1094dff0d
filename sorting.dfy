/**
 * The two sorts the pipeline relies on: the global row order by
 * (date, season, round), and ascending order of a column's values, which
 * the median is read from. Both are insertion sorts, stated by what they
 * produce: an ordered permutation of their input.
 */
module Sorting {

  /** The global order key of a result row. */
  datatype SortKey = SortKey(date: int, season: int, round: int)

  /** Lexicographic order on (date, season, round). */
  predicate KeyLe(a: SortKey, b: SortKey) {
    || a.date < b.date
    || (a.date == b.date && a.season < b.season)
    || (a.date == b.date && a.season == b.season && a.round <= b.round)
  }

  predicate SortedBy<T>(xs: seq<T>, key: T -> SortKey) {
    forall i, j :: 0 <= i < j < |xs| ==> KeyLe(key(xs[i]), key(xs[j]))
  }

  /** Puts x after the trailing elements whose key is greater than its own. */
  function InsertByKey<T>(x: T, xs: seq<T>, key: T -> SortKey): (r: seq<T>)
    ensures multiset(r) == multiset(xs) + multiset{x}
    ensures |r| == |xs| + 1
  {
    if xs == [] then [x]
    else if KeyLe(key(xs[|xs| - 1]), key(x)) then xs + [x]
    else
      var front := xs[..|xs| - 1];
      assert xs == front + [xs[|xs| - 1]];
      InsertByKey(x, front, key) + [xs[|xs| - 1]]
  }

  /** Inserting into a sorted sequence keeps it sorted. */
  lemma {:induction false} InsertByKeySorted<T>(x: T, xs: seq<T>, key: T -> SortKey)
    requires SortedBy(xs, key)
    ensures SortedBy(InsertByKey(x, xs, key), key)
  {
    if xs != [] {
      var last := xs[|xs| - 1];
      var front := xs[..|xs| - 1];
      assert xs == front + [last];
      if KeyLe(key(last), key(x)) {
        SortedSnoc(xs, x, key);
      } else {
        InsertByKeySorted(x, front, key);
        InsertByKeyBelow(x, front, key, key(last));
        SortedSnoc(InsertByKey(x, front, key), last, key);
      }
    }
  }

  /** An upper bound of x and of every key bounds the result of inserting x. */
  lemma {:induction false} InsertByKeyBelow<T>(x: T, xs: seq<T>, key: T -> SortKey, hi: SortKey)
    requires KeyLe(key(x), hi) && forall k :: 0 <= k < |xs| ==> KeyLe(key(xs[k]), hi)
    ensures forall k :: 0 <= k < |InsertByKey(x, xs, key)| ==> KeyLe(key(InsertByKey(x, xs, key)[k]), hi)
  {
    if xs != [] && !KeyLe(key(xs[|xs| - 1]), key(x)) {
      InsertByKeyBelow(x, xs[..|xs| - 1], key, hi);
    }
  }

  /** Appending an element whose key bounds the last one keeps a sorted sequence sorted. */
  lemma SortedSnoc<T>(xs: seq<T>, x: T, key: T -> SortKey)
    requires SortedBy(xs, key)
    requires forall k :: 0 <= k < |xs| ==> KeyLe(key(xs[k]), key(x))
    ensures SortedBy(xs + [x], key)
  {
    var r := xs + [x];
    forall i, j | 0 <= i < j < |r| ensures KeyLe(key(r[i]), key(r[j])) {
      assert r[i] == xs[i];
      if j < |xs| {
        assert r[j] == xs[j];
      }
    }
  }

  /**
   * sort_values(["date", "season", "round"]): rows in ascending key order,
   * a permutation of the input.
   */
  function SortByKey<T>(xs: seq<T>, key: T -> SortKey): (r: seq<T>)
    ensures SortedBy(r, key)
    ensures multiset(r) == multiset(xs)
    ensures |r| == |xs|
  {
    if xs == [] then []
    else
      var front := xs[..|xs| - 1];
      assert xs == front + [xs[|xs| - 1]];
      var sorted := SortByKey(front, key);
      InsertByKeySorted(xs[|xs| - 1], sorted, key);
      InsertByKey(xs[|xs| - 1], sorted, key)
  }

  /** The entries of xs whose key is k, in their order in xs. */
  function WithKey<T>(xs: seq<T>, key: T -> SortKey, k: SortKey): (ys: seq<T>)
    ensures forall t :: 0 <= t < |ys| ==> key(ys[t]) == k
  {
    if xs == [] then []
    else WithKey(xs[..|xs| - 1], key, k) + (if key(xs[|xs| - 1]) == k then [xs[|xs| - 1]] else [])
  }

  lemma WithKeySnoc<T>(xs: seq<T>, x: T, key: T -> SortKey, k: SortKey)
    ensures WithKey(xs + [x], key, k) == WithKey(xs, key, k) + (if key(x) == k then [x] else [])
  {
    assert (xs + [x])[..|xs|] == xs;
  }

  /** x goes after every entry with its own key, so each key's entries keep their order. */
  lemma {:induction false} InsertByKeyStable<T>(x: T, xs: seq<T>, key: T -> SortKey, k: SortKey)
    ensures WithKey(InsertByKey(x, xs, key), key, k) == WithKey(xs, key, k) + (if key(x) == k then [x] else [])
  {
    if xs == [] {
      WithKeySnoc([], x, key, k);
      assert [] + [x] == [x];
    } else if KeyLe(key(xs[|xs| - 1]), key(x)) {
      WithKeySnoc(xs, x, key, k);
    } else {
      var front, last := xs[..|xs| - 1], xs[|xs| - 1];
      assert xs == front + [last];
      assert key(last) != key(x);
      InsertByKeyStable(x, front, key, k);
      WithKeySnoc(InsertByKey(x, front, key), last, key, k);
      WithKeySnoc(front, last, key, k);
    }
  }

  /**
   * The sort is stable: the rows sharing any one key value, full ties on
   * (date, season, round) included, come out in their input order.
   */
  lemma {:induction false} SortByKeyStable<T>(xs: seq<T>, key: T -> SortKey, k: SortKey)
    ensures WithKey(SortByKey(xs, key), key, k) == WithKey(xs, key, k)
  {
    if xs != [] {
      var front, last := xs[..|xs| - 1], xs[|xs| - 1];
      assert xs == front + [last];
      SortByKeyStable(front, key, k);
      InsertByKeyStable(last, SortByKey(front, key), key, k);
      WithKeySnoc(front, last, key, k);
    }
  }

  predicate Ascending(vs: seq<real>) {
    forall i, j :: 0 <= i < j < |vs| ==> vs[i] <= vs[j]
  }

  /** Puts x before the first element not below it. */
  function InsertReal(x: real, vs: seq<real>): (r: seq<real>)
    ensures multiset(r) == multiset(vs) + multiset{x}
    ensures |r| == |vs| + 1
  {
    if vs == [] then [x]
    else if x <= vs[0] then [x] + vs
    else
      assert vs == [vs[0]] + vs[1..];
      [vs[0]] + InsertReal(x, vs[1..])
  }

  /** Inserting into an ascending sequence keeps it ascending. */
  lemma {:induction false} InsertRealAscending(x: real, vs: seq<real>)
    requires Ascending(vs)
    ensures Ascending(InsertReal(x, vs))
  {
    if vs != [] && x > vs[0] {
      var tail := vs[1..];
      InsertRealAscending(x, tail);
      InsertRealAbove(x, tail, vs[0]);
      AscendingCons(vs[0], InsertReal(x, tail));
    } else if vs != [] {
      AscendingCons(x, vs);
    }
  }

  /** A lower bound of x and of every value bounds the result of inserting x. */
  lemma {:induction false} InsertRealAbove(x: real, vs: seq<real>, lo: real)
    requires lo <= x && forall k :: 0 <= k < |vs| ==> lo <= vs[k]
    ensures forall k :: 0 <= k < |InsertReal(x, vs)| ==> lo <= InsertReal(x, vs)[k]
  {
    if vs != [] && x > vs[0] {
      InsertRealAbove(x, vs[1..], lo);
    }
  }

  lemma AscendingCons(v: real, vs: seq<real>)
    requires Ascending(vs) && forall k :: 0 <= k < |vs| ==> v <= vs[k]
    ensures Ascending([v] + vs)
  {
    var r := [v] + vs;
    forall i, j | 0 <= i < j < |r| ensures r[i] <= r[j] {
      assert r[j] == vs[j - 1];
      if i > 0 {
        assert r[i] == vs[i - 1];
      }
    }
  }

  /** The values in ascending order: a sorted permutation of the input. */
  function SortReals(vs: seq<real>): (r: seq<real>)
    ensures Ascending(r)
    ensures multiset(r) == multiset(vs)
    ensures |r| == |vs|
  {
    if vs == [] then []
    else
      assert vs == [vs[0]] + vs[1..];
      var sorted := SortReals(vs[1..]);
      InsertRealAscending(vs[0], sorted);
      InsertReal(vs[0], sorted)
  }

  /** How many values are at most m. */
  function CountAtMost(vs: seq<real>, m: real): nat {
    if vs == [] then 0 else (if vs[0] <= m then 1 else 0) + CountAtMost(vs[1..], m)
  }

  /** How many values are at least m. */
  function CountAtLeast(vs: seq<real>, m: real): nat {
    if vs == [] then 0 else (if vs[0] >= m then 1 else 0) + CountAtLeast(vs[1..], m)
  }

  lemma {:induction false} InsertRealCounts(x: real, vs: seq<real>, m: real)
    ensures CountAtMost(InsertReal(x, vs), m) == CountAtMost(vs, m) + (if x <= m then 1 else 0)
    ensures CountAtLeast(InsertReal(x, vs), m) == CountAtLeast(vs, m) + (if x >= m then 1 else 0)
  {
    if vs != [] && x > vs[0] {
      InsertRealCounts(x, vs[1..], m);
      assert ([vs[0]] + InsertReal(x, vs[1..]))[1..] == InsertReal(x, vs[1..]);
    }
  }

  /** Sorting keeps the number of values on either side of any threshold. */
  lemma {:induction false} SortRealsCounts(vs: seq<real>, m: real)
    ensures CountAtMost(SortReals(vs), m) == CountAtMost(vs, m)
    ensures CountAtLeast(SortReals(vs), m) == CountAtLeast(vs, m)
  {
    if vs != [] {
      SortRealsCounts(vs[1..], m);
      InsertRealCounts(vs[0], SortReals(vs[1..]), m);
    }
  }

  lemma {:induction false} CountAtMostPrefix(vs: seq<real>, m: real, j: nat)
    requires j <= |vs|
    requires forall t :: 0 <= t < j ==> vs[t] <= m
    ensures CountAtMost(vs, m) >= j
  {
    if j > 0 {
      CountAtMostPrefix(vs[1..], m, j - 1);
    }
  }

  lemma {:induction false} CountAtLeastSuffix(vs: seq<real>, m: real, j: nat)
    requires j <= |vs|
    requires forall t :: j <= t < |vs| ==> vs[t] >= m
    ensures CountAtLeast(vs, m) >= |vs| - j
  {
    if vs != [] {
      if j > 0 {
        CountAtLeastSuffix(vs[1..], m, j - 1);
      } else {
        CountAtLeastSuffix(vs[1..], m, 0);
      }
    }
  }
}
