/**
 * The shift-by-one per-entity rolling engine. Rows are identified by their
 * index after the global sort. A grouping key partitions them; within a
 * partition rows are taken in row order, which after the global sort is date
 * order. For the k-th row of a partition a statistic is taken over the source
 * values of the partition's rows at positions max(0, k-5) .. k-1 (LastFive,
 * shift().rolling(5, min_periods=1)) or 0 .. k-1 (Expanding,
 * shift().expanding()); row k itself never contributes.
 */
module Grouping {
  import opened Wrappers
  import opened Windows

  /** The width of every bounded window; the source hard-codes rolling(5). */
  const WindowSize: nat := 5

  datatype Span = LastFive | Expanding

  function Min(a: nat, b: nat): nat { if a <= b then a else b }

  /** The row-ids below n whose key is k, ascending: the partition of k, cut at row n. */
  function Members<K(==)>(keys: seq<K>, k: K, n: nat): (ids: seq<nat>)
    requires n <= |keys|
    ensures forall t :: 0 <= t < |ids| ==> ids[t] < n && keys[ids[t]] == k
    ensures forall t, u :: 0 <= t < u < |ids| ==> ids[t] < ids[u]
  {
    if n == 0 then [] else Members(keys, k, n - 1) + (if keys[n - 1] == k then [n - 1] else [])
  }

  /** Every row below n with key k is in the cut partition. */
  lemma {:induction false} MembersComplete<K>(keys: seq<K>, k: K, n: nat, j: nat)
    requires n <= |keys| && j < n && keys[j] == k
    ensures j in Members(keys, k, n)
  {
    if j < n - 1 {
      MembersComplete(keys, k, n - 1, j);
    }
  }

  /** The whole partition that holds rows with key k. */
  function Partition<K(==)>(keys: seq<K>, k: K): seq<nat> {
    Members(keys, k, |keys|)
  }

  /** The rows of row i's partition that come before it. */
  function Prior<K(==)>(keys: seq<K>, i: nat): seq<nat>
    requires i < |keys|
  {
    Members(keys, keys[i], i)
  }

  /** The rows whose source values feed row i's statistic. */
  function WindowIds<K(==)>(keys: seq<K>, i: nat, span: Span): seq<nat>
    requires i < |keys|
  {
    var p := Prior(keys, i);
    match span
    case LastFive => p[|p| - Min(|p|, WindowSize)..]
    case Expanding => p
  }

  /** The source values at the given rows, in that order. */
  function Gather(src: seq<Option<real>>, ids: seq<nat>): (w: seq<Option<real>>)
    requires forall t :: 0 <= t < |ids| ==> ids[t] < |src|
    ensures |w| == |ids|
    ensures forall t :: 0 <= t < |ids| ==> w[t] == src[ids[t]]
  {
    seq(|ids|, t requires 0 <= t < |ids| => src[ids[t]])
  }

  /** The feature value attached to row i. */
  function FeatureAt<K(==)>(keys: seq<K>, src: seq<Option<real>>, stat: Stat, span: Span, i: nat): Option<real>
    requires |src| == |keys| && i < |keys|
  {
    Aggregate(stat, Gather(src, WindowIds(keys, i, span)))
  }

  /** The feature column: one value per row, aligned with the row-ids. */
  function RollingColumn<K(==)>(keys: seq<K>, src: seq<Option<real>>, stat: Stat, span: Span): (col: seq<Option<real>>)
    requires |src| == |keys|
    ensures |col| == |keys|
  {
    seq(|keys|, i requires 0 <= i < |keys| => FeatureAt(keys, src, stat, span, i))
  }

  // ---------------------------------------------------------------------
  // Facts about partitions

  lemma NoMembers<K>(keys: seq<K>, k: K, n: nat)
    requires n <= |keys|
    requires forall j :: 0 <= j < n ==> keys[j] != k
    ensures Members(keys, k, n) == []
  {
  }

  /** Cutting a partition before its t-th row gives the rows before that row. */
  lemma {:induction false} MembersPrefix<K>(keys: seq<K>, k: K, n: nat, t: nat)
    requires n <= |keys|
    requires t < |Members(keys, k, n)|
    ensures Members(keys, k, n)[..t] == Members(keys, k, Members(keys, k, n)[t])
  {
    var ids := Members(keys, k, n);
    var before := Members(keys, k, n - 1);
    if t < |before| {
      MembersPrefix(keys, k, n - 1, t);
      assert ids[..t] == before[..t];
    } else {
      assert ids == before + [n - 1];
      assert ids[..t] == before;
    }
  }

  /**
   * The k-th row of a partition gets the statistic over the partition's rows
   * at positions max(0, k-5) .. k-1, or 0 .. k-1 for the expanding window.
   */
  lemma PartitionWindow<K>(keys: seq<K>, k: K, t: nat)
    requires t < |Partition(keys, k)|
    ensures var ids := Partition(keys, k);
      && WindowIds(keys, ids[t], LastFive) == ids[(if t > WindowSize then t - WindowSize else 0)..t]
      && WindowIds(keys, ids[t], Expanding) == ids[..t]
  {
    var ids := Partition(keys, k);
    MembersPrefix(keys, k, |keys|, t);
    assert Prior(keys, ids[t]) == ids[..t];
  }

  lemma {:induction false} MembersSkip<K>(keys: seq<K>, k: K, j: nat, n: nat)
    requires j <= n <= |keys|
    requires forall m :: j <= m < n ==> keys[m] != k
    ensures Members(keys, k, n) == Members(keys, k, j)
  {
    if n > j {
      MembersSkip(keys, k, j, n - 1);
    }
  }

  lemma {:induction false} StrictlyIncreasingCard(ids: seq<nat>)
    requires forall t, u :: 0 <= t < u < |ids| ==> ids[t] < ids[u]
    ensures |set t | 0 <= t < |ids| :: ids[t]| == |ids|
  {
    if ids != [] {
      var last := |ids| - 1;
      StrictlyIncreasingCard(ids[..last]);
      var front := set t | 0 <= t < last :: ids[..last][t];
      var all := set t | 0 <= t < |ids| :: ids[t];
      assert all == front + {ids[last]};
      assert ids[last] !in front;
    }
  }

  /** The set of earlier rows of row i's partition. */
  function EarlierRows<K(==)>(keys: seq<K>, i: nat): set<nat>
    requires i < |keys|
  {
    set j | 0 <= j < i && keys[j] == keys[i]
  }

  lemma PriorIsEarlierRows<K>(keys: seq<K>, i: nat)
    requires i < |keys|
    ensures (set t | 0 <= t < |Prior(keys, i)| :: Prior(keys, i)[t]) == EarlierRows(keys, i)
    ensures |Prior(keys, i)| == |EarlierRows(keys, i)|
  {
    var p := Prior(keys, i);
    var s := set t | 0 <= t < |p| :: p[t];
    forall j | j in EarlierRows(keys, i) ensures j in s {
      MembersComplete(keys, keys[i], i, j);
    }
    StrictlyIncreasingCard(p);
  }

  // ---------------------------------------------------------------------
  // The properties the feature builder promises

  /**
   * No leakage: two source columns that agree on the earlier rows of row i's
   * partition give row i the same feature value, so row i's own value, every
   * later row and every other partition are never read.
   */
  lemma NoLeakage<K>(keys: seq<K>, src1: seq<Option<real>>, src2: seq<Option<real>>, stat: Stat, span: Span, i: nat)
    requires |src1| == |keys| && |src2| == |keys| && i < |keys|
    requires forall j :: 0 <= j < i && keys[j] == keys[i] ==> src1[j] == src2[j]
    ensures FeatureAt(keys, src1, stat, span, i) == FeatureAt(keys, src2, stat, span, i)
  {
    var ids := WindowIds(keys, i, span);
    assert Gather(src1, ids) == Gather(src2, ids);
  }

  /** The first row of every partition has no history: every statistic is missing. */
  lemma FirstOccurrenceMissing<K>(keys: seq<K>, src: seq<Option<real>>, stat: Stat, span: Span, i: nat)
    requires |src| == |keys| && i < |keys|
    requires forall j :: 0 <= j < i ==> keys[j] != keys[i]
    ensures FeatureAt(keys, src, stat, span, i) == None
  {
    NoMembers(keys, keys[i], i);
    assert Gather(src, WindowIds(keys, i, span)) == [];
  }

  /**
   * Window size: with k earlier rows in the partition the bounded window holds
   * min(k, 5) rows and the expanding window all k, each an earlier row of the
   * same partition.
   */
  lemma WindowSizeBound<K>(keys: seq<K>, i: nat)
    requires i < |keys|
    ensures |WindowIds(keys, i, LastFive)| == Min(|EarlierRows(keys, i)|, WindowSize)
    ensures |WindowIds(keys, i, Expanding)| == |EarlierRows(keys, i)|
    ensures forall span, t :: 0 <= t < |WindowIds(keys, i, span)| ==> WindowIds(keys, i, span)[t] in EarlierRows(keys, i)
  {
    PriorIsEarlierRows(keys, i);
  }

  /**
   * The window counts rows, not race dates: the partition row just before i
   * is always in i's window, even when it has the same date (a teammate's row
   * of the same race in a constructor's partition).
   */
  lemma PreviousRowInWindow<K>(keys: seq<K>, i: nat, j: nat)
    requires j < i < |keys| && keys[j] == keys[i]
    requires forall m :: j < m < i ==> keys[m] != keys[i]
    ensures j in WindowIds(keys, i, LastFive)
  {
    MembersSkip(keys, keys[i], j + 1, i);
    var p := Prior(keys, i);
    assert p == Members(keys, keys[i], j) + [j];
    assert p[|p| - 1] == j;
  }

  /** Row order is date order after the global sort, so no window row is dated after its row. */
  lemma WindowNotLater<K>(keys: seq<K>, dates: seq<int>, i: nat, span: Span)
    requires |dates| == |keys| && i < |keys|
    requires forall a, b :: 0 <= a < b < |dates| ==> dates[a] <= dates[b]
    ensures forall t :: 0 <= t < |WindowIds(keys, i, span)| ==>
      WindowIds(keys, i, span)[t] < i && dates[WindowIds(keys, i, span)[t]] <= dates[i]
  {
  }

  /**
   * Three races of driver D1 finishing 3, 1, 2: at the third, the average
   * finish is 2.0, with one win and two podiums.
   */
  lemma ScenarioThreeRaces()
    ensures var keys, pos := ["D1", "D1", "D1"], [Some(3.0), Some(1.0), Some(2.0)];
      && FeatureAt(keys, pos, Mean, LastFive, 2) == Some(2.0)
      && FeatureAt(keys, pos, Wins, LastFive, 2) == Some(1.0)
      && FeatureAt(keys, pos, Podiums, LastFive, 2) == Some(2.0)
  {
    var keys, pos := ["D1", "D1", "D1"], [Some(3.0), Some(1.0), Some(2.0)];
    ScenarioWindow(keys, pos);
    var w := Gather(pos, WindowIds(keys, 2, LastFive));
    ScenarioPresent(w);
  }

  lemma ScenarioWindow(keys: seq<string>, pos: seq<Option<real>>)
    requires keys == ["D1", "D1", "D1"] && pos == [Some(3.0), Some(1.0), Some(2.0)]
    ensures Gather(pos, WindowIds(keys, 2, LastFive)) == [Some(3.0), Some(1.0)]
  {
    assert Members(keys, "D1", 0) == [];
    assert Members(keys, "D1", 1) == [0];
    assert Members(keys, "D1", 2) == [0, 1];
    assert WindowIds(keys, 2, LastFive) == [0, 1];
  }

  lemma ScenarioPresent(w: seq<Option<real>>)
    requires w == [Some(3.0), Some(1.0)]
    ensures Aggregate(Mean, w) == Some(2.0)
    ensures Aggregate(Wins, w) == Some(1.0)
    ensures Aggregate(Podiums, w) == Some(2.0)
  {
    var last := w[1..];
    assert last == [Some(1.0)] && last[1..] == [];
    assert Present(last[1..]) == [];
    assert Present(last) == [1.0];
    var vs := Present(w);
    assert vs == [3.0] + [1.0];
    var tail := vs[1..];
    assert tail == [1.0] && tail[1..] == [];
    assert Total(tail[1..]) == 0.0 && CountWins(tail[1..]) == 0 && CountPodiums(tail[1..]) == 0;
    assert Total(tail) == 1.0 && CountWins(tail) == 1 && CountPodiums(tail) == 1;
    assert Total(vs) == 4.0 && CountWins(vs) == 1 && CountPodiums(vs) == 2;
  }

  // ---------------------------------------------------------------------
  // The engine: group rows by key, then scatter each partition's results
  // back to the rows they belong to.

  /** The position of k in ks, or |ks| when it is absent (the groupby hash lookup). */
  method FindKey<K(==)>(ks: seq<K>, k: K) returns (g: nat)
    ensures g <= |ks|
    ensures g < |ks| ==> ks[g] == k
    ensures g == |ks| ==> k !in ks
  {
    g := 0;
    while g < |ks| && ks[g] != k
      invariant g <= |ks|
      invariant forall h :: 0 <= h < g ==> ks[h] != k
    {
      g := g + 1;
    }
  }

  /**
   * groupby(key, sort=False): the distinct keys in order of first appearance,
   * the partition of each (its ascending row-ids), and the partition of every row.
   */
  method GroupRows<K(==)>(keys: seq<K>) returns (groupKeys: seq<K>, groups: seq<seq<nat>>, groupOf: seq<nat>)
    ensures |groupKeys| == |groups| && |groupOf| == |keys|
    ensures forall g :: 0 <= g < |groups| ==> groups[g] != [] && groups[g] == Partition(keys, groupKeys[g])
    ensures forall g, h :: 0 <= g < h < |groupKeys| ==> groupKeys[g] != groupKeys[h]
    ensures forall i :: 0 <= i < |keys| ==> groupOf[i] < |groups| && groupKeys[groupOf[i]] == keys[i]
    ensures forall g, h :: 0 <= g < h < |groups| ==> groups[g][0] < groups[h][0]
  {
    groupKeys, groups, groupOf := [], [], [];
    for i := 0 to |keys|
      invariant GroupedUpTo(keys, groupKeys, groups, groupOf, i)
    {
      var g := FindKey(groupKeys, keys[i]);
      if g < |groupKeys| {
        JoinGroup(keys, groupKeys, groups, groupOf, i, g);
        groups := groups[g := groups[g] + [i]];
      } else {
        NewGroup(keys, groupKeys, groups, groupOf, i);
        groups := groups + [[i]];
        groupKeys := groupKeys + [keys[i]];
      }
      groupOf := groupOf + [g];
    }
  }

  /** The loop invariant of GroupRows after the first i rows. */
  predicate GroupedUpTo<K(==)>(keys: seq<K>, groupKeys: seq<K>, groups: seq<seq<nat>>, groupOf: seq<nat>, i: nat)
  {
    && i <= |keys|
    && |groupKeys| == |groups| && |groupOf| == i
    && (forall g :: 0 <= g < |groups| ==> groups[g] != [] && groups[g] == Members(keys, groupKeys[g], i))
    && (forall g, h :: 0 <= g < h < |groupKeys| ==> groupKeys[g] != groupKeys[h])
    && (forall g, h :: 0 <= g < h < |groups| ==> groups[g][0] < groups[h][0])
    && (forall j :: 0 <= j < i ==> groupOf[j] < |groups| && groupKeys[groupOf[j]] == keys[j])
  }

  /** Row i joins the existing group g of its key. */
  lemma JoinGroup<K>(keys: seq<K>, groupKeys: seq<K>, groups: seq<seq<nat>>, groupOf: seq<nat>, i: nat, g: nat)
    requires i < |keys| && GroupedUpTo(keys, groupKeys, groups, groupOf, i)
    requires g < |groupKeys| && groupKeys[g] == keys[i]
    ensures GroupedUpTo(keys, groupKeys, groups[g := groups[g] + [i]], groupOf + [g], i + 1)
  {
    var groups' := groups[g := groups[g] + [i]];
    forall h | 0 <= h < |groups'|
      ensures groups'[h] != [] && groups'[h] == Members(keys, groupKeys[h], i + 1)
    {
      MembersStep(keys, groupKeys[h], i);
      if h != g {
        assert groupKeys[h] != keys[i];
      }
    }
  }

  /** Row i starts a new group for a key not seen before. */
  lemma NewGroup<K>(keys: seq<K>, groupKeys: seq<K>, groups: seq<seq<nat>>, groupOf: seq<nat>, i: nat)
    requires i < |keys| && GroupedUpTo(keys, groupKeys, groups, groupOf, i)
    requires keys[i] !in groupKeys
    ensures GroupedUpTo(keys, groupKeys + [keys[i]], groups + [[i]], groupOf + [|groupKeys|], i + 1)
  {
    var groupKeys', groups' := groupKeys + [keys[i]], groups + [[i]];
    NoMembersBefore(keys, groupKeys, groupOf, i);
    forall h | 0 <= h < |groups'|
      ensures groups'[h] != [] && groups'[h] == Members(keys, groupKeys'[h], i + 1)
    {
      MembersStep(keys, groupKeys'[h], i);
      if h < |groups| {
        assert groupKeys'[h] == groupKeys[h] && groupKeys[h] != keys[i];
      }
    }
    forall g | 0 <= g < |groups| ensures groups[g] != [] && groups[g][0] < i {
      assert groups[g] == Members(keys, groupKeys[g], i);
    }
    AppendGroupOrdered(groups, i);
  }

  /** A group whose first row comes after every existing group's keeps the groups ordered by first row. */
  lemma AppendGroupOrdered(groups: seq<seq<nat>>, i: nat)
    requires forall g :: 0 <= g < |groups| ==> groups[g] != [] && groups[g][0] < i
    requires forall g, h :: 0 <= g < h < |groups| ==> groups[g][0] < groups[h][0]
    ensures forall g, h :: 0 <= g < h < |groups| + 1 ==> (groups + [[i]])[g][0] < (groups + [[i]])[h][0]
  {
    var groups' := groups + [[i]];
    forall g, h | 0 <= g < h < |groups'| ensures groups'[g][0] < groups'[h][0] {
      assert groups'[g] == groups[g];
      if h < |groups| {
        assert groups'[h] == groups[h];
      }
    }
  }

  lemma MembersStep<K>(keys: seq<K>, k: K, i: nat)
    requires i < |keys|
    ensures Members(keys, k, i + 1) == Members(keys, k, i) + (if keys[i] == k then [i] else [])
  {
  }

  /** A key not yet seen among the first i rows has no members before row i. */
  lemma NoMembersBefore<K>(keys: seq<K>, groupKeys: seq<K>, groupOf: seq<nat>, i: nat)
    requires i < |keys| && |groupOf| == i && keys[i] !in groupKeys
    requires forall j :: 0 <= j < i ==> groupOf[j] < |groupKeys| && groupKeys[groupOf[j]] == keys[j]
    ensures Members(keys, keys[i], i) == []
  {
    NoMembers(keys, keys[i], i);
  }

  /** The statistic for the t-th row of a partition, over the slice of the partition before it. */
  function PartitionRowValue(src: seq<Option<real>>, stat: Stat, span: Span, ids: seq<nat>, t: nat): Option<real>
    requires t < |ids| && forall u :: 0 <= u < |ids| ==> ids[u] < |src|
  {
    var lo := if span == LastFive && t > WindowSize then t - WindowSize else 0;
    Aggregate(stat, Gather(src, ids[lo..t]))
  }

  /** The feature of a partition's t-th row is the statistic over that partition's slice. */
  lemma SpecAtPartitionRow<K>(keys: seq<K>, src: seq<Option<real>>, stat: Stat, span: Span, k: K, t: nat)
    requires |src| == |keys| && t < |Partition(keys, k)|
    ensures RollingColumn(keys, src, stat, span)[Partition(keys, k)[t]] == PartitionRowValue(src, stat, span, Partition(keys, k), t)
  {
    PartitionWindow(keys, k, t);
  }

  /**
   * The rows of one partition, in order: each gets the statistic over the
   * partition slice before it. Every entry of out is either left alone or set
   * to its row's feature value, and the rows outside the partition are left alone.
   */
  method ScatterPartition(src: seq<Option<real>>, stat: Stat, span: Span, ids: seq<nat>,
                          out: array<Option<real>>, ghost spec: seq<Option<real>>)
    requires |src| == out.Length == |spec|
    requires forall u :: 0 <= u < |ids| ==> ids[u] < |src|
    requires forall u :: 0 <= u < |ids| ==> spec[ids[u]] == PartitionRowValue(src, stat, span, ids, u)
    modifies out
    ensures forall t :: 0 <= t < |ids| ==> out[ids[t]] == spec[ids[t]]
    ensures forall x :: 0 <= x < out.Length ==> out[x] == old(out[x]) || out[x] == spec[x]
    ensures forall x :: 0 <= x < out.Length && x !in ids ==> out[x] == old(out[x])
  {
    for t := 0 to |ids|
      invariant forall u :: 0 <= u < t ==> out[ids[u]] == spec[ids[u]]
      invariant forall x :: 0 <= x < out.Length ==> out[x] == old(out[x]) || out[x] == spec[x]
      invariant forall x :: 0 <= x < out.Length && x !in ids[..t] ==> out[x] == old(out[x])
    {
      var v := PartitionRowValue(src, stat, span, ids, t);
      assert v == spec[ids[t]];
      out[ids[t]] := v;
    }
  }

  /**
   * One grouped rolling feature: per partition, the statistic over the shifted
   * window of each row, written back into a column indexed by row-id.
   */
  method RollingFeature<K(==)>(keys: seq<K>, src: seq<Option<real>>, stat: Stat, span: Span)
    returns (feature: seq<Option<real>>)
    requires |src| == |keys|
    ensures feature == RollingColumn(keys, src, stat, span)
  {
    var groupKeys, groups, groupOf := GroupRows(keys);
    ghost var spec := RollingColumn(keys, src, stat, span);
    var out := new Option<real>[|keys|](_ => None);
    for g := 0 to |groups|
      invariant forall i :: 0 <= i < |keys| && groupOf[i] < g ==> out[i] == spec[i]
    {
      forall u | 0 <= u < |groups[g]|
        ensures spec[groups[g][u]] == PartitionRowValue(src, stat, span, groups[g], u)
      {
        SpecAtPartitionRow(keys, src, stat, span, groupKeys[g], u);
      }
      ScatterPartition(src, stat, span, groups[g], out, spec);
      forall i | 0 <= i < |keys| && groupOf[i] == g
        ensures out[i] == spec[i]
      {
        InOwnGroup(keys, groups[g], i);
      }
    }
    feature := out[..];
  }

  /** Row i is a row of its key's partition. */
  lemma InOwnGroup<K>(keys: seq<K>, ids: seq<nat>, i: nat)
    requires i < |keys| && ids == Partition(keys, keys[i])
    ensures exists t :: 0 <= t < |ids| && ids[t] == i
  {
    MembersComplete(keys, keys[i], |keys|, i);
  }

  // ---------------------------------------------------------------------
  // Rows in another frame order

  /** A column read in another row order: position p holds row order[p]. */
  function Reorder<T>(xs: seq<T>, order: seq<nat>): (ys: seq<T>)
    requires forall p :: 0 <= p < |order| ==> order[p] < |xs|
    ensures |ys| == |order|
    ensures forall p :: 0 <= p < |order| ==> ys[p] == xs[order[p]]
  {
    seq(|order|, p requires 0 <= p < |order| => xs[order[p]])
  }

  /** The distinct keys of the first n rows, in order of first appearance. */
  function FirstSeen<K(==)>(keys: seq<K>, n: nat): seq<K>
    requires n <= |keys|
  {
    if n == 0 then []
    else
      var ks := FirstSeen(keys, n - 1);
      if keys[n - 1] in ks then ks else ks + [keys[n - 1]]
  }

  /** The first-seen keys are the keys of the first n rows, each listed once. */
  lemma {:induction false} FirstSeenKeys<K>(keys: seq<K>, n: nat)
    requires n <= |keys|
    ensures forall j :: 0 <= j < n ==> keys[j] in FirstSeen(keys, n)
    ensures forall k :: k in FirstSeen(keys, n) ==> k in keys[..n]
    ensures Distinct(FirstSeen(keys, n))
  {
    if n > 0 {
      FirstSeenKeys(keys, n - 1);
      assert keys[..n - 1] <= keys[..n];
    }
  }

  /** The partitions of the keys ks, one after another. */
  function Blocks<K(==)>(keys: seq<K>, ks: seq<K>): (order: seq<nat>)
    ensures forall p :: 0 <= p < |order| ==> order[p] < |keys| && keys[order[p]] in ks
    ensures forall i :: 0 <= i < |keys| && keys[i] in ks ==> i in order
  {
    if ks == [] then []
    else
      var order := Partition(keys, ks[0]) + Blocks(keys, ks[1..]);
      assert forall i :: 0 <= i < |keys| && keys[i] == ks[0] ==> i in Partition(keys, ks[0]) by {
        forall i | 0 <= i < |keys| && keys[i] == ks[0] ensures i in Partition(keys, ks[0]) {
          MembersComplete(keys, ks[0], |keys|, i);
        }
      }
      order
  }

  predicate Distinct<T(==)>(xs: seq<T>) {
    forall g, h :: 0 <= g < h < |xs| ==> xs[g] != xs[h]
  }

  /** The number of entries of ks equal to k. */
  function Hits<K(==)>(ks: seq<K>, k: K): nat {
    if ks == [] then 0 else (if ks[0] == k then 1 else 0) + Hits(ks[1..], k)
  }

  lemma {:induction false} HitsDistinct<K>(ks: seq<K>, k: K)
    requires Distinct(ks)
    ensures Hits(ks, k) == if k in ks then 1 else 0
  {
    if ks != [] {
      assert Distinct(ks[1..]);
      HitsDistinct(ks[1..], k);
      assert ks == [ks[0]] + ks[1..];
      if ks[0] == k {
        assert k !in ks[1..];
      }
    }
  }

  /** The total size of the partitions of ks, cut at row n. */
  function BlocksSize<K(==)>(keys: seq<K>, ks: seq<K>, n: nat): nat
    requires n <= |keys|
  {
    if ks == [] then 0 else |Members(keys, ks[0], n)| + BlocksSize(keys, ks[1..], n)
  }

  lemma {:induction false} BlocksSizeStep<K>(keys: seq<K>, ks: seq<K>, n: nat)
    requires n < |keys|
    ensures BlocksSize(keys, ks, n + 1) == BlocksSize(keys, ks, n) + Hits(ks, keys[n])
  {
    if ks != [] {
      MembersStep(keys, ks[0], n);
      BlocksSizeStep(keys, ks[1..], n);
    }
  }

  /** Distinct keys that cover the first n rows have partitions of n rows in all. */
  lemma BlocksSizeCovers<K>(keys: seq<K>, ks: seq<K>, n: nat)
    requires n <= |keys| && Distinct(ks)
    requires forall j :: 0 <= j < n ==> keys[j] in ks
    ensures BlocksSize(keys, ks, n) == n
  {
    forall j | 0 <= j < n ensures Hits(ks, keys[j]) == 1 {
      HitsDistinct(ks, keys[j]);
    }
    BlocksSizeCounts(keys, ks, n);
  }

  /** Keys that each of the first n rows hits once have partitions of n rows in all. */
  lemma {:induction false} BlocksSizeCounts<K>(keys: seq<K>, ks: seq<K>, n: nat)
    requires n <= |keys|
    requires forall j :: 0 <= j < n ==> Hits(ks, keys[j]) == 1
    ensures BlocksSize(keys, ks, n) == n
  {
    if n == 0 {
      BlocksSizeEmpty(keys, ks);
    } else {
      BlocksSizeCounts(keys, ks, n - 1);
      BlocksSizeStep(keys, ks, n - 1);
    }
  }

  lemma {:induction false} BlocksSizeEmpty<K>(keys: seq<K>, ks: seq<K>)
    ensures BlocksSize(keys, ks, 0) == 0
  {
    if ks != [] {
      BlocksSizeEmpty(keys, ks[1..]);
    }
  }

  lemma {:induction false} BlocksLength<K>(keys: seq<K>, ks: seq<K>)
    ensures |Blocks(keys, ks)| == BlocksSize(keys, ks, |keys|)
  {
    if ks != [] {
      BlocksLength(keys, ks[1..]);
    }
  }

  /** Partitions of distinct keys never share a row. */
  lemma {:induction false} BlocksDistinct<K>(keys: seq<K>, ks: seq<K>)
    requires Distinct(ks)
    ensures Distinct(Blocks(keys, ks))
  {
    if ks != [] {
      var head, rest := Partition(keys, ks[0]), Blocks(keys, ks[1..]);
      assert Distinct(ks[1..]);
      BlocksDistinct(keys, ks[1..]);
      assert ks[0] !in ks[1..];
      DisjointConcat(head, rest, keys, ks[0]);
    }
  }

  /** An ascending run of rows with key k, then distinct rows of other keys. */
  lemma DisjointConcat<K>(head: seq<nat>, rest: seq<nat>, keys: seq<K>, k: K)
    requires forall t, u :: 0 <= t < u < |head| ==> head[t] < head[u]
    requires forall t :: 0 <= t < |head| ==> head[t] < |keys| && keys[head[t]] == k
    requires forall p :: 0 <= p < |rest| ==> rest[p] < |keys| && keys[rest[p]] != k
    requires Distinct(rest)
    ensures Distinct(head + rest)
  {
    var all := head + rest;
    forall g, h | 0 <= g < h < |all| ensures all[g] != all[h] {
      if h < |head| {
        assert all[g] == head[g] && all[h] == head[h];
      } else if g >= |head| {
        assert all[g] == rest[g - |head|] && all[h] == rest[h - |head|];
      } else {
        assert keys[all[g]] == k && keys[all[h]] != k;
      }
    }
  }

  /**
   * The frame order groupby(key, sort=False).apply(f) leaves when it
   * concatenates the groups' results: the partitions in order of first
   * appearance, each in row order. It is a permutation of the rows: every
   * row turns up in it exactly once.
   */
  function BlockOrder<K(==)>(keys: seq<K>): (order: seq<nat>)
    ensures |order| == |keys|
    ensures forall p :: 0 <= p < |order| ==> order[p] < |keys|
    ensures forall i :: 0 <= i < |keys| ==> i in order
    ensures forall p, q :: 0 <= p < q < |order| ==> order[p] != order[q]
  {
    var ks := FirstSeen(keys, |keys|);
    FirstSeenKeys(keys, |keys|);
    BlocksLength(keys, ks);
    BlocksSizeCovers(keys, ks, |keys|);
    BlocksDistinct(keys, ks);
    Blocks(keys, ks)
  }

  /**
   * transform(lambda x: x.shift().rolling/expanding(...)) over the frame
   * standing in the given row order: entry p is the value written to row order[p],
   * taken over the earlier positions of the order with the same key.
   */
  function RollingInOrder<K(==)>(keys: seq<K>, src: seq<Option<real>>, stat: Stat, span: Span, order: seq<nat>)
    : (col: seq<Option<real>>)
    requires |src| == |keys| && forall p :: 0 <= p < |order| ==> order[p] < |keys|
    ensures |col| == |order|
  {
    RollingColumn(Reorder(keys, order), Reorder(src, order), stat, span)
  }

  /** The first position at or after from where order holds row i, or |order| when there is none. */
  function PositionOf(order: seq<nat>, i: nat, from: nat): (p: nat)
    requires from <= |order|
    ensures from <= p <= |order|
    ensures p < |order| ==> order[p] == i
    ensures forall q :: from <= q < p ==> order[q] != i
    decreases |order| - from
  {
    if from == |order| then |order|
    else if order[from] == i then from
    else PositionOf(order, i, from + 1)
  }

  /**
   * transform's result aligned back to the row index: row order[p] receives
   * the value computed at position p of the order. The order lists each row
   * at most once, as the index of a frame does.
   */
  function RollingAligned<K(==)>(keys: seq<K>, src: seq<Option<real>>, stat: Stat, span: Span, order: seq<nat>)
    : (col: seq<Option<real>>)
    requires |src| == |keys| && forall p :: 0 <= p < |order| ==> order[p] < |keys|
    requires Distinct(order)
    ensures |col| == |keys|
    ensures forall p :: 0 <= p < |order| ==> col[order[p]] == RollingInOrder(keys, src, stat, span, order)[p]
  {
    var vals := RollingInOrder(keys, src, stat, span, order);
    var col := seq(|keys|, i requires 0 <= i < |keys| =>
      var p := PositionOf(order, i, 0); if p < |vals| then vals[p] else None);
    assert forall p :: 0 <= p < |order| ==> PositionOf(order, order[p], 0) == p;
    col
  }
}
