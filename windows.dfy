/**
 * The statistics taken over one window of a per-entity history: pandas'
 * rolling(...).mean(), .sum(), and .apply of the "== 1" and "<= 3" counts,
 * all with min_periods=1: a window with no non-missing value gives a missing
 * result, and missing entries never contribute.
 */
module Windows {
  import opened Wrappers

  /** The non-missing values of a window, in window order. */
  function Present(w: seq<Option<real>>): (vs: seq<real>)
    ensures |vs| <= |w|
  {
    if w == [] then []
    else (if w[0].Some? then [w[0].value] else []) + Present(w[1..])
  }

  function Total(vs: seq<real>): real {
    if vs == [] then 0.0 else vs[0] + Total(vs[1..])
  }

  /** How many values equal 1 (a win). */
  function CountWins(vs: seq<real>): nat {
    if vs == [] then 0 else (if vs[0] == 1.0 then 1 else 0) + CountWins(vs[1..])
  }

  /** How many values are at most 3 (a podium). */
  function CountPodiums(vs: seq<real>): nat {
    if vs == [] then 0 else (if vs[0] <= 3.0 then 1 else 0) + CountPodiums(vs[1..])
  }

  /** The four aggregations the feature builder applies to a window. */
  datatype Stat = Mean | Wins | Podiums | Sum

  /** The statistic over a window; missing unless some entry is present. */
  function Aggregate(stat: Stat, w: seq<Option<real>>): (r: Option<real>)
    ensures r.Some? <==> Present(w) != []
  {
    var vs := Present(w);
    if vs == [] then None
    else
      match stat
      case Mean => Some(Total(vs) / |vs| as real)
      case Wins => Some(CountWins(vs) as real)
      case Podiums => Some(CountPodiums(vs) as real)
      case Sum => Some(Total(vs))
  }

  lemma {:induction false} PresentAppend(a: seq<Option<real>>, b: seq<Option<real>>)
    ensures Present(a + b) == Present(a) + Present(b)
  {
    if a == [] {
      assert a + b == b;
    } else {
      var head := if a[0].Some? then [a[0].value] else [];
      assert (a + b)[0] == a[0];
      assert (a + b)[1..] == a[1..] + b;
      PresentAppend(a[1..], b);
      calc {
        Present(a + b);
        head + Present(a[1..] + b);
        head + (Present(a[1..]) + Present(b));
        (head + Present(a[1..])) + Present(b);
      }
    }
  }

  /** Every present value is a value of the window, and every present entry is kept. */
  lemma {:induction false} PresentMembers(w: seq<Option<real>>)
    ensures forall x :: x in Present(w) <==> Some(x) in w
  {
    if w != [] {
      PresentMembers(w[1..]);
      assert w == [w[0]] + w[1..];
    }
  }

  /** A missing entry, wherever it sits in the window, changes no statistic. */
  lemma MissingIgnored(stat: Stat, a: seq<Option<real>>, b: seq<Option<real>>)
    ensures Aggregate(stat, a + [None] + b) == Aggregate(stat, a + b)
  {
    PresentAppend(a + [None], b);
    PresentAppend(a, [None]);
    PresentAppend(a, b);
    var none: seq<Option<real>> := [None];
    assert none[1..] == [];
    assert Present(none) == [];
    assert Present(a + [None] + b) == Present(a) + Present(b) == Present(a + b);
  }

  lemma {:induction false} PresentBounds(w: seq<Option<real>>, lo: real, hi: real)
    requires forall t :: 0 <= t < |w| && w[t].Some? ==> lo <= w[t].value <= hi
    ensures forall t :: 0 <= t < |Present(w)| ==> lo <= Present(w)[t] <= hi
  {
    if w != [] {
      PresentBounds(w[1..], lo, hi);
    }
  }

  lemma {:induction false} TotalBounds(vs: seq<real>, lo: real, hi: real)
    requires forall t :: 0 <= t < |vs| ==> lo <= vs[t] <= hi
    ensures |vs| as real * lo <= Total(vs) <= |vs| as real * hi
  {
    if vs != [] {
      TotalBounds(vs[1..], lo, hi);
    }
  }

  /** The mean lies between any bounds that hold of every present value. */
  lemma MeanBounds(w: seq<Option<real>>, lo: real, hi: real)
    requires forall t :: 0 <= t < |w| && w[t].Some? ==> lo <= w[t].value <= hi
    requires Present(w) != []
    ensures lo <= Aggregate(Mean, w).value <= hi
  {
    PresentBounds(w, lo, hi);
    AverageBounds(Present(w), lo, hi);
  }

  lemma AverageBounds(vs: seq<real>, lo: real, hi: real)
    requires vs != []
    requires forall t :: 0 <= t < |vs| ==> lo <= vs[t] <= hi
    ensures lo <= Total(vs) / |vs| as real <= hi
  {
    TotalBounds(vs, lo, hi);
    QuotientBounds(Total(vs), |vs| as real, lo, hi);
  }

  lemma QuotientBounds(t: real, n: real, lo: real, hi: real)
    requires n > 0.0 && n * lo <= t <= n * hi
    ensures lo <= t / n <= hi
  {
    assert (t / n) * n == t;
  }

  lemma {:induction false} WinsAtMostPodiums(vs: seq<real>)
    ensures CountWins(vs) <= CountPodiums(vs) <= |vs|
  {
    if vs != [] {
      WinsAtMostPodiums(vs[1..]);
    }
  }

  /** Wins never exceed podiums, which never exceed the number of present entries. */
  lemma CountsBounded(w: seq<Option<real>>)
    requires Present(w) != []
    ensures 0.0 <= Aggregate(Wins, w).value <= Aggregate(Podiums, w).value
    ensures Aggregate(Podiums, w).value <= |Present(w)| as real <= |w| as real
  {
    WinsAtMostPodiums(Present(w));
  }
}
