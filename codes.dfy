/**
 * astype("category").cat.codes on an identifier column: the categories are
 * the distinct values in sorted order, and each value's code is its position
 * among them, which is the number of distinct values that sort before it.
 */
module Codes {

  /** Python's ordering of strings: lexicographic by code point. */
  predicate StrLt(a: string, b: string) {
    if a == [] then b != []
    else if b == [] then false
    else if a[0] != b[0] then a[0] < b[0]
    else StrLt(a[1..], b[1..])
  }

  lemma {:induction false} StrLtIrreflexive(a: string)
    ensures !StrLt(a, a)
  {
    if a != [] {
      StrLtIrreflexive(a[1..]);
    }
  }

  lemma {:induction false} StrLtTransitive(a: string, b: string, c: string)
    requires StrLt(a, b) && StrLt(b, c)
    ensures StrLt(a, c)
  {
    if a != [] && b != [] && c != [] && a[0] == b[0] && b[0] == c[0] {
      StrLtTransitive(a[1..], b[1..], c[1..]);
    }
  }

  lemma {:induction false} StrLtTotal(a: string, b: string)
    requires a != b
    ensures StrLt(a, b) || StrLt(b, a)
  {
    if a != [] && b != [] && a[0] == b[0] {
      assert a == [a[0]] + a[1..] && b == [b[0]] + b[1..];
      StrLtTotal(a[1..], b[1..]);
    }
  }

  /** The categories of a column: its distinct values. */
  function Categories(values: seq<string>): set<string> {
    set v | v in values
  }

  /** The distinct values that sort strictly before x. */
  function Below(values: seq<string>, x: string): set<string> {
    set v | v in values && StrLt(v, x)
  }

  /** The code of x: how many categories sort before it. */
  function Code(values: seq<string>, x: string): nat {
    |Below(values, x)|
  }

  /** cat.codes: each row's value replaced by its code. */
  function CategoryCodes(values: seq<string>): (codes: seq<nat>)
    ensures |codes| == |values|
    ensures forall i :: 0 <= i < |values| ==> codes[i] < |Categories(values)|
  {
    forall i | 0 <= i < |values| {
      CodeInRange(values, values[i]);
    }
    seq(|values|, i requires 0 <= i < |values| => Code(values, values[i]))
  }

  /** A value's code lies in [0, number of categories). */
  lemma CodeInRange(values: seq<string>, x: string)
    requires x in values
    ensures Code(values, x) < |Categories(values)|
  {
    StrLtIrreflexive(x);
    assert Below(values, x) <= Categories(values);
    assert x in Categories(values) && x !in Below(values, x);
    ProperSubsetCard(Below(values, x), Categories(values));
  }

  lemma SubsetCard<T>(a: set<T>, b: set<T>)
    requires a <= b
    ensures |a| <= |b|
    decreases |a|
  {
    if a != {} {
      var x :| x in a;
      SubsetCard(a - {x}, b - {x});
    }
  }

  lemma ProperSubsetCard<T>(a: set<T>, b: set<T>)
    requires a < b
    ensures |a| < |b|
  {
    var x :| x in b && x !in a;
    SubsetCard(a, b - {x});
  }

  /** Codes follow the sorted order of the categories. */
  lemma CodeMonotone(values: seq<string>, a: string, b: string)
    requires a in values && StrLt(a, b)
    ensures Code(values, a) < Code(values, b)
  {
    forall v | v in Below(values, a)
      ensures v in Below(values, b)
    {
      StrLtTransitive(v, a, b);
    }
    StrLtIrreflexive(a);
    assert a in Below(values, b) && a !in Below(values, a);
    ProperSubsetCard(Below(values, a), Below(values, b));
  }

  /** Two values of the column have the same code exactly when they are equal. */
  lemma CodeInjective(values: seq<string>, a: string, b: string)
    requires a in values && b in values
    ensures Code(values, a) == Code(values, b) <==> a == b
  {
    if a != b {
      StrLtTotal(a, b);
      if StrLt(a, b) {
        CodeMonotone(values, a, b);
      } else {
        CodeMonotone(values, b, a);
      }
    }
  }

  /** Rows get equal codes exactly when they hold equal values, and codes order rows as their values sort. */
  lemma CategoryCodesFaithful(values: seq<string>, i: nat, j: nat)
    requires i < |values| && j < |values|
    ensures CategoryCodes(values)[i] == CategoryCodes(values)[j] <==> values[i] == values[j]
    ensures StrLt(values[i], values[j]) ==> CategoryCodes(values)[i] < CategoryCodes(values)[j]
  {
    CodeInjective(values, values[i], values[j]);
    if StrLt(values[i], values[j]) {
      CodeMonotone(values, values[i], values[j]);
    }
  }

  /** The smallest category gets code 0. */
  lemma SmallestCodeZero(values: seq<string>, x: string)
    requires x in values
    requires forall v :: v in values && v != x ==> StrLt(x, v)
    ensures Code(values, x) == 0
  {
    forall v | v in Below(values, x)
      ensures false
    {
      StrLtIrreflexive(x);
      if v != x {
        StrLtTransitive(x, v, x);
      }
    }
    assert Below(values, x) == {};
  }
}
