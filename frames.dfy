/**
 * A column-oriented model of the pandas DataFrames the feature scripts
 * build: a frame is a sequence of named columns, each numeric (float or int
 * dtype, with missing entries), text (object dtype) or dates (datetime64).
 * The operations are the ones the scripts apply to whole columns:
 * select_dtypes, drop, selection by a name list, to_numeric, median and
 * fillna.
 */
module Frames {
  import opened Wrappers
  import opened Decimal
  import opened Windows
  import opened Sorting

  datatype Cells =
    | Numeric(values: seq<Option<real>>)
    | Text(texts: seq<Option<string>>)
    | Dates(days: seq<int>)

  datatype Column = Column(name: string, cells: Cells)

  type Frame = seq<Column>

  function Height(c: Cells): nat {
    match c
    case Numeric(xs) => |xs|
    case Text(ts) => |ts|
    case Dates(ds) => |ds|
  }

  /** Every column has n rows. */
  predicate Rectangular(f: Frame, n: nat) {
    forall j :: 0 <= j < |f| ==> Height(f[j].cells) == n
  }

  function Names(f: Frame): seq<string> {
    seq(|f|, j requires 0 <= j < |f| => f[j].name)
  }

  /** dtype.kind in "iuf", the kinds select_dtypes(include=[np.number]) keeps. */
  predicate IsNumeric(c: Column) {
    c.cells.Numeric?
  }

  // ---------------------------------------------------------------------
  // Choosing columns
  // ---------------------------------------------------------------------

  /** select_dtypes(include=[np.number]): the numeric columns, in frame order. */
  function NumericColumns(f: Frame): (g: Frame)
    ensures forall c :: c in g <==> c in f && IsNumeric(c)
  {
    if f == [] then []
    else
      var front := f[..|f| - 1];
      assert f == front + [f[|f| - 1]];
      NumericColumns(front) + (if IsNumeric(f[|f| - 1]) then [f[|f| - 1]] else [])
  }

  /** drop(columns=...): every column whose name is in drop goes, the rest keep their order. */
  function Without(f: Frame, drop: set<string>): (g: Frame)
    ensures forall c :: c in g <==> c in f && c.name !in drop
    ensures |g| <= |f|
  {
    if f == [] then []
    else
      var front := f[..|f| - 1];
      assert f == front + [f[|f| - 1]];
      Without(front, drop) + (if f[|f| - 1].name in drop then [] else [f[|f| - 1]])
  }

  /** df[name] on a frame: the first column of that name. */
  function Lookup(f: Frame, name: string): (r: Option<Column>)
    ensures r.Some? <==> exists j :: 0 <= j < |f| && f[j].name == name
    ensures r.Some? ==> r.value in f && r.value.name == name
  {
    if f == [] then None
    else if f[0].name == name then Some(f[0])
    else
      var r := Lookup(f[1..], name);
      assert forall j :: 1 <= j < |f| ==> f[j] == f[1..][j - 1];
      r
  }

  /** [c for c in wanted if c in ns]. */
  function Kept(wanted: seq<string>, ns: seq<string>): (r: seq<string>)
    ensures forall w :: w in r <==> w in wanted && w in ns
  {
    if wanted == [] then []
    else
      var front := wanted[..|wanted| - 1];
      var w := wanted[|wanted| - 1];
      assert wanted == front + [w];
      Kept(front, ns) + (if w in ns then [w] else [])
  }

  /**
   * df[[c for c in wanted if c in df.columns]]: the columns named in wanted
   * that the frame has, in the order of wanted.
   */
  function Select(f: Frame, wanted: seq<string>): (g: Frame)
    ensures forall c :: c in g ==> c in f && c.name in wanted
  {
    if wanted == [] then []
    else
      var front := wanted[..|wanted| - 1];
      Select(f, front) + (match Lookup(f, wanted[|wanted| - 1]) case Some(c) => [c] case None => [])
  }

  // ---------------------------------------------------------------------
  // Median and filling
  // ---------------------------------------------------------------------

  /**
   * Series.median() with skipna: the middle value of the sorted present
   * values, or the mean of the two middle ones when their count is even;
   * missing when no value is present.
   */
  function Median(xs: seq<Option<real>>): (m: Option<real>)
    ensures m.None? <==> Present(xs) == []
  {
    var vs := SortReals(Present(xs));
    if vs == [] then None else Some(Middle(vs))
  }

  /** The middle value of a sorted non-empty sequence, or the mean of the two middle ones. */
  function Middle(vs: seq<real>): real
    requires vs != []
  {
    if |vs| % 2 == 1 then vs[|vs| / 2]
    else (vs[|vs| / 2 - 1] + vs[|vs| / 2]) / 2.0
  }

  /** fillna(v): missing entries become v, present ones are kept. */
  function FillNa(xs: seq<Option<real>>, v: real): (r: seq<Option<real>>)
    ensures |r| == |xs|
    ensures forall i :: 0 <= i < |xs| ==> r[i] == (if xs[i].Some? then xs[i] else Some(v))
  {
    seq(|xs|, i requires 0 <= i < |xs| => if xs[i].Some? then xs[i] else Some(v))
  }

  /** fillna(median()): a column with no value present stays as it is. */
  function FillMedian(xs: seq<Option<real>>): (r: seq<Option<real>>)
    ensures |r| == |xs|
    ensures forall i :: 0 <= i < |xs| && xs[i].Some? ==> r[i] == xs[i]
    ensures forall i :: 0 <= i < |xs| && xs[i].None? ==> r[i] == Median(xs)
  {
    match Median(xs)
    case None => xs
    case Some(m) => FillNa(xs, m)
  }

  // ---------------------------------------------------------------------
  // Per-column operations, applied by name
  // ---------------------------------------------------------------------

  /** The two whole-column rewrites the scripts apply by name. */
  datatype ColumnOp = ToNumericOp | FillMedianOp

  /**
   * pd.to_numeric(errors="coerce") on a column: numeric columns stay, text
   * cells are parsed, unparsable ones become missing.
   */
  function Coerce(c: Cells): (r: Cells)
    ensures Height(r) == Height(c)
    ensures c.Text? ==> r == Numeric(seq(|c.texts|, i requires 0 <= i < |c.texts| => ToNumeric(c.texts[i])))
    ensures !c.Text? ==> r == c
  {
    match c
    case Numeric(xs) => c
    case Text(ts) => Numeric(seq(|ts|, i requires 0 <= i < |ts| => ToNumeric(ts[i])))
    case Dates(ds) => c
  }

  /** fillna(median()) on a numeric column; other kinds are never filled by the scripts. */
  function FillCells(c: Cells): (r: Cells)
    ensures Height(r) == Height(c)
  {
    match c
    case Numeric(xs) => Numeric(FillMedian(xs))
    case Text(_) => c
    case Dates(_) => c
  }

  function ApplyOp(op: ColumnOp, c: Column): (r: Column)
    ensures r.name == c.name
    ensures Height(r.cells) == Height(c.cells)
  {
    match op
    case ToNumericOp => Column(c.name, Coerce(c.cells))
    case FillMedianOp => Column(c.name, FillCells(c.cells))
  }

  /**
   * The frame after `for col in names: if col in df.columns: df[col] = op(df[col])`:
   * columns named in names are rewritten, every other column is kept.
   */
  function ApplyNamed(f: Frame, names: seq<string>, op: ColumnOp): (g: Frame)
    ensures |g| == |f| && Names(g) == Names(f)
    ensures forall j :: 0 <= j < |f| && f[j].name !in names ==> g[j] == f[j]
  {
    seq(|f|, j requires 0 <= j < |f| => if f[j].name in names then ApplyOp(op, f[j]) else f[j])
  }

  // ---------------------------------------------------------------------
  // The loops of the scripts
  // ---------------------------------------------------------------------

  /** The conversion and fill loops: op applied to each listed column in turn. */
  method ApplyToNamed(f: Frame, names: seq<string>, op: ColumnOp) returns (g: Frame)
    ensures g == ApplyNamed(f, names, op)
  {
    g := f;
    for i := 0 to |names|
      invariant g == ApplyNamed(f, names[..i], op)
    {
      ApplyNamedStep(f, names[..i], names[i], op);
      assert names[..i + 1] == names[..i] + [names[i]];
      g := ApplyNamed(g, [names[i]], op);
    }
    assert names[..|names|] == names;
  }

  /** The names of a list, as a set. */
  function SetOf(names: seq<string>): (r: set<string>)
    ensures forall x :: x in r <==> x in names
  {
    if names == [] then {}
    else
      var front := names[..|names| - 1];
      assert names == front + [names[|names| - 1]];
      SetOf(front) + {names[|names| - 1]}
  }

  /** The meta loop: `for mc in names: if mc in df.columns: df = df.drop(columns=[mc])`. */
  method DropEach(f: Frame, names: seq<string>) returns (g: Frame)
    ensures g == Without(f, SetOf(names))
  {
    g := f;
    WithoutNone(f);
    for i := 0 to |names|
      invariant g == Without(f, SetOf(names[..i]))
    {
      assert names[..i + 1][..i] == names[..i];
      WithoutTwice(f, SetOf(names[..i]), {names[i]});
      g := Without(g, {names[i]});
    }
    assert names[..|names|] == names;
  }

  /**
   * The leakage loop: `for c in list(df.columns): if c in drop: df = df.drop(columns=[c])`,
   * which runs over the column names as they were before the loop.
   */
  method DropMatching(f: Frame, drop: set<string>) returns (g: Frame)
    ensures g == Without(f, drop)
  {
    var cols := Names(f);
    g := f;
    DropMatchingStart(f, drop, cols);
    for i := 0 to |cols|
      invariant g == Without(f, drop * SetOf(cols[..i]))
    {
      DropMatchingStep(f, drop, cols, i);
      if cols[i] in drop {
        g := Without(g, {cols[i]});
      }
    }
    DropMatchingDone(f, drop);
  }

  lemma DropMatchingStart(f: Frame, drop: set<string>, cols: seq<string>)
    ensures Without(f, drop * SetOf(cols[..0])) == f
  {
    assert drop * SetOf(cols[..0]) == {};
    WithoutNone(f);
  }

  lemma DropMatchingStep(f: Frame, drop: set<string>, cols: seq<string>, i: nat)
    requires i < |cols|
    ensures var before := Without(f, drop * SetOf(cols[..i]));
      (if cols[i] in drop then Without(before, {cols[i]}) else before)
         == Without(f, drop * SetOf(cols[..i + 1]))
  {
    var seen := cols[..i];
    var c := cols[i];
    assert cols[..i + 1] == seen + [c];
    assert SetOf(seen + [c]) == SetOf(seen) + {c};
    if c in drop {
      WithoutTwice(f, drop * SetOf(seen), {c});
      assert drop * SetOf(seen) + {c} == drop * SetOf(seen + [c]);
    } else {
      assert drop * SetOf(seen) == drop * SetOf(seen + [c]);
    }
  }

  lemma DropMatchingDone(f: Frame, drop: set<string>)
    ensures Without(f, drop * SetOf(Names(f)[..|f|])) == Without(f, drop)
  {
    var cols := Names(f);
    assert cols[..|cols|] == cols;
    forall j | 0 <= j < |f|
      ensures f[j].name in drop * SetOf(cols) <==> f[j].name in drop
    {
      assert cols[j] == f[j].name;
    }
    WithoutAgree(f, drop * SetOf(cols), drop);
  }

  // ---------------------------------------------------------------------
  // Lemmas
  // ---------------------------------------------------------------------

  lemma {:induction false} WithoutNone(f: Frame)
    ensures Without(f, {}) == f
  {
    if f != [] {
      var front := f[..|f| - 1];
      WithoutNone(front);
      assert Without(f, {}) == Without(front, {}) + [f[|f| - 1]];
      assert f == front + [f[|f| - 1]];
    }
  }

  /** Dropping in two steps is dropping the union. */
  lemma {:induction false} WithoutTwice(f: Frame, a: set<string>, b: set<string>)
    ensures Without(Without(f, a), b) == Without(f, a + b)
  {
    if f != [] {
      var front := f[..|f| - 1];
      var last := f[|f| - 1];
      WithoutTwice(front, a, b);
      WithoutAppend(Without(front, a), if last.name in a then [] else [last], b);
    }
  }

  /** Only the names a frame has matter to a drop. */
  lemma {:induction false} WithoutAgree(f: Frame, a: set<string>, b: set<string>)
    requires forall j :: 0 <= j < |f| ==> (f[j].name in a <==> f[j].name in b)
    ensures Without(f, a) == Without(f, b)
  {
    if f != [] {
      WithoutAgree(f[..|f| - 1], a, b);
    }
  }

  /** A drop works column by column: it distributes over concatenation. */
  lemma {:induction false} WithoutAppend(f: Frame, h: Frame, drop: set<string>)
    ensures Without(f + h, drop) == Without(f, drop) + Without(h, drop)
  {
    if h == [] {
      assert f + h == f;
    } else {
      var front := h[..|h| - 1];
      var last := h[|h| - 1];
      WithoutAppend(f, front, drop);
      AppendLast(f, h);
      WithoutLast(f + h, drop);
      WithoutLast(h, drop);
      var tail := if last.name in drop then [] else [last];
      Regroup(Without(f + h, drop), Without(f + front, drop), Without(f, drop), Without(front, drop), Without(h, drop), tail);
    }
  }

  /** The recursion step of Without. */
  lemma WithoutLast(g: Frame, drop: set<string>)
    requires g != []
    ensures Without(g, drop) == Without(g[..|g| - 1], drop) + (if g[|g| - 1].name in drop then [] else [g[|g| - 1]])
  {
  }

  /** The last column of f + h and what precedes it. */
  lemma AppendLast(f: Frame, h: Frame)
    requires h != []
    ensures (f + h)[..|f + h| - 1] == f + h[..|h| - 1] && (f + h)[|f + h| - 1] == h[|h| - 1]
  {
  }

  /** The sequence step of WithoutAppend: whole = (left + mid) + tail and right = mid + tail give whole = left + right. */
  lemma Regroup(whole: Frame, front: Frame, left: Frame, mid: Frame, right: Frame, tail: Frame)
    requires whole == front + tail && front == left + mid && right == mid + tail
    ensures whole == left + right
  {
  }

  /** select_dtypes keeps column order: it distributes over a split of the columns. */
  lemma {:induction false} NumericColumnsAppend(f: Frame, h: Frame)
    ensures NumericColumns(f + h) == NumericColumns(f) + NumericColumns(h)
  {
    if h == [] {
      assert f + h == f;
    } else {
      var front := h[..|h| - 1];
      var last := h[|h| - 1];
      NumericColumnsAppend(f, front);
      AppendLast(f, h);
      NumericLast(f + h);
      NumericLast(h);
      var tail := if IsNumeric(last) then [last] else [];
      Regroup(NumericColumns(f + h), NumericColumns(f + front), NumericColumns(f), NumericColumns(front), NumericColumns(h), tail);
    }
  }

  /** The recursion step of NumericColumns. */
  lemma NumericLast(g: Frame)
    requires g != []
    ensures NumericColumns(g) == NumericColumns(g[..|g| - 1]) + (if IsNumeric(g[|g| - 1]) then [g[|g| - 1]] else [])
  {
  }

  /** The columns a selection keeps are exactly the wanted names the frame has, in wanted order. */
  lemma {:induction false} SelectNames(f: Frame, wanted: seq<string>)
    ensures Names(Select(f, wanted)) == Kept(wanted, Names(f))
  {
    if wanted != [] {
      var front := wanted[..|wanted| - 1];
      var w := wanted[|wanted| - 1];
      SelectNames(f, front);
      var tail := match Lookup(f, w) case Some(c) => [c] case None => [];
      NamesHas(f, w);
      NamesAppend(Select(f, front), tail);
      assert Names(tail) == (if w in Names(f) then [w] else []);
    }
  }

  /** A name occurs among a frame's names exactly when a lookup finds it. */
  lemma NamesHas(f: Frame, w: string)
    ensures w in Names(f) <==> Lookup(f, w).Some?
  {
    var ns := Names(f);
    if w in ns {
      var j :| 0 <= j < |ns| && ns[j] == w;
      assert f[j].name == w;
    }
    if Lookup(f, w).Some? {
      var j :| 0 <= j < |f| && f[j].name == w;
      assert ns[j] == w;
    }
  }

  lemma NamesAppend(f: Frame, h: Frame)
    ensures Names(f + h) == Names(f) + Names(h)
  {
  }

  /** Filling with the median is idempotent: a second fill changes nothing. */
  lemma FillMedianTwice(xs: seq<Option<real>>)
    ensures FillMedian(FillMedian(xs)) == FillMedian(xs)
  {
    var r := FillMedian(xs);
    if Median(xs).Some? {
      assert |xs| > 0;
      PresentMembers(r);
      assert r[0] == Some(r[0].value);
      assert r[0].value in Present(r);
      assert FillNa(r, Median(r).value) == r;
    }
  }

  /** Each rewrite is idempotent, so applying it to a column twice equals applying it once. */
  lemma ApplyOpTwice(op: ColumnOp, c: Column)
    ensures ApplyOp(op, ApplyOp(op, c)) == ApplyOp(op, c)
  {
    match op
    case ToNumericOp =>
    case FillMedianOp =>
      if c.cells.Numeric? {
        FillMedianTwice(c.cells.values);
      }
  }

  /** One more name in the loop is one more application of ApplyNamed. */
  lemma ApplyNamedStep(f: Frame, done: seq<string>, name: string, op: ColumnOp)
    ensures ApplyNamed(ApplyNamed(f, done, op), [name], op) == ApplyNamed(f, done + [name], op)
  {
    var g := ApplyNamed(f, done, op);
    forall j | 0 <= j < |f|
      ensures ApplyNamed(g, [name], op)[j] == ApplyNamed(f, done + [name], op)[j]
    {
      if f[j].name in done && f[j].name == name {
        ApplyOpTwice(op, f[j]);
      }
    }
  }

  /** A listed column is rewritten. */
  lemma ApplyNamedAt(f: Frame, names: seq<string>, op: ColumnOp, j: nat)
    requires j < |f| && f[j].name in names
    ensures ApplyNamed(f, names, op)[j] == ApplyOp(op, f[j])
  {
  }

  /** Applying a rewrite to every name a frame has rewrites every column. */
  lemma ApplyNamedAll(f: Frame, op: ColumnOp, j: nat)
    requires j < |f|
    ensures ApplyNamed(f, Names(f), op)[j] == ApplyOp(op, f[j])
  {
    assert Names(f)[j] == f[j].name;
  }

  /** The median has at least half of the present values on each side of it. */
  lemma MedianSplits(xs: seq<Option<real>>)
    requires Median(xs).Some?
    ensures 2 * CountAtMost(Present(xs), Median(xs).value) >= |Present(xs)|
    ensures 2 * CountAtLeast(Present(xs), Median(xs).value) >= |Present(xs)|
  {
    var vs := SortReals(Present(xs));
    var m := Median(xs).value;
    assert m == Middle(vs);
    SortRealsCounts(Present(xs), m);
    MiddleSplits(vs);
  }

  /** In a sorted sequence, at least half of the values lie on each side of the middle. */
  lemma MiddleSplits(vs: seq<real>)
    requires vs != [] && Ascending(vs)
    ensures 2 * CountAtMost(vs, Middle(vs)) >= |vs|
    ensures 2 * CountAtLeast(vs, Middle(vs)) >= |vs|
  {
    var m := Middle(vs);
    var h := |vs| / 2;
    if |vs| % 2 == 1 {
      CountAtMostPrefix(vs, m, h + 1);
      CountAtLeastSuffix(vs, m, h);
    } else {
      assert vs[h - 1] <= m <= vs[h];
      CountAtMostPrefix(vs, m, h);
      CountAtLeastSuffix(vs, m, h);
    }
  }

  /** The median lies within any bounds that hold of every present value. */
  lemma MedianWithin(xs: seq<Option<real>>, lo: real, hi: real)
    requires Median(xs).Some?
    requires forall i :: 0 <= i < |xs| && xs[i].Some? ==> lo <= xs[i].value <= hi
    ensures lo <= Median(xs).value <= hi
  {
    var vs := SortReals(Present(xs));
    var h := |vs| / 2;
    PresentMembers(xs);
    assert forall v :: v in multiset(vs) ==> v in Present(xs);
    forall k | 0 <= k < |vs|
      ensures lo <= vs[k] <= hi
    {
      assert vs[k] in multiset(vs);
      assert Some(vs[k]) in xs;
    }
    if |vs| % 2 == 0 {
      assert lo <= vs[h - 1] <= hi && lo <= vs[h] <= hi;
    }
  }

  /** A filled column has no missing entry unless nothing was present to take the median of. */
  lemma FilledIsComplete(xs: seq<Option<real>>)
    requires Present(xs) != []
    ensures forall i :: 0 <= i < |xs| ==> FillMedian(xs)[i].Some?
  {
  }
}
