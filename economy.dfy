/**
 * The "Economy" indicator: the SP500 / oil price ratio on the days both are
 * quoted, its trailing 2555-day mean, the distance of the ratio from that
 * mean, and the year-end values of that distance.
 */
module Economy {
  import opened TimeSeries

  /** A row of a column with no missing cell: the ratio and what derives from it. */
  datatype Sample = Sample(key: int, x: real)

  /** `rolling(window='2555D')`: the window spans 2555 days. */
  const Span: nat := 2555

  predicate SamplesSorted(r: seq<Sample>) {
    forall i, j :: 0 <= i < j < |r| ==> r[i].key < r[j].key
  }

  /** Every present oil price is non-zero, so the ratio is finite. */
  predicate NonZero(s: seq<Point>) {
    forall i :: 0 <= i < |s| && s[i].value.Some? ==> s[i].value.value != 0.0
  }

  lemma {:induction false} ValueAtNonZero(s: seq<Point>, t: int)
    requires NonZero(s) && ValueAt(s, t).Some?
    ensures ValueAt(s, t).value != 0.0
  {
    if s[0].key != t {
      ValueAtNonZero(s[1..], t);
    }
  }

  /** Every joined row carries an oil price of the oil column, hence a non-zero one. */
  lemma JoinedOilNonZero(sp: seq<Point>, cl: seq<Point>)
    requires Sorted(sp) && Sorted(cl) && NonZero(cl)
    ensures forall k :: 0 <= k < |InnerJoin(sp, cl)| ==> InnerJoin(sp, cl)[k].second != 0.0
  {
    InnerJoinSpec(sp, cl);
    var c := InnerJoin(sp, cl);
    forall k | 0 <= k < |c| ensures c[k].second != 0.0 {
      ValueAtNonZero(cl, c[k].key);
    }
  }

  /** `Ratio = SP500 / CL1`: the ratio times the oil price is the equity price. */
  function Ratios(c: seq<Joined>): (r: seq<Sample>)
    requires forall k :: 0 <= k < |c| ==> c[k].second != 0.0
    ensures |r| == |c|
    ensures forall k :: 0 <= k < |c| ==> r[k].key == c[k].key && r[k].x * c[k].second == c[k].first
  {
    seq(|c|, k requires 0 <= k < |c| => Sample(c[k].key, c[k].first / c[k].second))
  }

  function Sum(xs: seq<real>): real {
    if xs == [] then 0.0 else Sum(xs[..|xs| - 1]) + xs[|xs| - 1]
  }

  function Mean(xs: seq<real>): real
    requires xs != []
  {
    Sum(xs) / (|xs| as real)
  }

  function Values(r: seq<Sample>): (v: seq<real>)
    ensures |v| == |r|
    ensures forall k {:trigger v[k]} :: 0 <= k < |r| ==> v[k] == r[k].x
  {
    seq(|r|, k requires 0 <= k < |r| => r[k].x)
  }

  /** The values of the rows of `r` dated after `lo`, in row order. */
  function InWindow(r: seq<Sample>, lo: int): (w: seq<real>)
    ensures r != [] && r[|r| - 1].key > lo ==> w != []
  {
    if r == [] then []
    else InWindow(r[..|r| - 1], lo) + (if r[|r| - 1].key > lo then [r[|r| - 1].x] else [])
  }

  /**
   * The window of row i: the rows up to i dated in (t - span, t], t the date
   * of row i (pandas' default right-closed time window).  It holds row i.
   */
  function Window(r: seq<Sample>, i: int, span: nat): (w: seq<real>)
    requires 0 <= i < |r| && span > 0
    ensures w != []
  {
    InWindow(r[..i + 1], r[i].key - span)
  }

  /** `rolling(window=span days, min_periods=1).mean()`. */
  function MovingAverage(r: seq<Sample>, span: nat): (m: seq<Sample>)
    requires span > 0
    ensures |m| == |r|
    ensures forall i :: 0 <= i < |r| ==> m[i].key == r[i].key
  {
    seq(|r|, i requires 0 <= i < |r| => Sample(r[i].key, Mean(Window(r, i, span))))
  }

  lemma MovingAverageAt(r: seq<Sample>, span: nat, i: int)
    requires span > 0 && 0 <= i < |r|
    ensures MovingAverage(r, span)[i].x == Mean(Window(r, i, span))
  {
  }

  /** `economy = Ratio - MA_7Y`: non-negative exactly where the ratio is at or above its mean. */
  function Deviation(r: seq<Sample>, span: nat): (e: seq<Sample>)
    requires span > 0
    ensures |e| == |r|
    ensures forall i :: 0 <= i < |r| ==> e[i].key == r[i].key
    ensures forall i :: 0 <= i < |r| ==> (e[i].x >= 0.0 <==> r[i].x >= MovingAverage(r, span)[i].x)
  {
    var m := MovingAverage(r, span);
    seq(|r|, i requires 0 <= i < |r| => Sample(r[i].key, r[i].x - m[i].x))
  }

  /** The green fill: `Ratio >= MA_7Y`, exactly the rows where economy is non-negative. */
  function AboveTrend(r: seq<Sample>, span: nat): (f: seq<bool>)
    requires span > 0
    ensures |f| == |r|
    ensures forall i :: 0 <= i < |r| ==> (f[i] <==> Deviation(r, span)[i].x >= 0.0)
  {
    var m := MovingAverage(r, span);
    seq(|r|, i requires 0 <= i < |r| => r[i].x >= m[i].x)
  }

  /** The red fill: `Ratio < MA_7Y`, exactly the rows where economy is negative. */
  function BelowTrend(r: seq<Sample>, span: nat): (f: seq<bool>)
    requires span > 0
    ensures |f| == |r|
    ensures forall i :: 0 <= i < |r| ==> (f[i] <==> Deviation(r, span)[i].x < 0.0)
  {
    var m := MovingAverage(r, span);
    seq(|r|, i requires 0 <= i < |r| => r[i].x < m[i].x)
  }

  /** Every row is filled green or red and not both; green exactly where economy >= 0. */
  lemma TrendMasksPartition(r: seq<Sample>, span: nat, i: int)
    requires span > 0 && 0 <= i < |r|
    ensures AboveTrend(r, span)[i] != BelowTrend(r, span)[i]
    ensures AboveTrend(r, span)[i] <==> Deviation(r, span)[i].x >= 0.0
  {
  }

  // ---------------------------------------------------------------------
  // What the window holds

  lemma ValuesAppend(r: seq<Sample>, p: Sample)
    ensures Values(r + [p]) == Values(r) + [p.x]
  {
    assert forall k :: 0 <= k < |r| ==> (r + [p])[k] == r[k];
  }

  /**
   * In a sorted column the rows dated after `lo` form a suffix, starting at
   * the returned row, and the window is the values of that suffix.
   */
  lemma {:induction false} InWindowSuffix(r: seq<Sample>, lo: int) returns (k: nat)
    requires SamplesSorted(r)
    ensures k <= |r|
    ensures InWindow(r, lo) == Values(r[k..])
    ensures forall j :: 0 <= j < |r| ==> (k <= j <==> r[j].key > lo)
  {
    if r == [] {
      return 0;
    }
    var n := |r|;
    var init := r[..n - 1];
    var last := r[n - 1];
    assert r == init + [last];
    var k' := InWindowSuffix(init, lo);
    if last.key > lo {
      k := k';
      WindowGrows(init, last, lo, k);
      forall j | 0 <= j < n ensures k <= j <==> r[j].key > lo {
        if j < n - 1 {
          assert init[j] == r[j];
        }
      }
    } else {
      k := n;
      forall j | 0 <= j < n ensures r[j].key <= lo {
        if j < n - 1 {
          assert r[j].key < r[n - 1].key;
        }
      }
      assert k' == n - 1 by {
        if n > 1 {
          assert init[n - 2] == r[n - 2];
        }
      }
      WindowStays(init, last, lo);
      assert Values(r[k..]) == [];
    }
  }

  lemma WindowGrows(init: seq<Sample>, last: Sample, lo: int, k: nat)
    requires k <= |init| && InWindow(init, lo) == Values(init[k..]) && last.key > lo
    ensures InWindow(init + [last], lo) == Values((init + [last])[k..])
  {
    var r := init + [last];
    assert r[..|r| - 1] == init;
    assert r[k..] == init[k..] + [last];
    ValuesAppend(init[k..], last);
  }

  lemma WindowStays(init: seq<Sample>, last: Sample, lo: int)
    requires last.key <= lo
    ensures InWindow(init + [last], lo) == InWindow(init, lo)
  {
    assert (init + [last])[..|init|] == init;
  }

  /**
   * MA_7Y at row i is the mean of the ratios of exactly the rows dated in
   * (t - span, t], t the date of row i: rows k..i for the returned k.
   */
  lemma TrailingMean(r: seq<Sample>, span: nat, i: int) returns (k: nat)
    requires SamplesSorted(r) && span > 0 && 0 <= i < |r|
    ensures k <= i
    ensures MovingAverage(r, span)[i].x == Mean(Values(r[k..i + 1]))
    ensures forall j :: 0 <= j < |r| ==> (k <= j <= i <==> r[i].key - span < r[j].key <= r[i].key)
  {
    k := WindowSuffix(r, span, i);
    MovingAverageAt(r, span, i);
  }

  /** The window of row i is the ratios of a suffix of rows 0..i, the rows dated in (t - span, t]. */
  lemma WindowSuffix(r: seq<Sample>, span: nat, i: int) returns (k: nat)
    requires SamplesSorted(r) && span > 0 && 0 <= i < |r|
    ensures k <= i
    ensures Window(r, i, span) == Values(r[k..i + 1])
    ensures forall j :: 0 <= j < |r| ==> (k <= j <= i <==> r[i].key - span < r[j].key <= r[i].key)
  {
    var prefix := r[..i + 1];
    var lo := r[i].key - span;
    k := InWindowSuffix(prefix, lo);
    assert prefix[k..] == r[k..i + 1];
    assert prefix[i] == r[i];
    forall j | 0 <= j < |r| ensures k <= j <= i <==> lo < r[j].key <= r[i].key {
      if j <= i {
        assert prefix[j] == r[j];
        assert r[j].key <= r[i].key;
      } else {
        assert r[j].key > r[i].key;
      }
    }
  }

  /** A window longer than the history holds every row so far: the mean of the prefix. */
  lemma WholeHistoryMean(r: seq<Sample>, span: nat, i: int)
    requires SamplesSorted(r) && span > 0 && 0 <= i < |r|
    requires r[i].key - r[0].key < span
    ensures MovingAverage(r, span)[i].x == Mean(Values(r[..i + 1]))
  {
    var k := TrailingMean(r, span, i);
    assert r[0].key <= r[i].key;
    assert k == 0;
    assert r[0..i + 1] == r[..i + 1];
  }

  lemma {:induction false} SumBounds(xs: seq<real>, lo: real, hi: real)
    requires forall k :: 0 <= k < |xs| ==> lo <= xs[k] <= hi
    ensures (|xs| as real) * lo <= Sum(xs) <= (|xs| as real) * hi
  {
    if xs != [] {
      var init := xs[..|xs| - 1];
      assert forall k :: 0 <= k < |init| ==> init[k] == xs[k];
      SumBounds(init, lo, hi);
      var n := |init| as real;
      assert |xs| as real == n + 1.0;
      assert (n + 1.0) * lo == n * lo + lo;
      assert (n + 1.0) * hi == n * hi + hi;
      var last := xs[|xs| - 1];
      assert Sum(xs) == Sum(init) + last;
      assert lo <= last <= hi;
      assert n * lo <= Sum(init) <= n * hi;
      assert (|xs| as real) * lo == n * lo + lo;
      assert (|xs| as real) * hi == n * hi + hi;
    }
  }

  lemma MeanBounds(xs: seq<real>, lo: real, hi: real)
    requires xs != [] && forall k :: 0 <= k < |xs| ==> lo <= xs[k] <= hi
    ensures lo <= Mean(xs) <= hi
  {
    SumBounds(xs, lo, hi);
    var n := |xs| as real;
    assert Mean(xs) * n == Sum(xs);
  }

  /** The moving average lies between the least and the greatest ratio of the rows so far. */
  lemma MovingAverageBounded(r: seq<Sample>, span: nat, i: int, lo: real, hi: real)
    requires SamplesSorted(r) && span > 0 && 0 <= i < |r|
    requires forall j :: 0 <= j <= i ==> lo <= r[j].x <= hi
    ensures lo <= MovingAverage(r, span)[i].x <= hi
  {
    var k := TrailingMean(r, span, i);
    var w := Values(r[k..i + 1]);
    forall j | 0 <= j < |w| ensures lo <= w[j] <= hi {
      assert w[j] == r[k + j].x;
    }
    MeanBounds(w, lo, hi);
  }

  lemma MeanSingle(x: real)
    ensures Mean([x]) == x
  {
    assert [x][..0] == [];
    assert Sum([x]) == x;
    assert |[x]| as real == 1.0;
  }

  /** On the first row the window holds that row alone, so economy starts at 0. */
  lemma DeviationStartsAtZero(r: seq<Sample>, span: nat)
    requires span > 0 && r != []
    ensures MovingAverage(r, span)[0].x == r[0].x
    ensures Deviation(r, span)[0].x == 0.0
  {
    var p := r[..1];
    var lo := r[0].key - span;
    assert p[..|p| - 1] == [];
    assert InWindow(p, lo) == InWindow([], lo) + [p[0].x];
    assert Window(r, 0, span) == [r[0].x];
    MeanSingle(r[0].x);
    var m := MovingAverage(r, span);
    assert m[0].x == Mean(Window(r, 0, span)) == r[0].x;
    assert Deviation(r, span)[0].x == r[0].x - m[0].x;
  }

  /** Three ratios within one window: the mean at the third is 10, economy there is -2. */
  lemma ThreeRatioExample()
    ensures MovingAverage([Sample(0, 10.0), Sample(1, 12.0), Sample(2, 8.0)], Span)[2].x == 10.0
    ensures Deviation([Sample(0, 10.0), Sample(1, 12.0), Sample(2, 8.0)], Span)[2].x == -2.0
  {
    var r := [Sample(0, 10.0), Sample(1, 12.0), Sample(2, 8.0)];
    WholeHistoryMean(r, Span, 2);
    var v := Values(r[..3]);
    assert v == [10.0, 12.0, 8.0];
    assert Sum([10.0]) == 10.0 by {
      assert [10.0][..0] == [];
    }
    assert Sum([10.0, 12.0]) == 22.0 by {
      assert [10.0, 12.0][..1] == [10.0];
    }
    assert Sum(v) == 30.0 by {
      assert v[..2] == [10.0, 12.0];
    }
  }

  // ---------------------------------------------------------------------
  // The whole indicator

  function AsPoints(e: seq<Sample>): (s: seq<Point>)
    ensures |s| == |e|
    ensures forall k :: 0 <= k < |e| ==> s[k] == Point(e[k].key, Some(e[k].x))
  {
    seq(|e|, k requires 0 <= k < |e| => Point(e[k].key, Some(e[k].x)))
  }

  /** The joined quotes, their ratio and the daily `economy` column. */
  function Ratio(sp: seq<Point>, cl: seq<Point>): (r: seq<Sample>)
    requires Sorted(sp) && Sorted(cl) && NonZero(cl)
    ensures SamplesSorted(r)
  {
    InnerJoinSpec(sp, cl);
    JoinedOilNonZero(sp, cl);
    Ratios(InnerJoin(sp, cl))
  }

  /** The ratio column has a row exactly at the dates where both quotes are present. */
  lemma RatioDates(sp: seq<Point>, cl: seq<Point>)
    requires Sorted(sp) && Sorted(cl) && NonZero(cl)
    ensures var r := Ratio(sp, cl);
            forall t :: (exists k :: 0 <= k < |r| && r[k].key == t) <==> ValueAt(sp, t).Some? && ValueAt(cl, t).Some?
  {
    var c := InnerJoin(sp, cl);
    InnerJoinKeys(sp, cl);
    JoinedOilNonZero(sp, cl);
    var r := Ratio(sp, cl);
    assert r == Ratios(c);
    forall t ensures (exists k :: 0 <= k < |r| && r[k].key == t) <==> t in JoinedKeys(c) {
      if exists k :: 0 <= k < |r| && r[k].key == t {
        var k :| 0 <= k < |r| && r[k].key == t;
        assert c[k].key == t;
      }
      if t in JoinedKeys(c) {
        var k :| 0 <= k < |c| && c[k].key == t;
        assert r[k].key == t;
      }
    }
  }

  /** Each row's ratio times that day's oil price is that day's equity price. */
  lemma RatioValues(sp: seq<Point>, cl: seq<Point>)
    requires Sorted(sp) && Sorted(cl) && NonZero(cl)
    ensures var r := Ratio(sp, cl);
            forall k :: 0 <= k < |r| ==>
              ValueAt(sp, r[k].key).Some? && ValueAt(cl, r[k].key).Some? &&
              r[k].x * ValueAt(cl, r[k].key).value == ValueAt(sp, r[k].key).value
  {
    var c := InnerJoin(sp, cl);
    InnerJoinValues(sp, cl);
    JoinedOilNonZero(sp, cl);
    var r := Ratio(sp, cl);
    assert r == Ratios(c);
    forall k | 0 <= k < |r|
      ensures ValueAt(sp, r[k].key).Some? && ValueAt(cl, r[k].key).Some? &&
              r[k].x * ValueAt(cl, r[k].key).value == ValueAt(sp, r[k].key).value
    {
      var p, q := c[k].first, c[k].second;
      assert r[k].key == c[k].key && r[k].x * q == p;
      assert ValueAt(sp, r[k].key) == Some(p);
      assert ValueAt(cl, r[k].key) == Some(q);
    }
  }

  /**
   * The daily `economy` column: one row per joined date, ascending; it
   * starts at 0, and it is non-negative exactly where the ratio is at or
   * above its 2555-day mean.
   */
  function EconomyDaily(sp: seq<Point>, cl: seq<Point>): (e: seq<Sample>)
    requires Sorted(sp) && Sorted(cl) && NonZero(cl)
    ensures var r := Ratio(sp, cl);
            |e| == |r| && SamplesSorted(e) &&
            (forall i :: 0 <= i < |r| ==> e[i].key == r[i].key) &&
            (e != [] ==> e[0].x == 0.0) &&
            (forall i :: 0 <= i < |r| ==> (e[i].x >= 0.0 <==> r[i].x >= MovingAverage(r, Span)[i].x))
  {
    var r := Ratio(sp, cl);
    if r == [] then Deviation(r, Span)
    else
      DeviationStartsAtZero(r, Span);
      Deviation(r, Span)
  }

  /** `df['economy'].resample('YE').last()`. */
  function EconomyAnnual(sp: seq<Point>, cl: seq<Point>, yearOf: int -> int): (a: seq<Point>)
    requires Sorted(sp) && Sorted(cl) && NonZero(cl)
    ensures Sorted(a)
  {
    Resample(AsPoints(EconomyDaily(sp, cl)), yearOf)
  }
}
