/**
 * The "Money" indicator: annualised 2-year and 10-year inflation rates of the
 * monthly CPI column, resampled to year ends, their year-over-year changes,
 * and the difference of those changes.
 */
module Money {
  import opened TimeSeries

  /** `shift(24)` with exponent 1/2, and `shift(120)` with exponent 1/10. */
  const ShortLag: nat := 24
  const ShortHorizon: nat := 2
  const LongLag: nat := 120
  const LongHorizon: nat := 10

  /** Every present CPI cell is positive. */
  predicate Positive(s: seq<Point>) {
    forall i :: 0 <= i < |s| && s[i].value.Some? ==> s[i].value.value > 0.0
  }

  function Pow(x: real, n: nat): real {
    if n == 0 then 1.0 else x * Pow(x, n - 1)
  }

  /** `((now / before) ** (1/h) - 1) * 100`, with `root(x, h)` standing for x ** (1/h). */
  function Annualised(now: real, before: real, h: nat, root: (real, nat) -> real): real
    requires before > 0.0
  {
    (root(now / before, h) - 1.0) * 100.0
  }

  /** Row i of the rate column: present when row i and row i - lag both have a CPI cell. */
  function RateAt(s: seq<Point>, lag: nat, h: nat, root: (real, nat) -> real, i: int): Option<real>
    requires Positive(s) && 0 <= i < |s|
  {
    if lag <= i && s[i].value.Some? && s[i - lag].value.Some?
    then Some(Annualised(s[i].value.value, s[i - lag].value.value, h, root))
    else None
  }

  /**
   * `((V / V.shift(lag)) ** (1/h) - 1) * 100`.  The shift is by rows, not by
   * time: rows before `lag`, and rows whose lagged row has no cell, get none.
   */
  function Rate(s: seq<Point>, lag: nat, h: nat, root: (real, nat) -> real): (r: seq<Point>)
    requires Positive(s)
    ensures |r| == |s|
    ensures forall i :: 0 <= i < |s| ==> r[i].key == s[i].key
    ensures forall i :: 0 <= i < |s| ==>
              (r[i].value.Some? <==> lag <= i && s[i].value.Some? && s[i - lag].value.Some?)
  {
    seq(|s|, i requires 0 <= i < |s| => Point(s[i].key, RateAt(s, lag, h, root, i)))
  }

  /**
   * The rate is the constant yearly percentage that, compounded over the
   * horizon, turns the lagged CPI into the current one (when `root` is the
   * h-th root).
   */
  lemma RateCompounds(s: seq<Point>, lag: nat, h: nat, root: (real, nat) -> real, i: int)
    requires Positive(s) && 0 <= i < |s|
    requires forall x: real :: x > 0.0 ==> Pow(root(x, h), h) == x
    requires Rate(s, lag, h, root)[i].value.Some?
    ensures s[i].value.value ==
            s[i - lag].value.value * Pow(1.0 + Rate(s, lag, h, root)[i].value.value / 100.0, h)
  {
    var now, before := s[i].value.value, s[i - lag].value.value;
    var q := now / before;
    var rate := Rate(s, lag, h, root)[i].value.value;
    assert rate == (root(q, h) - 1.0) * 100.0;
    assert 1.0 + rate / 100.0 == root(q, h);
    assert q > 0.0;
    assert Pow(root(q, h), h) == q;
    assert before * q == now;
  }

  /** For a constant positive CPI every defined rate is 0, defined from row `lag` on. */
  lemma ConstantCpiRateIsZero(s: seq<Point>, lag: nat, h: nat, root: (real, nat) -> real, c: real)
    requires c > 0.0 && forall i :: 0 <= i < |s| ==> s[i].value == Some(c)
    requires root(1.0, h) == 1.0
    ensures Positive(s)
    ensures forall i :: 0 <= i < |s| ==> Rate(s, lag, h, root)[i].value == (if lag <= i then Some(0.0) else None)
  {
    assert c / c == 1.0;
    forall i | lag <= i < |s| ensures RateAt(s, lag, h, root, i) == Some(0.0) {
      assert Annualised(c, c, h, root) == 0.0;
    }
  }

  /** `diff()`: row k minus row k - 1, by position; the first row has no predecessor. */
  function Diff(a: seq<Point>): (d: seq<Point>)
    ensures |d| == |a|
    ensures forall k {:trigger d[k]} :: 0 <= k < |a| ==> d[k].key == a[k].key
    ensures |a| > 0 ==> d[0].value.None?
  {
    seq(|a|, k requires 0 <= k < |a| =>
      Point(a[k].key, if k == 0 then None else Sub(a[k].value, a[k - 1].value)))
  }

  /** The example of a two-year column: only the second year gets a change. */
  lemma DiffExample()
    ensures Diff([Point(2001, Some(5.0)), Point(2002, Some(8.0))]) == [Point(2001, None), Point(2002, Some(3.0))]
  {
    var d := Diff([Point(2001, Some(5.0)), Point(2002, Some(8.0))]);
    assert d[0] == Point(2001, None);
    assert d[1] == Point(2002, Some(3.0));
  }

  /** Rows i..k of the column all hold a cell. */
  predicate PresentRun(a: seq<Point>, i: int, k: int) {
    0 <= i <= k < |a| && forall j :: i <= j <= k ==> a[j].value.Some?
  }

  /** The sum of the present cells of rows i + 1..k (missing cells add nothing). */
  function Total(d: seq<Point>, i: int, k: int): real
    requires 0 <= i <= k < |d|
    decreases k - i
  {
    if k == i then 0.0
    else Total(d, i, k - 1) + (if d[k].value.Some? then d[k].value.value else 0.0)
  }

  /** Entry k of diff is a[k] - a[k - 1], and missing when either cell is. */
  lemma DiffAt(a: seq<Point>, k: int)
    requires 0 < k < |a|
    ensures Diff(a)[k].value.Some? <==> a[k].value.Some? && a[k - 1].value.Some?
    ensures Diff(a)[k].value.Some? ==> Diff(a)[k].value.value == a[k].value.value - a[k - 1].value.value
  {
  }

  /**
   * Summing the differences back recovers the column: over a run of present
   * cells i..k, a[k] is a[i] plus the changes of rows i + 1..k. The year-end
   * rate columns start with missing years, so the run starts where they end.
   */
  lemma {:induction false} DiffTelescopes(a: seq<Point>, i: int, k: int)
    requires PresentRun(a, i, k)
    ensures a[k].value.value == a[i].value.value + Total(Diff(a), i, k)
    decreases k - i
  {
    if k > i {
      assert a[k].value.Some? && a[k - 1].value.Some?;
      DiffTelescopes(a, i, k - 1);
      DiffAt(a, k);
    }
  }

  /** Both columns come from one frame, so they share the index. */
  predicate SameLabels(a: seq<Point>, b: seq<Point>) {
    |a| == |b| && forall k :: 0 <= k < |a| ==> a[k].key == b[k].key
  }

  /** `roc_diff = 2y_roc - 10y_roc`, row by row. */
  function RocDiff(a: seq<Point>, b: seq<Point>): (m: seq<Point>)
    requires SameLabels(a, b)
    ensures SameLabels(m, a)
    ensures forall k :: 0 <= k < |a| ==> (m[k].value.Some? <==> a[k].value.Some? && b[k].value.Some?)
  {
    seq(|a|, k requires 0 <= k < |a| => Point(a[k].key, Sub(a[k].value, b[k].value)))
  }

  /** `2y_roc > 10y_roc`; a comparison with a missing cell is false. */
  function InflationMask(a: seq<Point>, b: seq<Point>): (f: seq<bool>)
    requires |a| == |b|
    ensures |f| == |a|
    ensures forall k :: 0 <= k < |a| && f[k] ==> a[k].value.Some? && b[k].value.Some?
  {
    seq(|a|, k requires 0 <= k < |a| => a[k].value.Some? && b[k].value.Some? && a[k].value.value > b[k].value.value)
  }

  /** `2y_roc < 10y_roc`; a comparison with a missing cell is false. */
  function DeflationMask(a: seq<Point>, b: seq<Point>): (f: seq<bool>)
    requires |a| == |b|
    ensures |f| == |a|
    ensures forall k :: 0 <= k < |a| && f[k] ==> a[k].value.Some? && b[k].value.Some?
  {
    seq(|a|, k requires 0 <= k < |a| => a[k].value.Some? && b[k].value.Some? && a[k].value.value < b[k].value.value)
  }

  /**
   * A year is marked inflation exactly when roc_diff is defined and positive,
   * deflation exactly when it is defined and negative: never both, and a
   * zero or missing difference is in neither.
   */
  lemma MasksFollowRocDiff(a: seq<Point>, b: seq<Point>, k: int)
    requires SameLabels(a, b) && 0 <= k < |a|
    ensures InflationMask(a, b)[k] <==> RocDiff(a, b)[k].value.Some? && RocDiff(a, b)[k].value.value > 0.0
    ensures DeflationMask(a, b)[k] <==> RocDiff(a, b)[k].value.Some? && RocDiff(a, b)[k].value.value < 0.0
    ensures !(InflationMask(a, b)[k] && DeflationMask(a, b)[k])
    ensures RocDiff(a, b)[k].value != Some(0.0) || (!InflationMask(a, b)[k] && !DeflationMask(a, b)[k])
  {
  }

  /** The year-over-year change of the year-end values of one annualised rate. */
  function Roc(cpi: seq<Point>, lag: nat, h: nat, yearOf: int -> int, root: (real, nat) -> real): (d: seq<Point>)
    requires Positive(cpi)
    ensures Sorted(d)
    ensures |d| > 0 ==> d[0].value.None?
  {
    var y := Resample(Rate(cpi, lag, h, root), yearOf);
    Diff(y)
  }

  lemma RocSameLabels(cpi: seq<Point>, yearOf: int -> int, root: (real, nat) -> real)
    requires Positive(cpi)
    ensures SameLabels(Roc(cpi, ShortLag, ShortHorizon, yearOf, root), Roc(cpi, LongLag, LongHorizon, yearOf, root))
  {
    ResampleSameLabels(Rate(cpi, ShortLag, ShortHorizon, root), Rate(cpi, LongLag, LongHorizon, root), yearOf);
  }

  /** `annual_df['roc_diff']`: the money indicator per year-end row. */
  function MoneyIndicator(cpi: seq<Point>, yearOf: int -> int, root: (real, nat) -> real): (m: seq<Point>)
    requires Positive(cpi)
    ensures Sorted(m)
    ensures |m| > 0 ==> m[0].value.None?
  {
    var short := Roc(cpi, ShortLag, ShortHorizon, yearOf, root);
    var long := Roc(cpi, LongLag, LongHorizon, yearOf, root);
    RocSameLabels(cpi, yearOf, root);
    RocDiff(short, long)
  }

  /**
   * `inflation` of the script, over the year-end rows: exactly the years
   * where the money indicator is defined and positive.
   */
  function Inflation(cpi: seq<Point>, yearOf: int -> int, root: (real, nat) -> real): (f: seq<bool>)
    requires Positive(cpi)
    ensures var m := MoneyIndicator(cpi, yearOf, root);
            |f| == |m| && forall k :: 0 <= k < |m| ==> (f[k] <==> m[k].value.Some? && m[k].value.value > 0.0)
  {
    var short := Roc(cpi, ShortLag, ShortHorizon, yearOf, root);
    var long := Roc(cpi, LongLag, LongHorizon, yearOf, root);
    RocSameLabels(cpi, yearOf, root);
    forall k | 0 <= k < |short| {
      MasksFollowRocDiff(short, long, k);
    }
    InflationMask(short, long)
  }

  /**
   * `deflation` of the script, over the year-end rows: exactly the years
   * where the money indicator is defined and negative.
   */
  function Deflation(cpi: seq<Point>, yearOf: int -> int, root: (real, nat) -> real): (f: seq<bool>)
    requires Positive(cpi)
    ensures var m := MoneyIndicator(cpi, yearOf, root);
            |f| == |m| && forall k :: 0 <= k < |m| ==> (f[k] <==> m[k].value.Some? && m[k].value.value < 0.0)
  {
    var short := Roc(cpi, ShortLag, ShortHorizon, yearOf, root);
    var long := Roc(cpi, LongLag, LongHorizon, yearOf, root);
    RocSameLabels(cpi, yearOf, root);
    forall k | 0 <= k < |short| {
      MasksFollowRocDiff(short, long, k);
    }
    DeflationMask(short, long)
  }

  predicate ZeroOrMissing(s: seq<Point>) {
    forall i :: 0 <= i < |s| ==> s[i].value.None? || s[i].value == Some(0.0)
  }

  lemma {:induction false} LastInZeroOrMissing(s: seq<Point>, y: int, yearOf: int -> int)
    requires ZeroOrMissing(s)
    ensures LastIn(s, y, yearOf).None? || LastIn(s, y, yearOf) == Some(0.0)
  {
    if s != [] {
      var init := s[..|s| - 1];
      assert forall i :: 0 <= i < |init| ==> init[i] == s[i];
      LastInZeroOrMissing(init, y, yearOf);
    }
  }

  lemma RocOfConstantCpi(cpi: seq<Point>, lag: nat, h: nat, yearOf: int -> int, root: (real, nat) -> real, c: real)
    requires c > 0.0 && forall i :: 0 <= i < |cpi| ==> cpi[i].value == Some(c)
    requires root(1.0, h) == 1.0
    ensures Positive(cpi) && ZeroOrMissing(Roc(cpi, lag, h, yearOf, root))
  {
    ConstantCpiRateIsZero(cpi, lag, h, root, c);
    var r := Rate(cpi, lag, h, root);
    assert ZeroOrMissing(r);
    var y := Resample(r, yearOf);
    forall k | 0 <= k < |y| ensures y[k].value.None? || y[k].value == Some(0.0) {
      LastInZeroOrMissing(r, y[k].key, yearOf);
    }
    DiffZeroOrMissing(y);
  }

  lemma DiffZeroOrMissing(a: seq<Point>)
    requires ZeroOrMissing(a)
    ensures ZeroOrMissing(Diff(a))
  {
    forall k | 0 < k < |a| ensures Diff(a)[k].value.None? || Diff(a)[k].value == Some(0.0) {
      DiffAt(a, k);
    }
  }

  /**
   * A constant positive CPI gives a money indicator that is 0 wherever it is
   * defined, so no year is marked inflation or deflation.
   */
  lemma ConstantCpiHasNoSignal(cpi: seq<Point>, yearOf: int -> int, root: (real, nat) -> real, c: real)
    requires c > 0.0 && forall i :: 0 <= i < |cpi| ==> cpi[i].value == Some(c)
    requires root(1.0, ShortHorizon) == 1.0 && root(1.0, LongHorizon) == 1.0
    ensures Positive(cpi)
    ensures ZeroOrMissing(MoneyIndicator(cpi, yearOf, root))
    ensures forall k :: 0 <= k < |Inflation(cpi, yearOf, root)| ==>
              !Inflation(cpi, yearOf, root)[k] && !Deflation(cpi, yearOf, root)[k]
  {
    RocOfConstantCpi(cpi, ShortLag, ShortHorizon, yearOf, root, c);
    RocOfConstantCpi(cpi, LongLag, LongHorizon, yearOf, root, c);
    RocSameLabels(cpi, yearOf, root);
  }
}
