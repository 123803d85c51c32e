/**
 * The columns of the script's DataFrames, as values.  A column is a sequence
 * of rows in index order; each row has an index label and a cell that may be
 * missing (pandas' NaN).  Monthly and daily rows are labelled with a day
 * number; the rows of a year-end resampled column are labelled with their
 * calendar year.  The two transforms that both indicators use live here:
 * year-end resampling and the inner join that `dropna` leaves after two
 * columns have been aligned on their labels.
 */
module TimeSeries {

  datatype Option<+T> = None | Some(value: T)

  /** One row of a column: its index label and its cell. */
  datatype Point = Point(key: int, value: Option<real>)

  /** One row of two columns aligned on a common label, both cells present. */
  datatype Joined = Joined(key: int, first: real, second: real)

  /** The index is strictly increasing: sorted and without duplicate labels. */
  predicate Sorted(s: seq<Point>) {
    forall i, j :: 0 <= i < j < |s| ==> s[i].key < s[j].key
  }

  predicate JoinedSorted(c: seq<Joined>) {
    forall i, j :: 0 <= i < j < |c| ==> c[i].key < c[j].key
  }

  function Keys(s: seq<Point>): set<int> {
    set i | 0 <= i < |s| :: s[i].key
  }

  function JoinedKeys(c: seq<Joined>): set<int> {
    set i | 0 <= i < |c| :: c[i].key
  }

  /** A calendar: a later day never falls in an earlier year. */
  ghost predicate Monotone(yearOf: int -> int) {
    forall d, e :: d <= e ==> yearOf(d) <= yearOf(e)
  }

  /** Cell-wise subtraction, missing when either operand is missing. */
  function Sub(x: Option<real>, y: Option<real>): Option<real> {
    if x.Some? && y.Some? then Some(x.value - y.value) else None
  }

  // ---------------------------------------------------------------------
  // Looking a label up

  /** The cell of the row labelled `t`, or None when no row carries `t`. */
  function ValueAt(s: seq<Point>, t: int): Option<real> {
    if s == [] then None
    else if s[0].key == t then s[0].value
    else ValueAt(s[1..], t)
  }

  lemma {:induction false} ValueAtAbsent(s: seq<Point>, t: int)
    requires forall i :: 0 <= i < |s| ==> s[i].key != t
    ensures ValueAt(s, t).None?
  {
    if s != [] {
      ValueAtAbsent(s[1..], t);
    }
  }

  /** In a sorted column the lookup of a row's own label finds that row. */
  lemma {:induction false} ValueAtRow(s: seq<Point>, i: int)
    requires Sorted(s) && 0 <= i < |s|
    ensures ValueAt(s, s[i].key) == s[i].value
  {
    if i > 0 {
      assert s[1..][i - 1] == s[i];
      ValueAtRow(s[1..], i - 1);
    }
  }

  /** A label found in a sorted column is no smaller than its first label. */
  lemma ValueAtFound(s: seq<Point>, t: int)
    requires Sorted(s) && ValueAt(s, t).Some?
    ensures s != [] && s[0].key <= t
  {
    if s == [] || t < s[0].key {
      ValueAtAbsent(s, t);
    }
  }

  // ---------------------------------------------------------------------
  // Inner join

  /**
   * `pd.concat([a, b], axis=1).dropna()`: the outer join of two columns on
   * their labels, keeping the labels at which both cells are present, in
   * ascending label order.  The two date-indexed columns arrive sorted and
   * without duplicate dates, and `concat(axis=1)` sorts the union of their
   * dates, so the result follows the first column's order.
   */
  function InnerJoin(a: seq<Point>, b: seq<Point>): (j: seq<Joined>)
    requires Sorted(a) && Sorted(b)
    ensures |j| <= |a|
    ensures forall k :: 0 <= k < |j| ==> ValueAt(b, j[k].key) == Some(j[k].second)
  {
    if a == [] then []
    else
      var other := ValueAt(b, a[0].key);
      var head := if a[0].value.Some? && other.Some?
                  then [Joined(a[0].key, a[0].value.value, other.value)]
                  else [];
      head + InnerJoin(a[1..], b)
  }

  lemma JoinedKeysAppend(x: seq<Joined>, y: seq<Joined>)
    ensures JoinedKeys(x + y) == JoinedKeys(x) + JoinedKeys(y)
  {
    forall t | t in JoinedKeys(x + y) ensures t in JoinedKeys(x) + JoinedKeys(y) {
      var k :| 0 <= k < |x + y| && (x + y)[k].key == t;
      if k >= |x| {
        assert y[k - |x|].key == t;
      }
    }
    forall t | t in JoinedKeys(x) ensures t in JoinedKeys(x + y) {
      var k :| 0 <= k < |x| && x[k].key == t;
      assert (x + y)[k].key == t;
    }
    forall t | t in JoinedKeys(y) ensures t in JoinedKeys(x + y) {
      var k :| 0 <= k < |y| && y[k].key == t;
      assert (x + y)[|x| + k].key == t;
    }
  }

  lemma JoinedKeysSingle(j: Joined)
    ensures JoinedKeys([j]) == {j.key}
  {
    assert [j][0].key == j.key;
  }

  /**
   * The join keeps exactly the labels at which both columns have a cell,
   * each once and in ascending order, and each kept row carries the two
   * columns' cells at its label.
   */
  lemma {:induction false} InnerJoinSpec(a: seq<Point>, b: seq<Point>)
    requires Sorted(a) && Sorted(b)
    ensures JoinedSorted(InnerJoin(a, b))
    ensures forall k :: 0 <= k < |InnerJoin(a, b)| ==>
              ValueAt(a, InnerJoin(a, b)[k].key) == Some(InnerJoin(a, b)[k].first) &&
              ValueAt(b, InnerJoin(a, b)[k].key) == Some(InnerJoin(a, b)[k].second)
    ensures forall t :: t in JoinedKeys(InnerJoin(a, b)) <==> ValueAt(a, t).Some? && ValueAt(b, t).Some?
  {
    InnerJoinValues(a, b);
    InnerJoinSorted(a, b);
    InnerJoinKeys(a, b);
  }

  /** The rows of the join of the rest of `a` all come after the first row of `a`. */
  lemma InnerJoinRestBeyond(a: seq<Point>, b: seq<Point>)
    requires Sorted(a) && Sorted(b) && a != []
    requires forall k :: 0 <= k < |InnerJoin(a[1..], b)| ==> ValueAt(a[1..], InnerJoin(a[1..], b)[k].key).Some?
    ensures forall k :: 0 <= k < |InnerJoin(a[1..], b)| ==> InnerJoin(a[1..], b)[k].key > a[0].key
  {
    var rest := InnerJoin(a[1..], b);
    assert a[1..] == [] || a[1..][0].key > a[0].key;
    forall k | 0 <= k < |rest| ensures rest[k].key > a[0].key {
      ValueAtFound(a[1..], rest[k].key);
    }
  }

  lemma {:induction false} InnerJoinValues(a: seq<Point>, b: seq<Point>)
    requires Sorted(a) && Sorted(b)
    ensures forall k :: 0 <= k < |InnerJoin(a, b)| ==>
              ValueAt(a, InnerJoin(a, b)[k].key) == Some(InnerJoin(a, b)[k].first) &&
              ValueAt(b, InnerJoin(a, b)[k].key) == Some(InnerJoin(a, b)[k].second)
  {
    if a != [] {
      var rest := InnerJoin(a[1..], b);
      InnerJoinValues(a[1..], b);
      InnerJoinRestBeyond(a, b);
      var c := InnerJoin(a, b);
      if a[0].value.Some? && ValueAt(b, a[0].key).Some? {
        assert c == [Joined(a[0].key, a[0].value.value, ValueAt(b, a[0].key).value)] + rest;
        forall k | 0 < k < |c| ensures ValueAt(a, c[k].key) == ValueAt(a[1..], c[k].key) {
          assert c[k] == rest[k - 1];
        }
      } else {
        assert c == rest;
      }
    }
  }

  lemma InnerJoinSorted(a: seq<Point>, b: seq<Point>)
    requires Sorted(a) && Sorted(b)
    ensures JoinedSorted(InnerJoin(a, b))
    decreases |a|
  {
    if a != [] {
      var rest := InnerJoin(a[1..], b);
      InnerJoinSorted(a[1..], b);
      InnerJoinValues(a[1..], b);
      InnerJoinRestBeyond(a, b);
      var c := InnerJoin(a, b);
      if a[0].value.Some? && ValueAt(b, a[0].key).Some? {
        assert c == [Joined(a[0].key, a[0].value.value, ValueAt(b, a[0].key).value)] + rest;
      } else {
        assert c == rest;
      }
    }
  }

  lemma {:induction false} InnerJoinKeys(a: seq<Point>, b: seq<Point>)
    requires Sorted(a) && Sorted(b)
    ensures forall t :: t in JoinedKeys(InnerJoin(a, b)) <==> ValueAt(a, t).Some? && ValueAt(b, t).Some?
  {
    if a != [] {
      var rest := InnerJoin(a[1..], b);
      InnerJoinKeys(a[1..], b);
      var c := InnerJoin(a, b);
      var t0 := a[0].key;
      ValueAtAbsent(a[1..], t0);
      assert t0 !in JoinedKeys(rest);
      if a[0].value.Some? && ValueAt(b, t0).Some? {
        var head := [Joined(t0, a[0].value.value, ValueAt(b, t0).value)];
        assert c == head + rest;
        JoinedKeysAppend(head, rest);
        JoinedKeysSingle(head[0]);
      } else {
        assert c == rest;
      }
      forall t ensures t in JoinedKeys(c) <==> ValueAt(a, t).Some? && ValueAt(b, t).Some? {
        if t != t0 {
          assert ValueAt(a, t) == ValueAt(a[1..], t);
        }
      }
    }
  }

  // ---------------------------------------------------------------------
  // Year-end resampling

  /**
   * The last present cell among the rows of `s` that fall in year `y`, as
   * pandas' `last()` picks it (it skips missing cells); None when every row
   * of that year is missing, or there is none.
   */
  function LastIn(s: seq<Point>, y: int, yearOf: int -> int): (r: Option<real>)
    ensures r.Some? ==> exists i :: 0 <= i < |s| && yearOf(s[i].key) == y && s[i].value == r
    decreases |s|
  {
    if s == [] then None
    else
      var p := s[|s| - 1];
      if yearOf(p.key) == y && p.value.Some? then p.value else LastIn(s[..|s| - 1], y, yearOf)
  }

  /** A year's entry is missing exactly when none of that year's rows has a cell. */
  lemma {:induction false} LastInMissing(s: seq<Point>, y: int, yearOf: int -> int)
    ensures LastIn(s, y, yearOf).None? <==>
            forall i :: 0 <= i < |s| && yearOf(s[i].key) == y ==> s[i].value.None?
  {
    if s != [] {
      var init := s[..|s| - 1];
      LastInMissing(init, y, yearOf);
      assert forall i :: 0 <= i < |init| ==> init[i] == s[i];
    }
  }

  /** A year's entry is the cell of the last row of that year that has one. */
  lemma {:induction false} LastInIsLastPresent(s: seq<Point>, y: int, yearOf: int -> int, i: int)
    requires 0 <= i < |s| && yearOf(s[i].key) == y && s[i].value.Some?
    requires forall j :: i < j < |s| && yearOf(s[j].key) == y ==> s[j].value.None?
    ensures LastIn(s, y, yearOf) == s[i].value
  {
    if i < |s| - 1 {
      var init := s[..|s| - 1];
      assert init[i] == s[i];
      LastInIsLastPresent(init, y, yearOf, i);
    }
  }

  /**
   * `resample('YE').last()`: one row per calendar year, from the year of the
   * first row to the year of the last, labelled by the year, holding the
   * last present cell of that year (missing when the year has none).
   */
  function Resample(s: seq<Point>, yearOf: int -> int): (r: seq<Point>)
    ensures Sorted(r)
    ensures forall k :: 0 < k < |r| ==> r[k].key == r[k - 1].key + 1
    ensures s == [] ==> r == []
    ensures r != [] ==> r[0].key == yearOf(s[0].key) && r[|r| - 1].key == yearOf(s[|s| - 1].key)
  {
    if s == [] then []
    else
      var first := yearOf(s[0].key);
      var last := yearOf(s[|s| - 1].key);
      seq(if first <= last then last - first + 1 else 0,
          k => Point(first + k, LastIn(s, first + k, yearOf)))
  }

  /** Each year's row holds the last present cell of that year (a helper that keeps the summary below cheap). */
  lemma ResampleValues(s: seq<Point>, yearOf: int -> int)
    ensures forall k :: 0 <= k < |Resample(s, yearOf)| ==>
              Resample(s, yearOf)[k].value == LastIn(s, Resample(s, yearOf)[k].key, yearOf)
  {
  }

  /**
   * The summary of resampling a sorted column under a monotone calendar:
   * `Resample`'s own guarantees, plus that the result is empty only for an
   * empty column and that each year holds the last present cell of that year.
   */
  lemma ResampleShape(s: seq<Point>, yearOf: int -> int)
    requires Sorted(s) && Monotone(yearOf)
    ensures var r := Resample(s, yearOf);
            (r == [] <==> s == []) &&
            Sorted(r) &&
            (forall k :: 0 < k < |r| ==> r[k].key == r[k - 1].key + 1) &&
            (s != [] ==> r[0].key == yearOf(s[0].key) && r[|r| - 1].key == yearOf(s[|s| - 1].key)) &&
            (forall k :: 0 <= k < |r| ==> r[k].value == LastIn(s, r[k].key, yearOf))
  {
    ResampleValues(s, yearOf);
    if s != [] {
      var first, last := yearOf(s[0].key), yearOf(s[|s| - 1].key);
      assert s[0].key <= s[|s| - 1].key;
      assert first <= last;
      var r := Resample(s, yearOf);
      assert |r| == last - first + 1;
      assert r[0].key == first;
      assert r[|r| - 1].key == last;
    }
  }

  /** Every row's year is among the resampled years. */
  lemma ResampleCoversRows(s: seq<Point>, yearOf: int -> int, i: int)
    requires Sorted(s) && Monotone(yearOf) && 0 <= i < |s|
    ensures yearOf(s[i].key) in Keys(Resample(s, yearOf))
  {
    var r := Resample(s, yearOf);
    var first := yearOf(s[0].key);
    assert s[0].key <= s[i].key <= s[|s| - 1].key;
    assert first <= yearOf(s[i].key) <= yearOf(s[|s| - 1].key);
    var k := yearOf(s[i].key) - first;
    assert r[k].key == yearOf(s[i].key);
  }

  /** The year rows depend on the labels only, not on the cells. */
  lemma ResampleSameLabels(s: seq<Point>, t: seq<Point>, yearOf: int -> int)
    requires |s| == |t| && forall i :: 0 <= i < |s| ==> s[i].key == t[i].key
    ensures |Resample(s, yearOf)| == |Resample(t, yearOf)|
    ensures forall k :: 0 <= k < |Resample(s, yearOf)| ==> Resample(s, yearOf)[k].key == Resample(t, yearOf)[k].key
  {
  }

  lemma {:induction false} ConsecutiveYears(s: seq<Point>, yearOf: int -> int, i: int)
    requires forall j :: 0 < j < |s| ==> yearOf(s[j].key) == yearOf(s[j - 1].key) + 1
    requires 0 <= i < |s|
    ensures yearOf(s[i].key) == yearOf(s[0].key) + i
  {
    if i > 0 {
      ConsecutiveYears(s, yearOf, i - 1);
    }
  }

  /**
   * A column that already has one row per calendar year, in consecutive
   * years, comes out of resampling unchanged but for its labels, which
   * become the years.
   */
  lemma ResampleOnePerYear(s: seq<Point>, yearOf: int -> int)
    requires forall i :: 0 < i < |s| ==> yearOf(s[i].key) == yearOf(s[i - 1].key) + 1
    ensures Resample(s, yearOf) == seq(|s|, i requires 0 <= i < |s| => Point(yearOf(s[i].key), s[i].value))
  {
    var want := seq(|s|, i requires 0 <= i < |s| => Point(yearOf(s[i].key), s[i].value));
    if s != [] {
      var first := yearOf(s[0].key);
      forall i | 0 <= i < |s| ensures yearOf(s[i].key) == first + i {
        ConsecutiveYears(s, yearOf, i);
      }
      var r := Resample(s, yearOf);
      assert |r| == |s|;
      forall k | 0 <= k < |s| ensures r[k] == want[k] {
        OnePerYearCell(s, yearOf, k);
      }
    }
  }

  /** With one row per year, a year's resampled cell is that year's row. */
  lemma OnePerYearCell(s: seq<Point>, yearOf: int -> int, k: int)
    requires 0 <= k < |s|
    requires forall i :: 0 <= i < |s| ==> yearOf(s[i].key) == yearOf(s[0].key) + i
    ensures LastIn(s, yearOf(s[k].key), yearOf) == s[k].value
  {
    var y := yearOf(s[k].key);
    if s[k].value.Some? {
      LastInIsLastPresent(s, y, yearOf, k);
    } else {
      LastInMissing(s, y, yearOf);
    }
  }
}
