/**
 * The four-quadrant view: the year-end money and economy columns put side by
 * side, keeping the years where both are defined; the latest such year; and
 * a regime label read off the two signs with the boundary conventions the
 * charts use.
 */
module Quadrants {
  import opened TimeSeries
  import Money
  import Economy

  // ---------------------------------------------------------------------
  // The combined table as the script builds it

  datatype CombineError = LengthMismatch

  datatype Result<T> = Ok(value: T) | Err(error: CombineError)

  /**
   * `pd.DataFrame({'money': m, 'economy': e, 'date': m.index}).dropna()`.
   * The index of the frame is the union of the two columns' years, and the
   * `date` entry is a bare array of the money years, which pandas accepts
   * only when it is as long as that union; otherwise it raises.  When it is
   * accepted, `dropna` leaves the years where both columns are defined.
   */
  function Combine(money: seq<Point>, economy: seq<Point>): (r: Result<seq<Joined>>)
    requires Sorted(money) && Sorted(economy)
    ensures r.Err? <==> !(Keys(economy) <= Keys(money))
    ensures r.Ok? ==> r.value == InnerJoin(money, economy)
  {
    KeysCount(money);
    UnionKeepsSize(Keys(money), Keys(economy));
    if |Keys(money) + Keys(economy)| == |money| then Ok(InnerJoin(money, economy))
    else Err(LengthMismatch)
  }

  lemma {:induction false} KeysCount(s: seq<Point>)
    requires Sorted(s)
    ensures |Keys(s)| == |s|
  {
    if s != [] {
      var rest := s[1..];
      KeysCount(rest);
      KeysCons(s);
      assert s[0].key !in Keys(rest) by {
        forall i | 0 <= i < |rest| ensures rest[i].key != s[0].key {
          assert rest[i] == s[i + 1];
        }
      }
    }
  }

  lemma KeysCons(s: seq<Point>)
    requires s != []
    ensures Keys(s) == {s[0].key} + Keys(s[1..])
  {
    forall t | t in Keys(s) ensures t in {s[0].key} + Keys(s[1..]) {
      var i :| 0 <= i < |s| && s[i].key == t;
      if i > 0 {
        assert s[1..][i - 1].key == t;
      }
    }
    forall t | t in Keys(s[1..]) ensures t in Keys(s) {
      var i :| 0 <= i < |s[1..]| && s[1..][i].key == t;
      assert s[i + 1].key == t;
    }
  }

  /** Adding `b` to `a` leaves its size unchanged exactly when `b` adds no new element. */
  lemma UnionKeepsSize(a: set<int>, b: set<int>)
    ensures |a + b| == |a| <==> b <= a
  {
    if b <= a {
      assert a + b == a;
    }
    if |a + b| == |a| {
      assert (a + b) * a == a;
      assert |(a + b) - a| == 0;
      forall y | y in b ensures y in a {
        assert y in a + b;
        assert y !in (a + b) - a;
      }
    }
  }

  /**
   * With the money column ending in 2023 and the economy column already in
   * 2024, the script's table is refused, while the inner join on years
   * keeps 2023.
   */
  lemma CombineRefusesNewerEconomyYear()
    ensures Combine([Point(2023, Some(1.0))], [Point(2023, Some(2.0)), Point(2024, Some(3.0))]) == Err(LengthMismatch)
    ensures InnerJoin([Point(2023, Some(1.0))], [Point(2023, Some(2.0)), Point(2024, Some(3.0))]) == [Joined(2023, 1.0, 2.0)]
  {
    var money := [Point(2023, Some(1.0))];
    var economy := [Point(2023, Some(2.0)), Point(2024, Some(3.0))];
    assert economy[1].key == 2024;
    assert 2024 in Keys(economy);
    assert 2024 !in Keys(money) by {
      forall t | t in Keys(money) ensures t == 2023 {
        var i :| 0 <= i < |money| && money[i].key == t;
      }
    }
    assert InnerJoin(money[1..], economy) == [];
  }

  /** The years {2000, 2001, 2002} and {2001, 2002, 2003} join on {2001, 2002}, ascending. */
  lemma JoinYearsExample()
    ensures InnerJoin([Point(2000, Some(1.0)), Point(2001, Some(2.0)), Point(2002, Some(3.0))],
                      [Point(2001, Some(4.0)), Point(2002, Some(5.0)), Point(2003, Some(6.0))])
            == [Joined(2001, 2.0, 4.0), Joined(2002, 3.0, 5.0)]
  {
    var m := [Point(2000, Some(1.0)), Point(2001, Some(2.0)), Point(2002, Some(3.0))];
    var e := [Point(2001, Some(4.0)), Point(2002, Some(5.0)), Point(2003, Some(6.0))];
    assert ValueAt(e, 2000).None? by {
      ValueAtAbsent(e, 2000);
    }
    assert ValueAt(e, 2001) == Some(4.0);
    assert ValueAt(e, 2002) == Some(5.0) by {
      assert e[1..][0].key == 2002;
    }
    assert m[1..][1..][1..] == [];
    assert InnerJoin(m[1..][1..], e) == [Joined(2002, 3.0, 5.0)];
    assert InnerJoin(m[1..], e) == [Joined(2001, 2.0, 4.0), Joined(2002, 3.0, 5.0)];
  }

  // ---------------------------------------------------------------------
  // The latest point

  /** `combined_df.iloc[-1]`: the row with the greatest year; none for an empty table. */
  function Latest(c: seq<Joined>): (p: Option<Joined>)
    ensures p.Some? <==> c != []
    ensures p.Some? ==> p.value in c
    ensures JoinedSorted(c) && p.Some? ==> forall k :: 0 <= k < |c| ==> c[k].key <= p.value.key
  {
    if c == [] then None else Some(c[|c| - 1])
  }

  // ---------------------------------------------------------------------
  // Regimes

  /** The economy chart fills green where `Ratio >= MA_7Y`: economy >= 0. */
  datatype Growth = Expansion | Contraction

  /** The money chart marks `2y_roc > 10y_roc` and `2y_roc < 10y_roc`; a zero difference is neither. */
  datatype MoneySignal = Inflationary | Deflationary | Flat

  datatype Regime = Regime(growth: Growth, money: MoneySignal)

  /** The regime of one row of the combined table (`first` is money, `second` economy). */
  function Classify(p: Joined): (g: Regime)
    ensures g.money == Flat <==> p.first == 0.0
    ensures g.growth == Expansion <==> !(p.second < 0.0)
  {
    Regime(if p.second >= 0.0 then Expansion else Contraction,
           if p.first > 0.0 then Inflationary else if p.first < 0.0 then Deflationary else Flat)
  }

  /**
   * The label agrees with the charts' masks: Inflationary exactly where the
   * inflation mask holds, Deflationary exactly where the deflation mask holds,
   * Expansion exactly where the ratio is at or above its moving average.
   */
  lemma ClassifyMatchesMasks(a: seq<Point>, b: seq<Point>, k: int, r: seq<Economy.Sample>, span: nat, i: int)
    requires Money.SameLabels(a, b) && 0 <= k < |a| && Money.RocDiff(a, b)[k].value.Some?
    requires span > 0 && 0 <= i < |r|
    ensures var g := Classify(Joined(a[k].key, Money.RocDiff(a, b)[k].value.value, Economy.Deviation(r, span)[i].x));
            (g.money == Inflationary <==> Money.InflationMask(a, b)[k]) &&
            (g.money == Deflationary <==> Money.DeflationMask(a, b)[k]) &&
            (g.growth == Expansion <==> Economy.AboveTrend(r, span)[i])
  {
    Money.MasksFollowRocDiff(a, b, k);
    Economy.TrendMasksPartition(r, span, i);
  }

  /** Scaling both indicators by a positive factor keeps the regime. */
  lemma ClassifyScaleInvariant(p: Joined, c: real)
    requires c > 0.0
    ensures Classify(Joined(p.key, c * p.first, c * p.second)) == Classify(p)
  {
    assert p.first > 0.0 ==> c * p.first > 0.0;
    assert p.first < 0.0 ==> c * p.first < 0.0;
    assert p.second < 0.0 ==> c * p.second < 0.0;
  }

  lemma ClassifyExample()
    ensures Classify(Joined(2020, 4.0, -1.5)) == Regime(Contraction, Inflationary)
  {
  }

  /** The regime of the latest year; none for an empty table. */
  function CurrentRegime(c: seq<Joined>): (g: Option<Regime>)
    ensures g.Some? <==> c != []
    ensures JoinedSorted(c) && g.Some? ==>
              exists k :: 0 <= k < |c| && g.value == Classify(c[k]) &&
                          forall j :: 0 <= j < |c| ==> c[j].key <= c[k].key
  {
    match Latest(c)
    case None => None
    case Some(p) => Some(Classify(p))
  }

  // ---------------------------------------------------------------------
  // The whole pipeline

  /**
   * The combined table from the three raw columns: CPI, SP500 and oil,
   * joined on years with the inner join (the year-end money column is the
   * unshifted one).
   */
  function QuadrantTable(cpi: seq<Point>, sp: seq<Point>, cl: seq<Point>,
                         yearOf: int -> int, root: (real, nat) -> real): (c: seq<Joined>)
    requires Money.Positive(cpi) && Sorted(sp) && Sorted(cl) && Economy.NonZero(cl)
    ensures JoinedSorted(c)
    ensures var money := Money.MoneyIndicator(cpi, yearOf, root);
            money != [] ==> forall k :: 0 <= k < |c| ==> c[k].key != money[0].key
  {
    var money := Money.MoneyIndicator(cpi, yearOf, root);
    var economy := Economy.EconomyAnnual(sp, cl, yearOf);
    InnerJoinSpec(money, economy);
    if money == [] then InnerJoin(money, economy)
    else
      ValueAtRow(money, 0);
      InnerJoin(money, economy)
  }

  /**
   * The table holds exactly the years where both money and economy are
   * defined, once each and ascending, with their two values; its latest
   * point is its greatest year.
   */
  lemma QuadrantTableSpec(cpi: seq<Point>, sp: seq<Point>, cl: seq<Point>,
                          yearOf: int -> int, root: (real, nat) -> real)
    requires Money.Positive(cpi) && Sorted(sp) && Sorted(cl) && Economy.NonZero(cl)
    ensures var c := QuadrantTable(cpi, sp, cl, yearOf, root);
            var money := Money.MoneyIndicator(cpi, yearOf, root);
            var economy := Economy.EconomyAnnual(sp, cl, yearOf);
            JoinedSorted(c) &&
            (forall y :: y in JoinedKeys(c) <==> ValueAt(money, y).Some? && ValueAt(economy, y).Some?) &&
            (forall k :: 0 <= k < |c| ==> ValueAt(money, c[k].key) == Some(c[k].first) &&
                                          ValueAt(economy, c[k].key) == Some(c[k].second)) &&
            (c != [] ==> forall k :: 0 <= k < |c| ==> c[k].key <= Latest(c).value.key)
  {
    InnerJoinSpec(Money.MoneyIndicator(cpi, yearOf, root), Economy.EconomyAnnual(sp, cl, yearOf));
  }
}
