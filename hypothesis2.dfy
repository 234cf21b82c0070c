/**
 * Hypothesis 2, `pages/hypothesis2.py`: does fuel efficiency go with a lower price? The page
 * splits the rows at the median average mileage into a low- and a high-efficiency group,
 * compares their prices with a t-test and a Mann-Whitney U test, and reads a verdict off the
 * Pearson coefficient and the two p-values. It also scales prices to bubble sizes.
 */
module Hypothesis2 {
  import opened Frame
  import opened Stats
  import opened Significance

  /** `df["avg_mpg"].median()`: NaN when no row has an average mileage. */
  function MedianEff(t: Table): (m: Num)
    ensures m.Some? <==> exists x :: Some(x) in Column(t, AvgMpg)
  {
    MedianOf(Column(t, AvgMpg))
  }

  /** The mask `df["avg_mpg"] <= m`: false when either side is NaN. */
  function AtOrBelow(m: Num): Car -> bool
  {
    (c: Car) => c.avgMpg.Some? && m.Some? && c.avgMpg.value <= m.value
  }

  /** The mask `df["avg_mpg"] > m`: false when either side is NaN. */
  function StrictlyAbove(m: Num): Car -> bool
  {
    (c: Car) => c.avgMpg.Some? && m.Some? && c.avgMpg.value > m.value
  }

  /** The mask of the rows without an average mileage. */
  function NoMileage(): Car -> bool { (c: Car) => c.avgMpg.None? }

  /** The low-efficiency rows: average mileage at or below the median, in row order. */
  function LowEff(t: Table): Table { Where(t, AtOrBelow(MedianEff(t))) }

  /** The high-efficiency rows: average mileage above the median, in row order. */
  function HighEff(t: Table): Table { Where(t, StrictlyAbove(MedianEff(t))) }

  /** A row with a mileage, split at a number, satisfies exactly one of the three masks. */
  lemma OneSide(m: Num, c: Car)
    requires c.avgMpg.Some? ==> m.Some?
    ensures ExactlyOne(AtOrBelow(m), StrictlyAbove(m), NoMileage(), c)
  {
  }

  /** Every row with an average mileage is in exactly one of the two groups, a row without one is in
      neither, and both groups keep the rows' order. */
  lemma MedianSplitPartition(t: Table)
    ensures multiset(LowEff(t)) + multiset(HighEff(t)) + multiset(Where(t, NoMileage())) == multiset(t)
    ensures |LowEff(t)| + |HighEff(t)| + |Where(t, NoMileage())| == |t|
    ensures IsSubsequence(LowEff(t), t) && IsSubsequence(HighEff(t), t)
  {
    var m := MedianEff(t);
    var low, high, none := AtOrBelow(m), StrictlyAbove(m), NoMileage();
    forall i | 0 <= i < |t|
      ensures ExactlyOne(low, high, none, t[i])
    {
      if t[i].avgMpg.Some? {
        MileageGivesMedian(t, i);
      }
      OneSide(m, t[i]);
    }
    WherePartition(t, low, high, none);
    WhereIsSubsequence(t, low);
    WhereIsSubsequence(t, high);
  }

  /** One row with an average mileage is enough for the median to be a number. */
  lemma MileageGivesMedian(t: Table, i: int)
    requires 0 <= i < |t| && t[i].avgMpg.Some?
    ensures MedianEff(t).Some?
  {
    assert Column(t, AvgMpg)[i] == Some(t[i].avgMpg.value);
  }

  /** When every row has the same average mileage, the median is that value and the high group is
      empty; it is passed to both tests all the same. */
  lemma AllEqualHighEmpty(t: Table, v: real)
    requires t != []
    requires forall i :: 0 <= i < |t| ==> t[i].avgMpg == Some(v)
    ensures MedianEff(t) == Some(v)
    ensures HighEff(t) == []
  {
    var xs := Column(t, AvgMpg);
    assert xs[0] == Some(v);
    var vs := Present(xs);
    assert forall x :: x in vs ==> x == v by {
      forall x | x in vs ensures x == v {
        assert Some(x) in xs;
        var i :| 0 <= i < |xs| && xs[i] == Some(x);
      }
    }
    assert Min(vs) == v && Max(vs) == v;
    WhereKeepsNone(t, StrictlyAbove(MedianEff(t)));
  }

  /** The prices of a group, in row order. */
  function Prices(rows: Table): (r: seq<Num>)
    ensures |r| == |rows|
    ensures forall i :: 0 <= i < |r| ==> r[i] == Get(rows[i], Price)
  {
    Column(rows, Price)
  }

  /** `run_statistical_tests`: both tests get the high-efficiency prices first and the
      low-efficiency prices second, empty groups and NaN prices included. */
  function RunStatisticalTests(t: Table, scipy: Scipy): (r: (TestResult, TestResult))
    ensures r.0 == scipy.ttest(Prices(HighEff(t)), Prices(LowEff(t)))
    ensures r.1 == scipy.mannwhitney(Prices(HighEff(t)), Prices(LowEff(t)))
  {
    (scipy.ttest(Prices(HighEff(t)), Prices(LowEff(t))), scipy.mannwhitney(Prices(HighEff(t)), Prices(LowEff(t))))
  }

  /** The three average-price cards of `show_efficiency_price_metrics`. */
  datatype EfficiencyMetrics = EfficiencyMetrics(overall: Num, low: Num, high: Num)

  function ShowEfficiencyPriceMetrics(t: Table): (m: EfficiencyMetrics)
    ensures m.low.Some? <==> exists x :: Some(x) in Prices(LowEff(t))
    ensures m.high.Some? <==> exists x :: Some(x) in Prices(HighEff(t))
    ensures m.low.Some? ==> Min(Present(Prices(LowEff(t)))) <= m.low.value <= Max(Present(Prices(LowEff(t))))
    ensures m.high.Some? ==> Min(Present(Prices(HighEff(t)))) <= m.high.value <= Max(Present(Prices(HighEff(t))))
  {
    EfficiencyMetrics(MeanOf(Column(t, Price)), MeanOf(Prices(LowEff(t))), MeanOf(Prices(HighEff(t))))
  }

  /** The interpretation's rule: a negative Pearson coefficient and at least one test below 0.05. */
  predicate Supported(pearson: TestResult, tTest: TestResult, uTest: TestResult)
  {
    Below(pearson.stat, 0.0) && (Below(tTest.p, Alpha) || Below(uTest.p, Alpha))
  }

  // ---------------------------------------------------------------------------
  // Bubble sizes

  /** `(p - min) / (max - min) * 1000` for one price. NaN when the price or a bound is NaN, and when
      the bounds coincide (every present price then equals the bound, so pandas divides 0 by 0). */
  function BubbleSize(p: Num, lo: Num, hi: Num): Num
  {
    if p.None? || lo.None? || hi.None? || hi.value == lo.value then None
    else Some((p.value - lo.value) / (hi.value - lo.value) * 1000.0)
  }

  /** The size series of `plot_bubble`, aligned with the rows. */
  function BubbleSizes(t: Table): (r: seq<Num>)
    ensures |r| == |t|
    ensures forall i :: 0 <= i < |t| ==>
      r[i] == BubbleSize(t[i].price, MinOf(Column(t, Price)), MaxOf(Column(t, Price)))
  {
    var lo, hi := MinOf(Column(t, Price)), MaxOf(Column(t, Price));
    seq(|t|, i requires 0 <= i < |t| => BubbleSize(t[i].price, lo, hi))
  }

  /** A price in `[lo, hi]` gets a size in `[0, 1000]`. */
  lemma BubbleSizeBounds(p: real, lo: real, hi: real)
    requires lo < hi && lo <= p <= hi
    ensures BubbleSize(Some(p), Some(lo), Some(hi)).Some?
    ensures 0.0 <= BubbleSize(Some(p), Some(lo), Some(hi)).value <= 1000.0
  {
    QuotientBounds(p - lo, hi - lo, 0.0, 1.0);
  }

  /** The lower bound gets size 0 and the upper bound size 1000. */
  lemma BubbleSizeEnds(lo: real, hi: real)
    requires lo < hi
    ensures BubbleSize(Some(lo), Some(lo), Some(hi)) == Some(0.0)
    ensures BubbleSize(Some(hi), Some(lo), Some(hi)) == Some(1000.0)
  {
    assert (hi - lo) / (hi - lo) == 1.0;
  }

  /** When the dearest price exceeds the cheapest, every priced row gets a size in `[0, 1000]` and a
      row without a price gets NaN. */
  lemma BubbleSizesInRange(t: Table, lo: real, hi: real)
    requires MinOf(Column(t, Price)) == Some(lo) && MaxOf(Column(t, Price)) == Some(hi) && lo < hi
    ensures forall i :: 0 <= i < |t| ==> (BubbleSizes(t)[i].Some? <==> t[i].price.Some?)
    ensures forall i :: 0 <= i < |t| && t[i].price.Some? ==> 0.0 <= BubbleSizes(t)[i].value <= 1000.0
  {
    var xs := Column(t, Price);
    forall i | 0 <= i < |t| && t[i].price.Some? ensures 0.0 <= BubbleSizes(t)[i].value <= 1000.0 {
      assert Some(t[i].price.value) in xs by { assert xs[i] == t[i].price; }
      BubbleSizeBounds(t[i].price.value, lo, hi);
    }
  }

  /** When the dearest price exceeds the cheapest, the cheapest car gets size 0 and the dearest 1000. */
  lemma BubbleSizesReachBounds(t: Table, lo: real, hi: real)
    requires MinOf(Column(t, Price)) == Some(lo) && MaxOf(Column(t, Price)) == Some(hi) && lo < hi
    ensures exists i :: 0 <= i < |t| && BubbleSizes(t)[i] == Some(0.0)
    ensures exists i :: 0 <= i < |t| && BubbleSizes(t)[i] == Some(1000.0)
  {
    var xs := Column(t, Price);
    BubbleSizeEnds(lo, hi);
    assert Some(lo) in xs && Some(hi) in xs;
    var i :| 0 <= i < |xs| && xs[i] == Some(lo);
    SizeOfRow(t, i, lo, hi);
    var j :| 0 <= j < |xs| && xs[j] == Some(hi);
    SizeOfRow(t, j, lo, hi);
  }

  /** A row's size is computed from its own price and the two bounds. */
  lemma SizeOfRow(t: Table, i: int, lo: real, hi: real)
    requires 0 <= i < |t|
    requires MinOf(Column(t, Price)) == Some(lo) && MaxOf(Column(t, Price)) == Some(hi)
    ensures BubbleSizes(t)[i] == BubbleSize(Column(t, Price)[i], Some(lo), Some(hi))
  {
  }

  /** When every priced row has the same price, no size is defined. */
  lemma BubbleSizesFlat(t: Table)
    requires MinOf(Column(t, Price)) == MaxOf(Column(t, Price))
    ensures forall i :: 0 <= i < |t| ==> BubbleSizes(t)[i] == None
  {
  }

  // ---------------------------------------------------------------------------
  // The page

  /** What the page shows, apart from charts and prose. */
  datatype Report = Report(
    metrics: EfficiencyMetrics,
    cards: seq<Card>,
    supported: bool,
    summary: seq<SummaryRow>,
    bubbleSizes: seq<Num>)

  /** How a run of the page ends: the session has no filtered table (`KeyError`), a library
      call raised, or the page is shown. */
  datatype PageOutcome = MissingKey | Failed(error: string) | Shown(report: Report)

  /** `run_page(st.session_state['filtered_df'])`. The correlations are computed before the
      tests, so an error of `pearsonr` ends the page. */
  function RunPage(filteredDf: Option<Table>, scipy: Scipy): (r: PageOutcome)
    ensures r.MissingKey? <==> filteredDf.None?
    ensures r.Failed? <==> filteredDf.Some? && CalculateCorrelation(filteredDf.value, scipy).Raised?
    ensures r.Shown? ==>
      var t := filteredDf.value;
      var tests := RunStatisticalTests(t, scipy);
      var corr := CalculateCorrelation(t, scipy).value;
      r.report.metrics == ShowEfficiencyPriceMetrics(t)
      && r.report.cards == ResultCards(corr.0, corr.1, tests.0, tests.1)
      && r.report.summary == SummaryTable(corr.0, corr.1, tests.0, tests.1)
      && r.report.bubbleSizes == BubbleSizes(t)
      && (r.report.supported <==> Supported(corr.0, tests.0, tests.1))
  {
    match filteredDf
    case None => MissingKey
    case Some(t) =>
      match CalculateCorrelation(t, scipy)
      case Raised(e) => Failed(e)
      case Ok((pearson, spearman)) =>
        var (tTest, uTest) := RunStatisticalTests(t, scipy);
        Shown(Report(ShowEfficiencyPriceMetrics(t),
                     ResultCards(pearson, spearman, tTest, uTest),
                     Supported(pearson, tTest, uTest),
                     SummaryTable(pearson, spearman, tTest, uTest),
                     BubbleSizes(t)))
  }

  /** A filtered table of fewer than two rows never reaches the tests: `pearsonr` raises. */
  lemma ShortTableFails(t: Table, scipy: Scipy)
    requires RejectsShortSeries(scipy.pearson)
    requires |t| < 2
    ensures RunPage(Some(t), scipy).Failed?
  {
    ShortTableRaises(t, scipy);
  }

  /** The verdict is the success message exactly when the Pearson card reads "Negative" and the
      t-test or the Mann-Whitney card reads "Significant". */
  lemma VerdictMatchesCards(t: Table, scipy: Scipy)
    ensures var r := RunPage(Some(t), scipy);
      r.Shown? ==>
        (r.report.supported <==> r.report.cards[0].delta == "Negative"
                                 && (r.report.cards[5].delta == "Significant" || r.report.cards[7].delta == "Significant"))
  {
  }

  /** Neither the Spearman results nor the Pearson p-value affect the verdict. */
  lemma VerdictIgnoresSpearman(t: Table, a: Scipy, b: Scipy)
    requires a.ttest == b.ttest && a.mannwhitney == b.mannwhitney
    requires a.pearson(Column(t, AvgMpg), Column(t, Price)).Ok?
    requires b.pearson(Column(t, AvgMpg), Column(t, Price)).Ok?
    requires a.pearson(Column(t, AvgMpg), Column(t, Price)).value.stat
          == b.pearson(Column(t, AvgMpg), Column(t, Price)).value.stat
    ensures RunPage(Some(t), a).report.supported == RunPage(Some(t), b).report.supported
  {
  }
}
