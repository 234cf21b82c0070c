/**
 * Hypothesis 1, `pages/hypothesis1.py`: does the fuel type affect the price? The page splits
 * the filtered table's prices into a diesel and a petrol group, shows their means, runs a
 * t-test and a Mann-Whitney U test on the two groups, and turns the p-values into a verdict.
 */
module Hypothesis1 {
  import opened Frame
  import opened Stats
  import opened Significance

  /** The mask `df['fueltype'] == fuel`. */
  function FuelIs(fuel: string): Car -> bool { (c: Car) => c.fueltype == fuel }

  /** The mask of the rows that are neither diesel nor petrol. */
  function OtherFuel(): Car -> bool { (c: Car) => c.fueltype != "diesel" && c.fueltype != "petrol" }

  /** `df[df['fueltype'] == fuel]['price']`: the prices of the rows of that fuel type, in row order. */
  function FuelPrices(t: Table, fuel: string): (r: seq<Num>)
    ensures |r| == |Where(t, FuelIs(fuel))| <= |t|
    ensures forall i :: 0 <= i < |r| ==>
      var row := Where(t, FuelIs(fuel))[i];
      r[i] == Get(row, Price) && row in t && row.fueltype == fuel
  {
    var rows := Where(t, FuelIs(fuel));
    WhereByIndex(t, FuelIs(fuel));
    assert forall i :: 0 <= i < |rows| ==> rows[i].fueltype == fuel;
    Column(rows, Price)
  }

  /** Every row is in exactly one of the diesel rows, the petrol rows and the other rows: the three
      selections together are the table, counting repetitions. */
  lemma FuelRowsPartition(t: Table)
    ensures multiset(Where(t, FuelIs("diesel"))) + multiset(Where(t, FuelIs("petrol")))
          + multiset(Where(t, OtherFuel())) == multiset(t)
    ensures |Where(t, FuelIs("diesel"))| + |Where(t, FuelIs("petrol"))| + |Where(t, OtherFuel())| == |t|
  {
    WherePartition(t, FuelIs("diesel"), FuelIs("petrol"), OtherFuel());
  }

  /** No row is both diesel and petrol, and a row of another fuel type is in neither group. */
  lemma FuelGroupsDisjoint(t: Table, c: Car)
    ensures !(c in Where(t, FuelIs("diesel")) && c in Where(t, FuelIs("petrol")))
    ensures c.fueltype != "diesel" && c.fueltype != "petrol" ==>
      c !in Where(t, FuelIs("diesel")) && c !in Where(t, FuelIs("petrol"))
  {
  }

  /** The three average-price cards: NaN for a group with no priced row. */
  datatype PriceMetrics = PriceMetrics(overall: Num, diesel: Num, petrol: Num)

  /** `show_price_metrics`: the mean price overall and per fuel group. */
  function ShowPriceMetrics(t: Table): (m: PriceMetrics)
    ensures m.diesel.Some? <==> exists x :: Some(x) in FuelPrices(t, "diesel")
    ensures m.petrol.Some? <==> exists x :: Some(x) in FuelPrices(t, "petrol")
    ensures m.overall.Some? <==> exists x :: Some(x) in Column(t, Price)
    ensures m.diesel.Some? ==>
      Min(Present(FuelPrices(t, "diesel"))) <= m.diesel.value <= Max(Present(FuelPrices(t, "diesel")))
    ensures m.petrol.Some? ==>
      Min(Present(FuelPrices(t, "petrol"))) <= m.petrol.value <= Max(Present(FuelPrices(t, "petrol")))
  {
    PriceMetrics(MeanOf(Column(t, Price)), MeanOf(FuelPrices(t, "diesel")), MeanOf(FuelPrices(t, "petrol")))
  }

  /** A table without diesel rows has no diesel average: the card shows NaN. */
  lemma NoDieselNoAverage(t: Table)
    requires forall i :: 0 <= i < |t| ==> t[i].fueltype != "diesel"
    ensures ShowPriceMetrics(t).diesel == None
  {
  }

  /** `run_statistical_tests`: both tests get the diesel prices first and the petrol prices second,
      empty groups and NaN prices included. */
  function RunStatisticalTests(t: Table, scipy: Scipy): (r: (TestResult, TestResult))
    ensures r.0 == scipy.ttest(FuelPrices(t, "diesel"), FuelPrices(t, "petrol"))
    ensures r.1 == scipy.mannwhitney(FuelPrices(t, "diesel"), FuelPrices(t, "petrol"))
  {
    (scipy.ttest(FuelPrices(t, "diesel"), FuelPrices(t, "petrol")),
     scipy.mannwhitney(FuelPrices(t, "diesel"), FuelPrices(t, "petrol")))
  }

  /** The interpretation's rule: the hypothesis is supported when either test's p-value is below 0.05. */
  predicate Supported(tTest: TestResult, uTest: TestResult)
  {
    Below(tTest.p, Alpha) || Below(uTest.p, Alpha)
  }

  /** What the page shows, apart from charts and prose. */
  datatype Report = Report(
    metrics: PriceMetrics,
    cards: seq<Card>,
    supported: bool,
    summary: seq<SummaryRow>)

  /** How a run of the page ends: the session has no filtered table (`KeyError`), a library
      call raised, or the page is shown. */
  datatype PageOutcome = MissingKey | Failed(error: string) | Shown(report: Report)

  /** `run_page(st.session_state['filtered_df'])`. The correlations are computed before the
      tests, so an error of `pearsonr` ends the page. */
  function RunPage(filteredDf: Option<Table>, scipy: Scipy): (r: PageOutcome)
    ensures r.MissingKey? <==> filteredDf.None?
    ensures r.Failed? <==> filteredDf.Some? && CalculateCorrelation(filteredDf.value, scipy).Raised?
    ensures r.Shown? ==>
      var t := filteredDf.value;
      var tests := RunStatisticalTests(t, scipy);
      var corr := CalculateCorrelation(t, scipy).value;
      r.report.metrics == ShowPriceMetrics(t)
      && r.report.cards == ResultCards(corr.0, corr.1, tests.0, tests.1)
      && r.report.summary == SummaryTable(corr.0, corr.1, tests.0, tests.1)
      && (r.report.supported <==> Supported(tests.0, tests.1))
  {
    match filteredDf
    case None => MissingKey
    case Some(t) =>
      match CalculateCorrelation(t, scipy)
      case Raised(e) => Failed(e)
      case Ok((pearson, spearman)) =>
        var (tTest, uTest) := RunStatisticalTests(t, scipy);
        Shown(Report(ShowPriceMetrics(t),
                     ResultCards(pearson, spearman, tTest, uTest),
                     Supported(tTest, uTest),
                     SummaryTable(pearson, spearman, tTest, uTest)))
  }

  /** A filtered table of fewer than two rows never reaches the tests: `pearsonr` raises. */
  lemma ShortTableFails(t: Table, scipy: Scipy)
    requires RejectsShortSeries(scipy.pearson)
    requires |t| < 2
    ensures RunPage(Some(t), scipy).Failed?
  {
    ShortTableRaises(t, scipy);
  }

  /** The verdict is the success message exactly when the t-test card or the Mann-Whitney card
      reads "Significant". */
  lemma VerdictMatchesCards(t: Table, scipy: Scipy)
    ensures var r := RunPage(Some(t), scipy);
      r.Shown? ==>
        (r.report.supported <==> r.report.cards[5].delta == "Significant" || r.report.cards[7].delta == "Significant")
  {
  }

  /** The correlations do not affect the verdict: two libraries that agree on the two tests give
      the same verdict, whatever their correlations return. */
  lemma VerdictIgnoresCorrelations(t: Table, a: Scipy, b: Scipy)
    requires a.ttest == b.ttest && a.mannwhitney == b.mannwhitney
    ensures RunPage(Some(t), a).Shown? && RunPage(Some(t), b).Shown? ==>
      RunPage(Some(t), a).report.supported == RunPage(Some(t), b).report.supported
  {
  }
}
