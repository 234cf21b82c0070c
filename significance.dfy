/**
 * Statistical test results as the hypothesis pages consume them, and the
 * rules that turn them into the labels of the metric cards and the summary
 * table. The scipy tests themselves are not modelled: a page receives each
 * test as a function from samples to a (statistic, p-value) pair.
 */
module Significance {
  import opened Frame

  /** What `ttest_ind`, `mannwhitneyu`, `pearsonr`, `spearmanr` and `kruskal` return. */
  datatype TestResult = TestResult(stat: Num, p: Num)

  /** A two-sample test (t-test, Mann-Whitney U) on two price series, NaN entries included. */
  type TwoSampleTest = (seq<Num>, seq<Num>) -> TestResult

  /** A correlation (Spearman) of two aligned series. */
  type CorrelationTest = (seq<Num>, seq<Num>) -> TestResult

  /** A correlation that may raise instead of returning: `pearsonr` raises `ValueError`
      on series shorter than two. */
  type RaisingCorrelation = (seq<Num>, seq<Num>) -> Outcome<TestResult>

  /** A k-sample test (Kruskal-Wallis H) on a list of groups. */
  type KSampleTest = seq<seq<Num>> -> TestResult

  /** The library routines a page calls. */
  datatype Scipy = Scipy(
    ttest: TwoSampleTest,
    mannwhitney: TwoSampleTest,
    pearson: RaisingCorrelation,
    spearman: CorrelationTest,
    kruskal: KSampleTest)

  /** The documented behaviour of `pearsonr` on short input: fewer than two values raise. */
  ghost predicate RejectsShortSeries(pearson: RaisingCorrelation)
  {
    forall x, y :: |x| < 2 ==> pearson(x, y).Raised?
  }

  /** `calculate_correlation` (the same on the Hypothesis 1 and 2 pages): avg_mpg against price,
      Pearson first, then Spearman, on the whole table with its NaN entries. The error of
      `pearsonr` propagates, and then `spearmanr` is never called. */
  function CalculateCorrelation(t: Table, scipy: Scipy): (r: Outcome<(TestResult, TestResult)>)
    ensures r.Raised? <==> scipy.pearson(Column(t, AvgMpg), Column(t, Price)).Raised?
    ensures r.Raised? ==> r.error == scipy.pearson(Column(t, AvgMpg), Column(t, Price)).error
    ensures r.Ok? ==> r.value.0 == scipy.pearson(Column(t, AvgMpg), Column(t, Price)).value
    ensures r.Ok? ==> r.value.1 == scipy.spearman(Column(t, AvgMpg), Column(t, Price))
  {
    match scipy.pearson(Column(t, AvgMpg), Column(t, Price))
    case Raised(e) => Raised(e)
    case Ok(pearson) => Ok((pearson, scipy.spearman(Column(t, AvgMpg), Column(t, Price))))
  }

  /** A table of fewer than two rows makes `calculate_correlation` raise, whatever the values. */
  lemma ShortTableRaises(t: Table, scipy: Scipy)
    requires RejectsShortSeries(scipy.pearson)
    requires |t| < 2
    ensures CalculateCorrelation(t, scipy).Raised?
  {
    assert |Column(t, AvgMpg)| < 2;
  }

  /** The significance level every page uses. */
  const Alpha: real := 0.05

  /** `x < bound` on a float: false when `x` is NaN. */
  predicate Below(x: Num, bound: real)
  {
    x.Some? && x.value < bound
  }

  /** `x > bound` on a float: false when `x` is NaN. */
  predicate Above(x: Num, bound: real)
  {
    x.Some? && x.value > bound
  }

  /** The delta of a p-value card. */
  function SignificanceLabel(p: Num): string
  {
    if Below(p, Alpha) then "Significant" else "Not Significant"
  }

  /** The delta of a correlation card. */
  function CorrelationLabel(r: Num): string
  {
    if Below(r, 0.0) then "Negative" else "Positive"
  }

  /** The delta of a test-statistic card. */
  function EffectLabel(stat: Num): string
  {
    if Above(stat, 0.0) then "Positive effect" else "Negative effect"
  }

  /** The boundary cases of the three label rules: a p-value of exactly 0.05 is
      not significant, a correlation of zero is labelled positive, a statistic of
      zero is a negative effect, and a NaN input takes the "else" label. */
  lemma LabelBoundaries()
    ensures SignificanceLabel(Some(Alpha)) == "Not Significant"
    ensures CorrelationLabel(Some(0.0)) == "Positive"
    ensures EffectLabel(Some(0.0)) == "Negative effect"
    ensures SignificanceLabel(None) == "Not Significant"
    ensures CorrelationLabel(None) == "Positive"
    ensures EffectLabel(None) == "Negative effect"
  {
  }

  /** One `st.metric` card: label, value and delta. */
  datatype Card = Card(title: string, value: Num, delta: string)

  /** The eight cards of `show_correlation_results`, row by row. */
  function ResultCards(pearson: TestResult, spearman: TestResult, t: TestResult, u: TestResult): (r: seq<Card>)
    ensures |r| == 8
    ensures forall i :: 0 <= i < 8 && i % 2 == 1 ==>
      (r[i].delta == "Significant" <==> Below(r[i].value, Alpha))
    ensures forall i :: 0 <= i < 4 && i % 2 == 0 ==>
      (r[i].delta == "Negative" <==> Below(r[i].value, 0.0))
    ensures forall i :: 4 <= i < 8 && i % 2 == 0 ==>
      (r[i].delta == "Positive effect" <==> Above(r[i].value, 0.0))
    ensures r[0].value == pearson.stat && r[1].value == pearson.p
    ensures r[2].value == spearman.stat && r[3].value == spearman.p
    ensures r[4].value == t.stat && r[5].value == t.p
    ensures r[6].value == u.stat && r[7].value == u.p
  {
    [ Card("Pearson Correlation", pearson.stat, CorrelationLabel(pearson.stat)),
      Card("Pearson p-value", pearson.p, SignificanceLabel(pearson.p)),
      Card("Spearman Correlation", spearman.stat, CorrelationLabel(spearman.stat)),
      Card("Spearman p-value", spearman.p, SignificanceLabel(spearman.p)),
      Card("t-test statistic", t.stat, EffectLabel(t.stat)),
      Card("t-test p-value", t.p, SignificanceLabel(t.p)),
      Card("Mann–Whitney U statistic", u.stat, EffectLabel(u.stat)),
      Card("Mann–Whitney p-value", u.p, SignificanceLabel(u.p)) ]
  }

  /** One row of the "View Test Summary Table" expander. */
  datatype SummaryRow = SummaryRow(test: string, statistic: Num, pValue: Num)

  /** The summary table: four rows in a fixed order, each carrying its own test's result. */
  function SummaryTable(pearson: TestResult, spearman: TestResult, t: TestResult, u: TestResult): (r: seq<SummaryRow>)
    ensures |r| == 4
    ensures r[0].test == "Pearson correlation" && r[1].test == "Spearman correlation"
    ensures r[2].test == "t-test" && r[3].test == "Mann–Whitney U"
    ensures forall i :: 0 <= i < 4 ==>
      TestResult(r[i].statistic, r[i].pValue) == [pearson, spearman, t, u][i]
  {
    [ SummaryRow("Pearson correlation", pearson.stat, pearson.p),
      SummaryRow("Spearman correlation", spearman.stat, spearman.p),
      SummaryRow("t-test", t.stat, t.p),
      SummaryRow("Mann–Whitney U", u.stat, u.p) ]
  }
}
