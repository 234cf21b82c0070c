/**
 * The Overview page, `pages/overview.py`: it halts when the session holds no filtered
 * table or an empty one, and otherwise shows four averages of the filtered table and the
 * stored criteria record.
 */
module OverviewKpis {
  import opened Frame
  import opened Stats
  import opened Session

  /** The four metric cards. */
  datatype Kpis = Kpis(avgPrice: Num, avgHorsepower: Num, avgEngineSize: Num, avgMileage: Num)

  /** How a run of the page ends: a warning, an error, or the cards and the filter summary
      (`None` for the empty mapping shown when no criteria record is stored). */
  datatype Outcome =
    | NoData
    | NoMatches
    | Shown(kpis: Kpis, filters: Option<Filters>)

  /** `(citympg + highwaympg) / 2` for one row: missing when either mileage is missing. */
  function Mileage(c: Car): (m: Num)
    ensures m.Some? <==> c.citympg.Some? && c.highwaympg.Some?
    ensures m.Some? ==> m.value * 2.0 == c.citympg.value + c.highwaympg.value
  {
    if c.citympg.Some? && c.highwaympg.Some? then Some((c.citympg.value + c.highwaympg.value) / 2.0)
    else None
  }

  /** The mileage series, aligned with the rows. */
  function MileageColumn(t: Table): (r: seq<Num>)
    ensures |r| == |t|
    ensures forall i :: 0 <= i < |t| ==> r[i] == Mileage(t[i])
  {
    seq(|t|, i requires 0 <= i < |t| => Mileage(t[i]))
  }

  /** The page's result, given the session's `filtered_df` and `global_filters` keys. */
  function Page(filteredDf: Option<Table>, globalFilters: Option<Filters>): (o: Outcome)
    ensures o.NoData? <==> filteredDf.None?
    ensures o.NoMatches? <==> filteredDf == Some([])
    ensures o.Shown? ==> o.filters == globalFilters
    ensures o.Shown? ==> (o.kpis.avgPrice.Some? <==> exists x :: Some(x) in Column(filteredDf.value, Price))
  {
    match filteredDf
    case None => NoData
    case Some(df) =>
      if df == [] then NoMatches
      else
        Shown(Kpis(MeanOf(Column(df, Price)), MeanOf(Column(df, Horsepower)),
                   MeanOf(Column(df, EngineSize)), MeanOf(MileageColumn(df))),
              globalFilters)
  }

  /** Each average lies between the least and the greatest present value of its column. */
  lemma KpisWithinColumnRange(df: Table, globalFilters: Option<Filters>)
    requires df != []
    ensures Page(Some(df), globalFilters).Shown?
    ensures var k := Page(Some(df), globalFilters).kpis;
      && (k.avgPrice.Some? ==> Min(Present(Column(df, Price))) <= k.avgPrice.value <= Max(Present(Column(df, Price))))
      && (k.avgHorsepower.Some? ==>
            Min(Present(Column(df, Horsepower))) <= k.avgHorsepower.value <= Max(Present(Column(df, Horsepower))))
      && (k.avgEngineSize.Some? ==>
            Min(Present(Column(df, EngineSize))) <= k.avgEngineSize.value <= Max(Present(Column(df, EngineSize))))
      && (k.avgMileage.Some? ==>
            Min(Present(MileageColumn(df))) <= k.avgMileage.value <= Max(Present(MileageColumn(df))))
  {
  }

  /** With no missing mileage, the average of the per-row mileages is the average of the mean city
      mileage and the mean highway mileage. */
  lemma AverageMileageSplits(df: Table)
    requires df != []
    requires NoMissing(df, CityMpg) && NoMissing(df, HighwayMpg)
    ensures MeanOf(MileageColumn(df)).Some?
    ensures MeanOf(MileageColumn(df)).value
         == (Mean(Present(Column(df, CityMpg))) + Mean(Present(Column(df, HighwayMpg)))) / 2.0
  {
    var city, highway, mileage := Column(df, CityMpg), Column(df, HighwayMpg), MileageColumn(df);
    MileagesAreHalfSums(df);
    PresentHalfSums(city, highway, mileage);
    var cs, hs, ms := Present(city), Present(highway), Present(mileage);
    HalfOfQuotients(Sum(cs), Sum(hs), Sum(ms), |ms| as real);
    assert ms[0] in ms;
  }

  /** With no missing mileage, every row's mileage is the half-sum of its two mileages. */
  lemma MileagesAreHalfSums(df: Table)
    requires NoMissing(df, CityMpg) && NoMissing(df, HighwayMpg)
    ensures var city, highway, mileage := Column(df, CityMpg), Column(df, HighwayMpg), MileageColumn(df);
      forall i :: 0 <= i < |df| ==>
        city[i].Some? && highway[i].Some? && mileage[i] == Some((city[i].value + highway[i].value) / 2.0)
  {
    var city, highway, mileage := Column(df, CityMpg), Column(df, HighwayMpg), MileageColumn(df);
    forall i | 0 <= i < |df|
      ensures city[i].Some? && highway[i].Some? && mileage[i] == Some((city[i].value + highway[i].value) / 2.0)
    {
      assert city[i] == df[i].citympg && highway[i] == df[i].highwaympg && mileage[i] == Mileage(df[i]);
    }
  }

  /** Three complete series, the third the half-sum of the other two: their present values are as
      many as the rows, and the third sums to half the other two sums together. */
  lemma {:induction false} PresentHalfSums(xs: seq<Num>, ys: seq<Num>, zs: seq<Num>)
    requires |xs| == |ys| == |zs|
    requires forall i :: 0 <= i < |zs| ==> xs[i].Some? && ys[i].Some? && zs[i] == Some((xs[i].value + ys[i].value) / 2.0)
    ensures |Present(xs)| == |Present(ys)| == |Present(zs)| == |zs|
    ensures 2.0 * Sum(Present(zs)) == Sum(Present(xs)) + Sum(Present(ys))
  {
    if zs != [] {
      PresentHalfSums(xs[1..], ys[1..], zs[1..]);
      assert Present(xs) == [xs[0].value] + Present(xs[1..]);
      assert Present(ys) == [ys[0].value] + Present(ys[1..]);
      assert Present(zs) == [zs[0].value] + Present(zs[1..]);
    }
  }

  /** Dividing by the same count keeps a half-sum relation. */
  lemma HalfOfQuotients(a: real, b: real, c: real, n: real)
    requires n > 0.0 && 2.0 * c == a + b
    ensures c / n == (a / n + b / n) / 2.0
  {
  }
}
