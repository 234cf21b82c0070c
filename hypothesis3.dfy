/**
 * Hypothesis 3, `pages/hypothesis3.py`: does the body type affect the price? The page groups the
 * table by `carbody`, aggregates each group's prices into count, mean, median, min and max, and
 * lists the groups from the dearest mean to the cheapest.
 */
module Hypothesis3 {
  import opened Frame
  import opened Stats
  import opened Grouping

  /** One row of `body_summary`. The statistics are NaN for a group without a priced row. */
  datatype BodyRow = BodyRow(carbody: Level, count: nat, mean: Num, median: Num, min: Num, max: Num)

  /** `.agg(["count", "mean", "median", "min", "max"])` on one group's prices: pandas skips NaN
      prices, so `count` counts the priced rows and the statistics range over their prices. */
  function Aggregate(k: Level, prices: seq<Num>): (r: BodyRow)
    ensures r.carbody == k
    ensures r.count == |Present(prices)| <= |prices|
    ensures r.count > 0 <==> exists x :: Some(x) in prices
    ensures r.mean.Some? == r.median.Some? == r.min.Some? == r.max.Some? == (r.count > 0)
    ensures r.count > 0 ==> r.min.value <= r.median.value <= r.max.value
    ensures r.count > 0 ==> r.min.value <= r.mean.value <= r.max.value
    ensures r.count > 0 ==> Some(r.min.value) in prices && forall x :: Some(x) in prices ==> r.min.value <= x
    ensures r.count > 0 ==> Some(r.max.value) in prices && forall x :: Some(x) in prices ==> x <= r.max.value
  {
    var vs := Present(prices);
    ExtremesOfPresent(prices);
    BodyRow(k, |vs|, MeanOf(prices), MedianOf(prices), MinOf(prices), MaxOf(prices))
  }

  /** `df.groupby("carbody")["price"].agg(...).reset_index()`: one row per body type, in key order. */
  function GroupSummary(t: Table): (r: seq<BodyRow>)
    ensures |r| == |GroupKeys(t, CarBody)|
    ensures forall i :: 0 <= i < |r| ==> r[i].carbody == GroupKeys(t, CarBody)[i]
    ensures forall i :: 0 <= i < |r| ==> r[i] == Aggregate(r[i].carbody, GroupValues(t, CarBody, r[i].carbody, Price))
  {
    var keys := GroupKeys(t, CarBody);
    seq(|keys|, i requires 0 <= i < |keys| => Aggregate(keys[i], GroupValues(t, CarBody, keys[i], Price)))
  }

  /** `.sort_values("mean", ascending=False)`: the group rows, dearest mean first, NaN means last. */
  function BodySummary(t: Table): (r: seq<BodyRow>)
    ensures multiset(r) == multiset(GroupSummary(t))
    ensures forall i, j :: 0 <= i < j < |r| ==> NumGeq(r[i].mean, r[j].mean)
  {
    SortDescending(GroupSummary(t), (row: BodyRow) => row.mean)
  }

  /** Every body type in the table has a row of the grouped summary. */
  lemma EveryBodyTypeGrouped(t: Table)
    ensures forall a :: 0 <= a < |t| ==>
      exists i :: 0 <= i < |GroupSummary(t)| && GroupSummary(t)[i].carbody == Label(t[a].carbody)
  {
    var rows, keys := GroupSummary(t), GroupKeys(t, CarBody);
    forall a | 0 <= a < |t| ensures exists i :: 0 <= i < |rows| && rows[i].carbody == Label(t[a].carbody) {
      var k := Label(t[a].carbody);
      assert LevelColumn(t, CarBody)[a] == k;
      assert k in keys;
      var b :| 0 <= b < |keys| && keys[b] == k;
      assert rows[b].carbody == keys[b];
    }
  }

  /** No body type has two rows in the summary. */
  lemma NoBodyTypeTwice(t: Table)
    ensures forall i, j :: 0 <= i < j < |BodySummary(t)| ==> BodySummary(t)[i].carbody != BodySummary(t)[j].carbody
  {
    PermutationKeepsKeys(GroupSummary(t), BodySummary(t), (row: BodyRow) => row.carbody);
  }

  /** The summary's body types are exactly those of the table. */
  lemma OneRowPerBodyType(t: Table)
    ensures forall i :: 0 <= i < |BodySummary(t)| ==> BodySummary(t)[i].carbody in LevelColumn(t, CarBody)
    ensures forall a :: 0 <= a < |t| ==>
      exists i :: 0 <= i < |BodySummary(t)| && BodySummary(t)[i].carbody == Category(t[a], CarBody)
  {
    ReorderedKeysAreColumnValues(t, CarBody, GroupSummary(t), BodySummary(t), (row: BodyRow) => row.carbody);
  }

  /** Every row of the summary aggregates the prices of its body type, so its statistics are
      ordered and its count is within the group's size. */
  lemma RowsAggregateTheirGroup(t: Table)
    ensures forall i :: 0 <= i < |BodySummary(t)| ==>
      BodySummary(t)[i] == Aggregate(BodySummary(t)[i].carbody, GroupValues(t, CarBody, BodySummary(t)[i].carbody, Price))
  {
    var rows, r := GroupSummary(t), BodySummary(t);
    forall i | 0 <= i < |r| ensures r[i] == Aggregate(r[i].carbody, GroupValues(t, CarBody, r[i].carbody, Price)) {
      assert r[i] in multiset(rows);
    }
  }

  /** The mask of the rows of body type `k` that have a price. */
  function PricedBody(k: Level): Car -> bool { (c: Car) => Category(c, CarBody) == k && c.price.Some? }

  /** A row is a priced row of body type `k` iff it is in group `k` and has a price. */
  lemma PricedBodyIsBoth(k: Level, c: Car)
    ensures PricedBody(k)(c) == (InGroup(CarBody, k)(c) && HasValue(Price)(c))
  {
  }

  /** A row's count is the number of rows of its body type that have a price. */
  lemma CountIsPricedRows(t: Table, k: Level)
    ensures |Present(GroupValues(t, CarBody, k, Price))| == |Where(t, PricedBody(k))|
  {
    PresentCount(GroupRows(t, CarBody, k), Price);
    forall c ensures PricedBody(k)(c) == (InGroup(CarBody, k)(c) && HasValue(Price)(c)) {
      PricedBodyIsBoth(k, c);
    }
    WhereFuse(t, InGroup(CarBody, k), HasValue(Price), PricedBody(k));
  }

  /** `run_page` receives the session's filtered table when there is one, the whole data set otherwise. */
  function RunPage(filteredDf: Option<Table>, csv: Table): (r: seq<BodyRow>)
    ensures filteredDf.Some? ==> r == BodySummary(filteredDf.value)
    ensures filteredDf.None? ==> r == BodySummary(csv)
  {
    match filteredDf
    case Some(df) => BodySummary(df)
    case None => BodySummary(csv)
  }
}
