/**
 * Hypothesis 4, `pages/hypothesis4.py`: are front-wheel-drive cars cheaper than rear-wheel-drive
 * cars? The page reads the whole data set (it ignores the sidebar filters), lists the mean price
 * per drive-wheel type from the dearest to the cheapest, and compares the fwd and rwd prices with
 * a Welch t-test.
 */
module Hypothesis4 {
  import opened Frame
  import opened Stats
  import opened Significance
  import opened Grouping

  /** One row of `avg_price`: a drive-wheel type and its mean price (NaN when no row of that
      type has a price). */
  datatype DriveRow = DriveRow(drivewheel: Level, price: Num)

  /** `df.groupby("drivewheel")["price"].mean().reset_index()`: one row per drive-wheel type, in
      key order. */
  function GroupMeans(t: Table): (r: seq<DriveRow>)
    ensures |r| == |GroupKeys(t, DriveWheel)|
    ensures forall i :: 0 <= i < |r| ==> r[i].drivewheel == GroupKeys(t, DriveWheel)[i]
    ensures forall i :: 0 <= i < |r| ==> r[i].price == MeanOf(GroupValues(t, DriveWheel, r[i].drivewheel, Price))
  {
    var keys := GroupKeys(t, DriveWheel);
    seq(|keys|, i requires 0 <= i < |keys| => DriveRow(keys[i], MeanOf(GroupValues(t, DriveWheel, keys[i], Price))))
  }

  /** `.sort_values("price", ascending=False)`: dearest mean first, NaN means last. */
  function AvgPrice(t: Table): (r: seq<DriveRow>)
    ensures multiset(r) == multiset(GroupMeans(t))
    ensures forall i, j :: 0 <= i < j < |r| ==> NumGeq(r[i].price, r[j].price)
  {
    SortDescending(GroupMeans(t), (row: DriveRow) => row.price)
  }

  /** No drive-wheel type has two rows in `avg_price`. */
  lemma NoDriveTypeTwice(t: Table)
    ensures forall i, j :: 0 <= i < j < |AvgPrice(t)| ==> AvgPrice(t)[i].drivewheel != AvgPrice(t)[j].drivewheel
  {
    PermutationKeepsKeys(GroupMeans(t), AvgPrice(t), (row: DriveRow) => row.drivewheel);
  }

  /** Every drive-wheel type of the table has a row of the grouped means. */
  lemma EveryDriveTypeGrouped(t: Table)
    ensures forall a :: 0 <= a < |t| ==>
      exists i :: 0 <= i < |GroupMeans(t)| && GroupMeans(t)[i].drivewheel == Label(t[a].drivewheel)
  {
    var rows, keys := GroupMeans(t), GroupKeys(t, DriveWheel);
    forall a | 0 <= a < |t| ensures exists i :: 0 <= i < |rows| && rows[i].drivewheel == Label(t[a].drivewheel) {
      var k := Label(t[a].drivewheel);
      assert LevelColumn(t, DriveWheel)[a] == k;
      assert k in keys;
      var b :| 0 <= b < |keys| && keys[b] == k;
      assert rows[b].drivewheel == keys[b];
    }
  }

  /** The drive-wheel types of `avg_price` are exactly those of the table. */
  lemma OneRowPerDriveType(t: Table)
    ensures forall i :: 0 <= i < |AvgPrice(t)| ==> AvgPrice(t)[i].drivewheel in LevelColumn(t, DriveWheel)
    ensures forall a :: 0 <= a < |t| ==>
      exists i :: 0 <= i < |AvgPrice(t)| && AvgPrice(t)[i].drivewheel == Category(t[a], DriveWheel)
  {
    ReorderedKeysAreColumnValues(t, DriveWheel, GroupMeans(t), AvgPrice(t), (row: DriveRow) => row.drivewheel);
  }

  /** Each row's value is the mean price of its drive-wheel type (which the contract of `MeanOf`
      places between the group's least and greatest present price). */
  lemma RowsAreGroupMeans(t: Table)
    ensures forall i :: 0 <= i < |AvgPrice(t)| ==>
      AvgPrice(t)[i].price == MeanOf(GroupValues(t, DriveWheel, AvgPrice(t)[i].drivewheel, Price))
  {
    var rows, r := GroupMeans(t), AvgPrice(t);
    forall i | 0 <= i < |r| ensures r[i].price == MeanOf(GroupValues(t, DriveWheel, r[i].drivewheel, Price)) {
      assert r[i] in multiset(rows);
    }
  }

  // ---------------------------------------------------------------------------
  // The fwd / rwd comparison

  /** The mask of the rows that are neither fwd nor rwd (the 4wd cars). */
  function OtherDrive(): Car -> bool { (c: Car) => c.drivewheel != "fwd" && c.drivewheel != "rwd" }

  /** `df[df["drivewheel"] == drive]["price"]`: the prices of the rows of that drive type, in row
      order, NaN included. */
  function DrivePrices(t: Table, drive: string): (r: seq<Num>)
    ensures |r| == |GroupRows(t, DriveWheel, Label(drive))|
    ensures forall i :: 0 <= i < |r| ==>
      var row := GroupRows(t, DriveWheel, Label(drive))[i];
      r[i] == Get(row, Price) && row in t && row.drivewheel == drive
  {
    GroupValues(t, DriveWheel, Label(drive), Price)
  }

  /** A row is in exactly one of the fwd rows, the rwd rows and the other rows. */
  lemma DriveOfRow(c: Car)
    ensures ExactlyOne(InGroup(DriveWheel, Label("fwd")), InGroup(DriveWheel, Label("rwd")), OtherDrive(), c)
  {
  }

  /** Every row is a fwd row, a rwd row or another row, and in only one of them. */
  lemma DriveSplitPartition(t: Table)
    ensures multiset(GroupRows(t, DriveWheel, Label("fwd"))) + multiset(GroupRows(t, DriveWheel, Label("rwd")))
          + multiset(Where(t, OtherDrive())) == multiset(t)
    ensures |GroupRows(t, DriveWheel, Label("fwd"))| + |GroupRows(t, DriveWheel, Label("rwd"))|
          + |Where(t, OtherDrive())| == |t|
  {
    var fwd, rwd := InGroup(DriveWheel, Label("fwd")), InGroup(DriveWheel, Label("rwd"));
    forall i | 0 <= i < |t| ensures ExactlyOne(fwd, rwd, OtherDrive(), t[i]) {
      DriveOfRow(t[i]);
    }
    WherePartition(t, fwd, rwd, OtherDrive());
  }

  /** Both groups keep the row order, and a 4wd row is in neither. */
  lemma DriveGroupsInOrder(t: Table)
    ensures IsSubsequence(GroupRows(t, DriveWheel, Label("fwd")), t)
    ensures IsSubsequence(GroupRows(t, DriveWheel, Label("rwd")), t)
    ensures forall c: Car :: c.drivewheel == "4wd" ==>
      c !in GroupRows(t, DriveWheel, Label("fwd")) && c !in GroupRows(t, DriveWheel, Label("rwd"))
  {
    var fwd, rwd := InGroup(DriveWheel, Label("fwd")), InGroup(DriveWheel, Label("rwd"));
    WhereIsSubsequence(t, fwd);
    WhereIsSubsequence(t, rwd);
    forall c: Car | c.drivewheel == "4wd" ensures c !in Where(t, fwd) && c !in Where(t, rwd) {
      FourWheelInNeither(t, c);
    }
  }

  /** A 4wd car is neither a fwd nor a rwd car. */
  lemma FourWheelInNeither(t: Table, c: Car)
    requires c.drivewheel == "4wd"
    ensures c !in GroupRows(t, DriveWheel, Label("fwd")) && c !in GroupRows(t, DriveWheel, Label("rwd"))
  {
    var fwd, rwd := InGroup(DriveWheel, Label("fwd")), InGroup(DriveWheel, Label("rwd"));
    assert c.drivewheel[0] == '4';
    assert !fwd(c) && !rwd(c);
  }

  /** What the page shows, apart from charts and prose. */
  datatype Report = Report(
    avgPrice: seq<DriveRow>,
    fwdCount: nat,
    rwdCount: nat,
    tTest: TestResult,
    supported: bool)

  /** The page on the data set it reads itself: the counts are the sizes of the two price series
      (NaN prices included), the t-test gets the fwd prices first, and the success message is shown
      exactly when the p-value is below 0.05. */
  function RunPage(csv: Table, scipy: Scipy): (r: Report)
    ensures r.avgPrice == AvgPrice(csv)
    ensures r.fwdCount == |DrivePrices(csv, "fwd")| && r.rwdCount == |DrivePrices(csv, "rwd")|
    ensures r.tTest == scipy.ttest(DrivePrices(csv, "fwd"), DrivePrices(csv, "rwd"))
    ensures r.supported <==> Below(r.tTest.p, Alpha)
  {
    var fwd, rwd := DrivePrices(csv, "fwd"), DrivePrices(csv, "rwd");
    var tTest := scipy.ttest(fwd, rwd);
    Report(AvgPrice(csv), |fwd|, |rwd|, tTest, tTest.p.Some? && tTest.p.value < 0.05)
  }

  /** The verdict is the success message exactly when the p-value would be labelled "Significant"
      on the other pages; a p-value of exactly 0.05 or NaN is not. */
  lemma VerdictIsSignificance(csv: Table, scipy: Scipy)
    ensures RunPage(csv, scipy).supported <==> SignificanceLabel(RunPage(csv, scipy).tTest.p) == "Significant"
    ensures RunPage(csv, scipy).tTest.p == Some(Alpha) ==> !RunPage(csv, scipy).supported
  {
  }

  /** The page's counts add up to at most the number of rows; they add up to exactly that number
      when every car is fwd or rwd. */
  lemma CountsCoverTable(csv: Table, scipy: Scipy)
    ensures RunPage(csv, scipy).fwdCount + RunPage(csv, scipy).rwdCount <= |csv|
    ensures (forall i :: 0 <= i < |csv| ==> csv[i].drivewheel == "fwd" || csv[i].drivewheel == "rwd") ==>
      RunPage(csv, scipy).fwdCount + RunPage(csv, scipy).rwdCount == |csv|
  {
    DriveSplitPartition(csv);
    if forall i :: 0 <= i < |csv| ==> csv[i].drivewheel == "fwd" || csv[i].drivewheel == "rwd" {
      WhereKeepsNone(csv, OtherDrive());
    }
  }
}
