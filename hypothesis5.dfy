/**
 * Hypothesis 5, `pages/hypothesis5.py`: is at least one feature significantly related to the
 * price? The page caps the price at its 99th percentile, sorts the categorical features into
 * binary and multi-level ones by their number of distinct values, and builds two result tables:
 * a Spearman correlation per continuous feature, sorted by the coefficient, and a Mann-Whitney U
 * test per binary feature followed by a Kruskal-Wallis H test per multi-level feature.
 */
module Hypothesis5 {
  import opened Frame
  import opened Stats
  import opened Significance
  import opened Grouping

  // ---------------------------------------------------------------------------
  // Data preparation

  /** The categorical features, in the page's order. */
  const Cats: seq<CatCol> := [Symboling, FuelType, Aspiration, DoorNumber, CarBody, DriveWheel,
                              EngineType, CylinderNumber, FuelSystem, Manufacturer, CompressionRatioBin]

  /** The continuous features, in the page's order. */
  const Conts: seq<NumCol> := [Wheelbase, CarLength, CarWidth, CarHeight, CurbWeight, EngineSize,
                               BoreRatio, Stroke, Horsepower, PeakRpm, CityMpg, HighwayMpg, PricePerHp,
                               PowerToWeightRatio, EngineEfficiency, AvgMpg, PricePerMpg]

  /** The target of every test. */
  const Target: NumCol := Price

  /** `df[col].nunique()`: the number of distinct values of the column. */
  function Nunique(t: Table, col: CatCol): nat
  {
    |Distinct(LevelColumn(t, col))|
  }

  /** A column has as many distinct values as group keys. */
  lemma NuniqueIsKeyCount(t: Table, col: CatCol)
    ensures Nunique(t, col) == |GroupKeys(t, col)|
  {
    LevelLeIsTotalPreorder();
    assert GroupKeys(t, col) == SortBy(Distinct(LevelColumn(t, col)), LevelLe);
  }

  /** `df[cat].nunique()` for every feature `cat` of a table. */
  function NuniqueOf(t: Table): CatCol -> nat { (f: CatCol) => Nunique(t, f) }

  function IsBinary(nunique: CatCol -> nat): CatCol -> bool { (f: CatCol) => nunique(f) == 2 }

  function IsMulti(nunique: CatCol -> nat): CatCol -> bool { (f: CatCol) => nunique(f) > 2 }

  /** `cats_binary`: the features of `cats` with exactly two values, in their order. */
  function CatsBinary(cats: seq<CatCol>, nunique: CatCol -> nat): seq<CatCol> { Where(cats, IsBinary(nunique)) }

  /** `cats_multi` before the removal: the features of `cats` with more than two values, in their order. */
  function CatsMulti(cats: seq<CatCol>, nunique: CatCol -> nat): seq<CatCol> { Where(cats, IsMulti(nunique)) }

  /** A feature is binary iff it has exactly two values and multi-level iff it has more; a feature
      with fewer than two values is in neither list; both lists keep the order of `cats`. */
  lemma FeatureSplit(cats: seq<CatCol>, nunique: CatCol -> nat)
    ensures forall f :: f in CatsBinary(cats, nunique) <==> f in cats && nunique(f) == 2
    ensures forall f :: f in CatsMulti(cats, nunique) <==> f in cats && nunique(f) > 2
    ensures forall f :: f in CatsBinary(cats, nunique) ==> f !in CatsMulti(cats, nunique)
    ensures forall f :: nunique(f) < 2 ==> f !in CatsBinary(cats, nunique) && f !in CatsMulti(cats, nunique)
    ensures IsSubsequence(CatsBinary(cats, nunique), cats) && IsSubsequence(CatsMulti(cats, nunique), cats)
  {
    WhereIsSubsequence(cats, IsBinary(nunique));
    WhereIsSubsequence(cats, IsMulti(nunique));
  }

  /** `list.remove(x)`: the list without the first occurrence of `x`; `ValueError` when `x` is absent. */
  function Remove<T(==)>(xs: seq<T>, x: T): (r: Outcome<seq<T>>)
    ensures r.Raised? <==> x !in xs
    ensures r.Raised? ==> r.error == "ValueError"
    ensures r.Ok? ==> exists i :: 0 <= i < |xs| && xs[i] == x && x !in xs[..i] && r.value == xs[..i] + xs[i + 1..]
  {
    if x !in xs then Raised("ValueError")
    else
      var i := FirstIndex(xs, x);
      Ok(xs[..i] + xs[i + 1..])
  }

  /** Removing an element from a list without repetitions leaves no copy of it and shortens the
      list by one. */
  lemma RemoveLeavesNone<T>(xs: seq<T>, x: T)
    requires NoDuplicates(xs)
    ensures Remove(xs, x).Ok? ==> x !in Remove(xs, x).value && |Remove(xs, x).value| == |xs| - 1
    ensures Remove(xs, x).Ok? ==> forall y :: y != x ==> (y in Remove(xs, x).value <==> y in xs)
  {
    if x in xs {
      var i := FirstIndex(xs, x);
      var before, after := xs[..i], xs[i + 1..];
      assert Remove(xs, x).value == before + after;
      assert xs == before + [x] + after;
      forall k | 0 <= k < |after| ensures after[k] != x {
        assert after[k] == xs[i + 1 + k];
      }
    }
  }

  /** The page's `cats` lists each feature once. */
  lemma CatsListedOnce()
    ensures NoDuplicates(Cats)
  {
  }

  /** `cats_binary`, and `cats_multi` after `cats_multi.remove('manufacturer')`, or the error of
      the removal. */
  function SplitFeatures(cats: seq<CatCol>, nunique: CatCol -> nat): Outcome<(seq<CatCol>, seq<CatCol>)>
  {
    match Remove(CatsMulti(cats, nunique), Manufacturer)
    case Raised(e) => Raised(e)
    case Ok(multi) => Ok((CatsBinary(cats, nunique), multi))
  }

  /** The removal raises `ValueError` exactly when `manufacturer` is not a multi-level feature. */
  lemma SplitFeaturesRaises(cats: seq<CatCol>, nunique: CatCol -> nat)
    ensures SplitFeatures(cats, nunique).Raised? <==> !(Manufacturer in cats && nunique(Manufacturer) > 2)
    ensures SplitFeatures(cats, nunique).Raised? ==> SplitFeatures(cats, nunique).error == "ValueError"
  {
    FeatureSplit(cats, nunique);
  }

  /** When `cats` lists each feature once, the binary features are those with two values and the
      multi-level ones those with more, `manufacturer` left out, so one shorter than before the
      removal. */
  lemma SplitFeaturesLists(cats: seq<CatCol>, nunique: CatCol -> nat)
    requires NoDuplicates(cats)
    ensures SplitFeatures(cats, nunique).Ok? ==>
      var (binary, multi) := SplitFeatures(cats, nunique).value;
      binary == CatsBinary(cats, nunique)
      && (forall f :: f in binary <==> f in cats && nunique(f) == 2)
      && (forall f :: f in multi <==> f in cats && nunique(f) > 2 && f != Manufacturer)
      && |multi| == |CatsMulti(cats, nunique)| - 1
  {
    var m := CatsMulti(cats, nunique);
    FeatureSplit(cats, nunique);
    WhereNoDuplicates(cats, IsMulti(nunique));
    RemoveLeavesNone(m, Manufacturer);
  }

  // ---------------------------------------------------------------------------
  // Spearman correlations of the continuous features

  /** One row of `spearman_results`. */
  datatype SpearmanRow = SpearmanRow(feature: NumCol, corr: Num, p: Num)

  /** The mask of `df[[feature, target]].dropna()`: both cells present. */
  function BothPresent(feature: NumCol, target: NumCol): Car -> bool
  {
    (c: Car) => Get(c, feature).Some? && Get(c, target).Some?
  }

  /** The rows `spearmanr` sees for a feature. */
  function PairedRows(t: Table, feature: NumCol, target: NumCol): Table
  {
    Where(t, BothPresent(feature, target))
  }

  /** The test of one feature: Spearman's rank correlation of the feature against the target over
      the rows where both are present. */
  function SpearmanTest(t: Table, feature: NumCol, target: NumCol, scipy: Scipy): (r: SpearmanRow)
    ensures r.feature == feature
    ensures var rows := PairedRows(t, feature, target);
      var res := scipy.spearman(Column(rows, feature), Column(rows, target));
      r.corr == res.stat && r.p == res.p
  {
    var rows := PairedRows(t, feature, target);
    var res := scipy.spearman(Column(rows, feature), Column(rows, target));
    SpearmanRow(feature, res.stat, res.p)
  }

  /** The two series handed to `spearmanr` are complete and aligned: they come from the rows, in
      order, where both the feature and the target are present, and from every such row. */
  lemma SpearmanSamplesComplete(t: Table, feature: NumCol, target: NumCol)
    ensures IsSubsequence(PairedRows(t, feature, target), t)
    ensures forall i :: 0 <= i < |t| && Get(t[i], feature).Some? && Get(t[i], target).Some? ==>
      t[i] in PairedRows(t, feature, target)
    ensures var rows := PairedRows(t, feature, target);
      |Column(rows, feature)| == |Column(rows, target)| == |rows|
      && (forall i :: 0 <= i < |rows| ==> Column(rows, feature)[i].Some? && Column(rows, target)[i].Some?)
  {
    WhereIsSubsequence(t, BothPresent(feature, target));
    forall i | 0 <= i < |t| && Get(t[i], feature).Some? && Get(t[i], target).Some?
      ensures t[i] in PairedRows(t, feature, target)
    {
      PairedRowKept(t, feature, target, t[i]);
    }
    var rows := PairedRows(t, feature, target);
    forall i | 0 <= i < |rows| ensures Column(rows, feature)[i].Some? && Column(rows, target)[i].Some? {
      PairedRowComplete(t, feature, target, rows[i]);
    }
  }

  /** A row of the table with both cells present is handed to `spearmanr`. */
  lemma PairedRowKept(t: Table, feature: NumCol, target: NumCol, c: Car)
    requires c in t && Get(c, feature).Some? && Get(c, target).Some?
    ensures c in PairedRows(t, feature, target)
  {
    assert BothPresent(feature, target)(c);
  }

  /** A row handed to `spearmanr` has both cells present. */
  lemma PairedRowComplete(t: Table, feature: NumCol, target: NumCol, c: Car)
    requires c in PairedRows(t, feature, target)
    ensures Get(c, feature).Some? && Get(c, target).Some?
  {
    assert BothPresent(feature, target)(c);
  }

  /** The rows of the tests of `ps`, one per predictor, in the order of `ps`. */
  function SpearmanTests(t: Table, ps: seq<NumCol>, target: NumCol, scipy: Scipy): (r: seq<SpearmanRow>)
    ensures |r| == |ps|
    ensures forall i :: 0 <= i < |ps| ==> r[i].feature == ps[i]
  {
    seq(|ps|, i requires 0 <= i < |ps| => SpearmanTest(t, ps[i], target, scipy))
  }

  /** `spearman_feature_test`: one test per predictor, appended in order, then sorted by the
      coefficient, largest first, NaN last. */
  method SpearmanFeatureTest(t: Table, predictors: seq<NumCol>, target: NumCol, scipy: Scipy)
    returns (resultsDf: seq<SpearmanRow>)
    ensures |resultsDf| == |predictors|
    ensures multiset(resultsDf) == multiset(SpearmanTests(t, predictors, target, scipy))
    ensures forall i, j :: 0 <= i < j < |resultsDf| ==> NumGeq(resultsDf[i].corr, resultsDf[j].corr)
  {
    var results: seq<SpearmanRow> := [];
    for k := 0 to |predictors|
      invariant |results| == k
      invariant forall i :: 0 <= i < k ==> results[i] == SpearmanTest(t, predictors[i], target, scipy)
    {
      results := results + [SpearmanTest(t, predictors[k], target, scipy)];
    }
    assert results == SpearmanTests(t, predictors, target, scipy);
    resultsDf := SortDescending(results, (row: SpearmanRow) => row.corr);
    assert |resultsDf| == |multiset(resultsDf)| == |multiset(results)| == |results|;
  }

  /** Every predictor has a row of the sorted table, and every row belongs to a predictor. */
  lemma OneRowPerPredictor(rows: seq<SpearmanRow>, t: Table, predictors: seq<NumCol>, target: NumCol, scipy: Scipy)
    requires multiset(rows) == multiset(SpearmanTests(t, predictors, target, scipy))
    ensures forall k :: 0 <= k < |predictors| ==> exists i :: 0 <= i < |rows| && rows[i].feature == predictors[k]
    ensures forall i :: 0 <= i < |rows| ==> rows[i].feature in predictors
  {
    var unsorted := SpearmanTests(t, predictors, target, scipy);
    forall k | 0 <= k < |predictors| ensures exists i :: 0 <= i < |rows| && rows[i].feature == predictors[k] {
      assert unsorted[k] in multiset(rows);
      var i :| 0 <= i < |rows| && rows[i] == unsorted[k];
    }
    forall i | 0 <= i < |rows| ensures rows[i].feature in predictors {
      assert rows[i] in multiset(unsorted);
      var k :| 0 <= k < |unsorted| && unsorted[k] == rows[i];
      assert predictors[k] in predictors;
    }
  }

  // ---------------------------------------------------------------------------
  // Tests of the categorical features

  /** One row of `cat_results_df`. */
  datatype CatRow = CatRow(feature: CatCol, test: string, statistic: Num, p: Num)

  /** `valid.groupby(feature)[target].apply(list)`: the target values of each level, levels in key
      order, each group in row order with its NaN entries. */
  function LevelGroups(t: Table, feature: CatCol, target: NumCol): (r: seq<seq<Num>>)
    ensures |r| == Nunique(t, feature)
    ensures forall i :: 0 <= i < |r| ==> |r[i]| == |GroupRows(t, feature, GroupKeys(t, feature)[i])|
    ensures forall i, j :: 0 <= i < |r| && 0 <= j < |r[i]| ==>
      var row := GroupRows(t, feature, GroupKeys(t, feature)[i])[j];
      r[i][j] == Get(row, target) && row in t && Category(row, feature) == GroupKeys(t, feature)[i]
  {
    var keys := GroupKeys(t, feature);
    seq(|keys|, i requires 0 <= i < |keys| => GroupValues(t, feature, keys[i], target))
  }

  /** The groups of every feature of a table, as the loop bodies compute them for the feature they visit. */
  function Groupby(t: Table, target: NumCol): CatCol -> seq<seq<Num>>
  {
    (f: CatCol) => LevelGroups(t, f, target)
  }

  /** The Mann-Whitney U row of a binary feature from its groups: the first two, in key order. A
      feature with fewer than two groups has no `groups.iloc[1]`: `IndexError`. */
  function MannWhitneyRow(feature: CatCol, groups: seq<seq<Num>>, scipy: Scipy): (r: Outcome<CatRow>)
    ensures r.Raised? <==> |groups| < 2
    ensures r.Raised? ==> r.error == "IndexError"
    ensures r.Ok? ==> r.value.feature == feature && r.value.test == "Mann-Whitney U"
    ensures r.Ok? ==> var u := scipy.mannwhitney(groups[0], groups[1]);
      r.value.statistic == u.stat && r.value.p == u.p
  {
    if |groups| < 2 then Raised("IndexError")
    else
      var u := scipy.mannwhitney(groups[0], groups[1]);
      Ok(CatRow(feature, "Mann-Whitney U", u.stat, u.p))
  }

  /** The Kruskal-Wallis H row of a multi-level feature from its groups: all of them, in key order. */
  function KruskalRow(feature: CatCol, groups: seq<seq<Num>>, scipy: Scipy): (r: CatRow)
    ensures r.feature == feature && r.test == "Kruskal-Wallis H"
    ensures r.statistic == scipy.kruskal(groups).stat && r.p == scipy.kruskal(groups).p
  {
    var h := scipy.kruskal(groups);
    CatRow(feature, "Kruskal-Wallis H", h.stat, h.p)
  }

  /** On a table, a binary feature's test raises exactly when the feature has fewer than two
      levels; otherwise it compares the target values of the lowest level with those of the next. */
  lemma BinaryTestOnLevels(t: Table, feature: CatCol, target: NumCol, scipy: Scipy)
    ensures MannWhitneyRow(feature, LevelGroups(t, feature, target), scipy).Ok? <==> Nunique(t, feature) >= 2
    ensures MannWhitneyRow(feature, LevelGroups(t, feature, target), scipy).Ok? ==>
      var r, keys := MannWhitneyRow(feature, LevelGroups(t, feature, target), scipy).value, GroupKeys(t, feature);
      var u := scipy.mannwhitney(GroupValues(t, feature, keys[0], target), GroupValues(t, feature, keys[1], target));
      LevelLe(keys[0], keys[1]) && keys[0] != keys[1] && r.statistic == u.stat && r.p == u.p
  {
  }

  /** The two samples of a binary feature are the target values of its two levels, and together
      they hold every row of the table. */
  lemma BinarySamplesCoverTable(t: Table, feature: CatCol)
    requires Nunique(t, feature) == 2
    ensures var keys := GroupKeys(t, feature);
      keys[0] != keys[1]
      && |GroupRows(t, feature, keys[0])| + |GroupRows(t, feature, keys[1])| == |t|
  {
    var keys := GroupKeys(t, feature);
    var p, q := InGroup(feature, keys[0]), InGroup(feature, keys[1]);
    var none := (c: Car) => false;
    forall i | 0 <= i < |t| ensures ExactlyOne(p, q, none, t[i]) {
      assert LevelColumn(t, feature)[i] == Category(t[i], feature);
      assert Category(t[i], feature) in keys;
    }
    WherePartition(t, p, q, none);
    WhereKeepsNone(t, none);
  }

  /** The Mann-Whitney U rows of the binary features `fs`, in order, or the error of the first that
      raises; `groupsOf` gives each feature's groups. */
  function BinaryRows(fs: seq<CatCol>, groupsOf: CatCol -> seq<seq<Num>>, scipy: Scipy): (r: Outcome<seq<CatRow>>)
    ensures r.Raised? ==> r.error == "IndexError"
    ensures r.Ok? ==> |r.value| == |fs|
  {
    if fs == [] then Ok([])
    else
      match BinaryRows(fs[..|fs| - 1], groupsOf, scipy)
      case Raised(e) => Raised(e)
      case Ok(rows) =>
        match MannWhitneyRow(fs[|fs| - 1], groupsOf(fs[|fs| - 1]), scipy)
        case Raised(e) => Raised(e)
        case Ok(row) => Ok(rows + [row])
  }

  /** The binary rows succeed exactly when every feature has two groups, and then hold the
      features' rows in order. */
  lemma {:induction false} BinaryRowsInOrder(fs: seq<CatCol>, groupsOf: CatCol -> seq<seq<Num>>, scipy: Scipy)
    ensures BinaryRows(fs, groupsOf, scipy).Ok? <==> forall i :: 0 <= i < |fs| ==> |groupsOf(fs[i])| >= 2
    ensures BinaryRows(fs, groupsOf, scipy).Ok? ==> forall i :: 0 <= i < |fs| ==>
      Ok(BinaryRows(fs, groupsOf, scipy).value[i]) == MannWhitneyRow(fs[i], groupsOf(fs[i]), scipy)
  {
    if fs != [] {
      var init := fs[..|fs| - 1];
      BinaryRowsInOrder(init, groupsOf, scipy);
      assert forall i :: 0 <= i < |init| ==> init[i] == fs[i];
    }
  }

  /** The Kruskal-Wallis H rows of the multi-level features `fs`, in order. */
  function MultiRows(fs: seq<CatCol>, groupsOf: CatCol -> seq<seq<Num>>, scipy: Scipy): (r: seq<CatRow>)
    ensures |r| == |fs|
    ensures forall i :: 0 <= i < |fs| ==> r[i] == KruskalRow(fs[i], groupsOf(fs[i]), scipy)
  {
    if fs == [] then []
    else MultiRows(fs[..|fs| - 1], groupsOf, scipy) + [KruskalRow(fs[|fs| - 1], groupsOf(fs[|fs| - 1]), scipy)]
  }

  /** What `categorical_feature_tests` returns or raises: the binary rows, then the multi-level rows. */
  function CategoricalRows(binaryFeatures: seq<CatCol>, multiFeatures: seq<CatCol>,
                           groupsOf: CatCol -> seq<seq<Num>>, scipy: Scipy): Outcome<seq<CatRow>>
  {
    match BinaryRows(binaryFeatures, groupsOf, scipy)
    case Raised(e) => Raised(e)
    case Ok(rows) => Ok(rows + MultiRows(multiFeatures, groupsOf, scipy))
  }

  /** The result table holds one row per feature: the binary features first, each labelled
      "Mann-Whitney U", then the multi-level features, each labelled "Kruskal-Wallis H", both in
      input order; it is an `IndexError` exactly when a binary feature has fewer than two groups. */
  lemma CategoricalRowsLayout(binaryFeatures: seq<CatCol>, multiFeatures: seq<CatCol>,
                              groupsOf: CatCol -> seq<seq<Num>>, scipy: Scipy)
    ensures var r := CategoricalRows(binaryFeatures, multiFeatures, groupsOf, scipy);
      (r.Ok? <==> forall i :: 0 <= i < |binaryFeatures| ==> |groupsOf(binaryFeatures[i])| >= 2)
      && (r.Raised? ==> r.error == "IndexError")
      && (r.Ok? ==> |r.value| == |binaryFeatures| + |multiFeatures|)
      && (r.Ok? ==> forall i :: 0 <= i < |binaryFeatures| ==>
            r.value[i].feature == binaryFeatures[i] && r.value[i].test == "Mann-Whitney U")
      && (r.Ok? ==> forall i :: 0 <= i < |multiFeatures| ==>
            r.value[|binaryFeatures| + i].feature == multiFeatures[i]
            && r.value[|binaryFeatures| + i].test == "Kruskal-Wallis H")
  {
    BinaryRowsInOrder(binaryFeatures, groupsOf, scipy);
  }

  /** A feature's groups on a table are as many as its levels. */
  lemma GroupbyCounts(t: Table, target: NumCol)
    ensures forall f :: |Groupby(t, target)(f)| == NuniqueOf(t)(f)
  {
    forall f ensures |Groupby(t, target)(f)| == NuniqueOf(t)(f) {
      assert Groupby(t, target)(f) == LevelGroups(t, f, target);
    }
  }

  /** When each feature has as many groups as levels, the tests never raise on the features the
      page selects. */
  lemma SelectedFeaturesPass(cats: seq<CatCol>, nunique: CatCol -> nat, groupsOf: CatCol -> seq<seq<Num>>,
                             scipy: Scipy)
    requires forall f :: |groupsOf(f)| == nunique(f)
    ensures SplitFeatures(cats, nunique).Ok? ==>
      var (binary, multi) := SplitFeatures(cats, nunique).value;
      CategoricalRows(binary, multi, groupsOf, scipy).Ok?
  {
    if SplitFeatures(cats, nunique).Ok? {
      var (binary, multi) := SplitFeatures(cats, nunique).value;
      FeatureSplit(cats, nunique);
      forall i | 0 <= i < |binary| ensures |groupsOf(binary[i])| >= 2 {
        assert binary[i] in binary;
      }
      CategoricalRowsLayout(binary, multi, groupsOf, scipy);
    }
  }

  /** `categorical_feature_tests`: a loop over the binary features, which stops at the first
      `IndexError`, then a loop over the multi-level features, appending one row per feature. The
      table and the target enter through `groupsOf`, the groups `valid.groupby(feature)[target]`
      of each feature. */
  method CategoricalFeatureTests(groupsOf: CatCol -> seq<seq<Num>>, binaryFeatures: seq<CatCol>,
                                 multiFeatures: seq<CatCol>, scipy: Scipy)
    returns (r: Outcome<seq<CatRow>>)
    ensures r == CategoricalRows(binaryFeatures, multiFeatures, groupsOf, scipy)
  {
    var results: seq<CatRow> := [];
    for k := 0 to |binaryFeatures|
      invariant BinaryRows(binaryFeatures[..k], groupsOf, scipy) == Ok(results)
    {
      assert binaryFeatures[..k + 1][..k] == binaryFeatures[..k];
      var groups := groupsOf(binaryFeatures[k]);
      var row := MannWhitneyRow(binaryFeatures[k], groups, scipy);
      if row.Raised? {
        BinaryRowsInOrder(binaryFeatures, groupsOf, scipy);
        return Raised(row.error);
      }
      results := results + [row.value];
    }
    assert binaryFeatures[..|binaryFeatures|] == binaryFeatures;
    var binaryRows := results;
    for k := 0 to |multiFeatures|
      invariant results == binaryRows + MultiRows(multiFeatures[..k], groupsOf, scipy)
    {
      assert multiFeatures[..k + 1][..k] == multiFeatures[..k];
      var groups := groupsOf(multiFeatures[k]);
      results := results + [KruskalRow(multiFeatures[k], groups, scipy)];
    }
    assert multiFeatures[..|multiFeatures|] == multiFeatures;
    r := Ok(results);
  }

  // ---------------------------------------------------------------------------
  // The page

  /** What the page computes, apart from charts and prose. */
  datatype Report = Report(
    catsBinary: seq<CatCol>,
    catsMulti: seq<CatCol>,
    spearmanResults: seq<SpearmanRow>,
    catResults: seq<CatRow>)

  /** How a run of the page ends: the warning when the session holds no table, an exception, or
      the two result tables. */
  datatype PageOutcome = NoData | Failed(error: string) | Shown(report: Report)

  /** One run of the page on the session's `df`, with the 99th-percentile price `upper` given: the
      page warns when there is no table, fails when the feature lists cannot be built, and
      otherwise shows the Spearman rows of every continuous feature and the test rows of the
      categorical features, which then never raise. */
  method RunPage(df: Option<Table>, upper: real, scipy: Scipy) returns (o: PageOutcome)
    ensures o.NoData? <==> df.None?
    ensures o.Failed? <==> df.Some? && SplitFeatures(Cats, NuniqueOf(PriceCap(df.value, upper))).Raised?
    ensures o.Failed? ==> o.error == SplitFeatures(Cats, NuniqueOf(PriceCap(df.value, upper))).error
    ensures o.Shown? ==>
      var capped := PriceCap(df.value, upper);
      SplitFeatures(Cats, NuniqueOf(capped)) == Ok((o.report.catsBinary, o.report.catsMulti))
      && |o.report.spearmanResults| == |Conts|
      && multiset(o.report.spearmanResults) == multiset(SpearmanTests(capped, Conts, Target, scipy))
      && (forall i, j :: 0 <= i < j < |o.report.spearmanResults| ==>
            NumGeq(o.report.spearmanResults[i].corr, o.report.spearmanResults[j].corr))
      && CategoricalRows(o.report.catsBinary, o.report.catsMulti, Groupby(capped, Target), scipy) == Ok(o.report.catResults)
  {
    if df.None? {
      return NoData;
    }
    var capped := PriceCap(df.value, upper);
    var nunique := NuniqueOf(capped);
    var split := SplitFeatures(Cats, nunique);
    if split.Raised? {
      return Failed(split.error);
    }
    var (catsBinary, catsMulti) := split.value;
    var spearmanResults := SpearmanFeatureTest(capped, Conts, Target, scipy);
    var groupsOf := Groupby(capped, Target);
    GroupbyCounts(capped, Target);
    SelectedFeaturesPass(Cats, nunique, groupsOf, scipy);
    var catResults := CategoricalFeatureTests(groupsOf, catsBinary, catsMulti, scipy);
    o := Shown(Report(catsBinary, catsMulti, spearmanResults, catResults.value));
  }
}
