# Car Price Analytics dashboard — a Dafny model

This project models the analytical layer of the Car Price Analytics Streamlit dashboard:

- **The home script** (`dashboard_app.py`) and its duplicate (`pages/Overview.py`). They load the car table, read six sidebar filters and narrow the table with `apply_filters`. They store the filtered table and the criteria record in the session.
- **The Overview page** (`pages/overview.py`). It guards against a missing or empty table and computes four averages.
- **Four hypothesis pages.**
  - `pages/hypothesis1.py` splits the table into diesel and petrol groups.
  - `pages/hypothesis2.py` splits it at the median fuel efficiency.
  - `pages/hypothesis3.py` builds a body-type summary.
  - `pages/hypothesis4.py` builds a table of mean price per drive-wheel type and splits the table into fwd and rwd groups.

  Each hypothesis page turns p-values and signs into labels and a verdict.
- **The feature-screening page** (`pages/hypothesis5.py`). It applies the 99th-percentile price cap, splits the categorical features into binary and multi-level ones, and builds the Spearman and Mann-Whitney / Kruskal-Wallis result tables.
- **The prediction page** (`pages/insights_model.py`). It applies the same price cap and bins the insurance-risk rating `symboling`. Its widgets' default values make up the record handed to the regression model.

## How the model represents the program

**Data.**
- A car is a record (`Frame.Car`) and a data frame is the sequence of its rows (`Frame.Table`).
- A numeric cell is `Option<real>`, where `None` stands for NaN. Every comparison with NaN is false, as in pandas and Python.
- The row index is the position in the sequence, so `reset_index(drop=True)` is the identity.

**Frame operations.**
- A boolean mask becomes the order-preserving selection `Frame.Where`.
- `groupby` yields the distinct keys in ascending order (`Grouping.GroupKeys`). Each group holds its rows in row order.

**Statistics.**
- Means, medians, minima and maxima skip missing values.
- `sort_values(ascending=False)` puts NaN last.

**Library calls and state.**
- The scipy tests are values of type `Significance.Scipy`, and the pages receive them as parameters. Each is a function from samples to a `(statistic, p-value)` pair. `pearsonr` may instead raise, and `Significance.RejectsShortSeries` states its documented `ValueError` on fewer than two values.
- Streamlit's session state is a class with one optional field per key (`Session.SessionState`).
- The home scripts are methods that update that state. The two result-building loops of the feature-screening page are methods with loop invariants.
- The prediction page's frame, which the page changes in place, is the class `InsightsModel.CappedFrame`.

## Empty and small selections

The code raises no typed insufficient-data error and has no empty-subset indicator. It passes empty groups, and groups with NaN prices, straight to the tests. Only `pages/overview.py` checks for an empty table. The model follows the code:
- `Hypothesis2.AllEqualHighEmpty` shows an empty group that still reaches both tests.
- `Hypothesis1.NoDieselNoAverage` shows a NaN average card.
- `Hypothesis1.ShortTableFails` and `Hypothesis2.ShortTableFails` show that a filtered table of fewer than two rows ends those pages with the error of `pearsonr`.

## Model

| member | source | states |
|---|---|---|
| Frame.Where | dashboard_app.py:88-97 | A boolean mask keeps exactly the rows it accepts, each as often as in the input, and drops every other row |
| Frame.WhereIsSubsequence | dashboard_app.py:88-97 | A masked selection keeps its rows in their original order |
| Frame.PresentCount | pages/hypothesis3.py:35 | A column has as many non-missing values as the table has rows where that column is present |
| Frame.PriceCap | pages/hypothesis5.py:42-44 | The cap keeps the rows priced at or below the bound, in their order, each as often as the table has it, and drops every other row, unpriced rows included |
| Frame.PriceCapIdempotent | pages/insights_model.py:25-27 | Capping an already capped table at the same bound changes nothing |
| Frame.PriceCapAboveAll | pages/hypothesis5.py:42-43 | A bound at or above every price keeps the whole table |
| Frame.Distinct | dashboard_app.py:60-61 | `unique()` lists every value of the column once and nothing else, in the order of first appearance |
| Frame.FirstIndex | pages/hypothesis5.py:59 | The first position holding a value: it holds it, and no earlier position does |
| Frame.DistinctHead | pages/insights_model.py:122-126 | The first option of `unique()` is the first row's value |
| Stats.MeanOf | pages/overview.py:29-31 | A mean with missing values skipped is NaN exactly when no value is present, and otherwise lies between the least and the greatest present value |
| Stats.MinOf | dashboard_app.py:39 | `min()` is NaN exactly when no value is present; otherwise it is a value of the column and at most every value |
| Stats.MaxOf | dashboard_app.py:40 | `max()` is NaN exactly when no value is present; otherwise it is a value of the column and at least every value |
| Stats.MedianOf | pages/hypothesis2.py:44 | The median is NaN exactly when no value is present, and otherwise lies between the least and the greatest value |
| Stats.MedianSplitsSample | pages/hypothesis2.py:44-46 | At least half of a non-empty sample lies at or below its median, and at least half at or above it |
| Stats.MeanBetweenMinMax | pages/overview.py:29-31 | The arithmetic mean of a non-empty sample lies between its minimum and maximum |
| Stats.MeanOfHalfSums | pages/overview.py:32 | The mean of pairwise half-sums is the half-sum of the two means |
| Stats.ExtremesOfPresent | pages/hypothesis3.py:35 | The skip-NaN minimum and maximum exist exactly when some value is present, and then equal the extremes of the present values |
| Stats.SortBy | pages/hypothesis3.py:37 | Sorting returns a permutation of its input that is ordered by the given total preorder |
| Stats.SortDescending | pages/hypothesis3.py:37 | `sort_values(ascending=False)` returns a permutation of the rows with the key non-increasing and NaN keys last |
| Stats.Median | pages/hypothesis2.py:44 | The median of a non-empty sample lies between its minimum and maximum |
| Significance.CalculateCorrelation | pages/hypothesis1.py:24-34 | Pearson and Spearman both compare avg_mpg with price over the whole table, NaN entries included. An error of `pearsonr` is the result, and Spearman is then not reached |
| Significance.ShortTableRaises | pages/hypothesis1.py:32 | With `pearsonr` raising below two values, a table of fewer than two rows makes the correlation step raise |
| Significance.LabelBoundaries | pages/hypothesis1.py:113-149 | A p-value of exactly 0.05 is "Not Significant", a zero correlation is "Positive", a zero statistic is "Negative effect", and NaN always takes the else label |
| Significance.ResultCards | pages/hypothesis1.py:101-150 | The eight cards carry each test's statistic and p-value. A p-value card reads "Significant" iff p < 0.05. A correlation card reads "Negative" iff the coefficient is < 0. An effect card reads "Positive effect" iff the statistic is > 0 |
| Significance.SummaryTable | pages/hypothesis1.py:186-195 | The summary has exactly four rows: Pearson, Spearman, t-test and Mann–Whitney U, in that order, each with its own test's results |
| Session.SessionState.constructor | dashboard_app.py:16-18 | A new session holds no key |
| Grouping.StrLeTotal | pages/hypothesis3.py:34 | Any two strings are ordered one way or the other |
| Grouping.StrLeTransitive | pages/hypothesis3.py:34 | String order is transitive |
| Grouping.StrLeAntisymmetric | pages/hypothesis3.py:34 | Strings that precede each other are equal |
| Grouping.LevelLeIsTotalPreorder | pages/hypothesis3.py:34 | Group keys are totally preordered |
| Grouping.LevelLeAntisymmetric | pages/hypothesis3.py:34 | Keys that precede each other are equal |
| Grouping.LevelColumn | pages/hypothesis5.py:123 | The categorical column is aligned with the rows |
| Grouping.WhereNoDuplicates | pages/hypothesis5.py:55-56 | A list comprehension over a list without repetitions has none |
| Grouping.PermutationNoDuplicates | pages/hypothesis3.py:37 | Reordering a list without repetitions leaves none |
| Grouping.GroupKeys | pages/hypothesis3.py:34 | `groupby` yields every value of the column once, no other, in strictly ascending order |
| Grouping.GroupValues | pages/hypothesis4.py:84 | Entry i of a group's value series is the target value of the group's i-th row, a row of the table with that key |
| Grouping.GroupNotEmpty | pages/hypothesis3.py:34 | Every group key has at least one row |
| Grouping.PermutationKeepsKeys | pages/hypothesis3.py:37 | Sorting a summary keeps its keys distinct and keeps the same set of keys |
| DashboardApp.ApplyFiltersIsSelection | dashboard_app.py:78-98 | `apply_filters` keeps a row iff its price, engine size and horsepower lie in the inclusive ranges and its fuel, body and drive types are admitted, an empty selection admitting everything |
| DashboardApp.ApplyFiltersKeepsOrder | dashboard_app.py:78-98 | The filtered table is a subsequence of the input and keeps every matching row as often as the input has it |
| DashboardApp.ApplyFiltersIdempotent | dashboard_app.py:78-98 | Filtering twice with the same criteria is filtering once |
| DashboardApp.ApplyFiltersCommute | dashboard_app.py:78-98 | Two sets of criteria applied in either order give the same table |
| DashboardApp.FullRange | dashboard_app.py:38-54 | A slider's default range runs from a value of the column to a value of the column and covers every present value; it exists iff some row has a value |
| DashboardApp.FuelColumn | dashboard_app.py:60 | The fuel-type column is aligned with the rows |
| DashboardApp.BodyColumn | dashboard_app.py:67 | The body-type column is aligned with the rows |
| DashboardApp.DriveColumn | dashboard_app.py:71 | The drive-wheel column is aligned with the rows |
| DashboardApp.DefaultWidgets | dashboard_app.py:38-74 | The sidebar's defaults are the full column ranges and every distinct category |
| DashboardApp.SidebarFuelTypes | dashboard_app.py:57-64 | On "Hypothesis 1" the fuel list holds every fuel type of the table, nothing else, each once, in order of first appearance; on any other page it is the multiselect's value |
| DashboardApp.Criteria | dashboard_app.py:107-114 | `global_filters` holds exactly the six criteria that `apply_filters` uses |
| DashboardApp.DefaultsAdmit | dashboard_app.py:38-98 | A row with price, engine size and horsepower present meets the default criteria |
| DashboardApp.KeepsAllMatching | dashboard_app.py:78-98 | Criteria that every row meets remove nothing |
| DashboardApp.DefaultsExist | dashboard_app.py:38-54 | The sliders have defaults once a single row has all three slider values |
| DashboardApp.DefaultsKeepEverything | dashboard_app.py:38-98 | With default widgets and no missing slider value, filtering keeps every row |
| DashboardApp.Hypothesis1BypassesFuel | dashboard_app.py:57-64 | On "Hypothesis 1" the fuel criterion removes nothing |
| DashboardApp.CurrentPage | dashboard_app.py:16 | The current page defaults to "Overview" |
| DashboardApp.Run | dashboard_app.py:16-114 | The script loads the table once per session and keeps the current page. It stores the criteria and the filtered table, and the count it reports is the filtered table's length |
| OverviewHome.SameAsHome | pages/Overview.py:41-51 | This copy of `apply_filters` returns exactly what the home script's returns |
| OverviewHome.ApplyFiltersIsSelection | pages/Overview.py:41-51 | A row is kept iff it meets every active criterion, in the original order |
| OverviewHome.Criteria | pages/Overview.py:62-69 | The stored record holds the six sidebar values, fuel types straight from the multiselect |
| OverviewHome.NoFuelBypass | pages/Overview.py:34 | There is no page-dependent fuel bypass. The record matches the home script's on every page but "Hypothesis 1", and on that page differs only in fuel types |
| OverviewHome.DefaultsKeepEverything | pages/Overview.py:28-38 | With default widgets and no missing slider value, every row is kept |
| OverviewHome.Run | pages/Overview.py:53-69 | The script stores only the criteria record, leaves the session's tables untouched, and reports the filtered row count |
| OverviewKpis.Mileage | pages/overview.py:32 | A row's mileage is present iff both mileages are, and is then their half-sum |
| OverviewKpis.MileageColumn | pages/overview.py:32 | The mileage series is aligned with the rows |
| OverviewKpis.Page | pages/overview.py:18-74 | The page stops with a warning iff there is no filtered table and with an error iff it is empty. Otherwise it shows the stored filters (none when absent), and the price card is NaN iff no price is present |
| OverviewKpis.KpisWithinColumnRange | pages/overview.py:29-32 | Each average lies between its column's least and greatest present value |
| OverviewKpis.AverageMileageSplits | pages/overview.py:32 | With no missing mileage, the average mileage is the half-sum of the mean city and the mean highway mileage |
| OverviewKpis.MileagesAreHalfSums | pages/overview.py:32 | With no missing city or highway mileage, every row's mileage is present and is the half-sum of its two mileages |
| OverviewKpis.PresentHalfSums | pages/overview.py:32 | When one complete series is the row-wise half-sum of two others, all three keep every row and its sum is half the sum of the other two sums |
| Hypothesis1.FuelPrices | pages/hypothesis1.py:46-47 | Entry i of a fuel group is the price of the i-th row of that fuel type, a row of the table |
| Hypothesis1.FuelRowsPartition | pages/hypothesis1.py:46-47 | Diesel rows, petrol rows and other rows together are the table, each row in exactly one |
| Hypothesis1.FuelGroupsDisjoint | pages/hypothesis1.py:46-47 | No row is in both groups, and a row of another fuel type is in neither |
| Hypothesis1.ShowPriceMetrics | pages/hypothesis1.py:55-59 | A group's average is NaN iff the group has no price, and otherwise lies between the group's least and greatest price |
| Hypothesis1.NoDieselNoAverage | pages/hypothesis1.py:58 | A table without diesel cars shows a NaN diesel average |
| Hypothesis1.RunStatisticalTests | pages/hypothesis1.py:37-52 | Both tests receive the diesel prices first and the petrol prices second |
| Hypothesis1.RunPage | pages/hypothesis1.py:198-210 | KeyError iff there is no filtered table; the page fails iff `pearsonr` raises. Otherwise it shows the price metrics, the eight cards and the four-row summary of the correlations and tests, with the verdict of the two tests |
| Hypothesis1.ShortTableFails | pages/hypothesis1.py:32 | A filtered table of fewer than two rows ends the page with `pearsonr`'s error |
| Hypothesis1.VerdictMatchesCards | pages/hypothesis1.py:162 | The success verdict is shown iff the t-test or the Mann–Whitney p-value card reads "Significant" |
| Hypothesis1.VerdictIgnoresCorrelations | pages/hypothesis1.py:153-162 | The correlations do not affect the verdict of a shown page |
| Hypothesis2.MedianEff | pages/hypothesis2.py:44 | The median is NaN iff no row has an average mileage |
| Hypothesis2.OneSide | pages/hypothesis2.py:45-46 | A row is low, high or without mileage, and only one of these |
| Hypothesis2.MedianSplitPartition | pages/hypothesis2.py:44-46 | Each row with a mileage is in exactly one group, a row without one is in neither, and both groups keep row order |
| Hypothesis2.AllEqualHighEmpty | pages/hypothesis2.py:44-49 | When all mileages are equal the median is that value and the high group is empty |
| Hypothesis2.Prices | pages/hypothesis2.py:45-46 | Entry i of a group's price series is the price of the group's i-th row |
| Hypothesis2.RunStatisticalTests | pages/hypothesis2.py:34-51 | Both tests receive the high-efficiency prices first and the low-efficiency prices second |
| Hypothesis2.ShowEfficiencyPriceMetrics | pages/hypothesis2.py:54-68 | A group's average is NaN iff the group has no price, and otherwise lies within the group's price range |
| Hypothesis2.BubbleSizes | pages/hypothesis2.py:150 | Each row's size is its price scaled from the column's [min, max] range onto [0, 1000] |
| Hypothesis2.BubbleSizeBounds | pages/hypothesis2.py:150 | A price in [min, max] with min < max gets a size in [0, 1000] |
| Hypothesis2.BubbleSizeEnds | pages/hypothesis2.py:150 | The minimum maps to 0 and the maximum to 1000 |
| Hypothesis2.BubbleSizesInRange | pages/hypothesis2.py:150 | When max > min, every priced row's size is in [0, 1000] and only unpriced rows get NaN |
| Hypothesis2.BubbleSizesReachBounds | pages/hypothesis2.py:150 | When max > min, the cheapest car gets size 0 and the dearest 1000 |
| Hypothesis2.BubbleSizesFlat | pages/hypothesis2.py:150 | When all prices are equal, every size is NaN |
| Hypothesis2.RunPage | pages/hypothesis2.py:272-300 | KeyError iff there is no filtered table; the page fails iff `pearsonr` raises. Otherwise it shows the group metrics, the eight cards, the four-row summary, the bubble sizes, and the verdict of the Pearson sign and the two tests |
| Hypothesis2.ShortTableFails | pages/hypothesis2.py:29 | A filtered table of fewer than two rows ends the page with `pearsonr`'s error |
| Hypothesis2.VerdictMatchesCards | pages/hypothesis2.py:241 | The success verdict is shown iff the Pearson card reads "Negative" and the t-test or the Mann–Whitney card reads "Significant" |
| Hypothesis2.VerdictIgnoresSpearman | pages/hypothesis2.py:232-241 | Neither the Spearman results nor the Pearson p-value affect the verdict |
| Hypothesis3.Aggregate | pages/hypothesis3.py:35 | `count` counts the priced rows. The statistics are NaN iff that count is 0. Otherwise min ≤ median ≤ max and min ≤ mean ≤ max, with min and max being prices of the group |
| Hypothesis3.GroupSummary | pages/hypothesis3.py:33-36 | The summary has one row per group key, in key order, each the aggregate of its own group |
| Hypothesis3.BodySummary | pages/hypothesis3.py:33-38 | The sorted summary is a permutation of the grouped rows, with the means non-increasing |
| Hypothesis3.EveryBodyTypeGrouped | pages/hypothesis3.py:34 | Every body type of the table has a summary row |
| Hypothesis3.NoBodyTypeTwice | pages/hypothesis3.py:33-38 | No body type has two rows |
| Hypothesis3.OneRowPerBodyType | pages/hypothesis3.py:33-38 | The summary's body types are exactly those of the table |
| Hypothesis3.RowsAggregateTheirGroup | pages/hypothesis3.py:33-38 | Each sorted row is the aggregate of its body type's prices |
| Hypothesis3.PricedBodyIsBoth | pages/hypothesis3.py:35 | A priced row of a body type is a row of that group with a price |
| Hypothesis3.CountIsPricedRows | pages/hypothesis3.py:35 | A row's count is the number of that body type's rows with a price |
| Hypothesis3.RunPage | pages/hypothesis3.py:84-88 | The page summarises the session's filtered table when it exists, and the full data set otherwise |
| Hypothesis4.GroupMeans | pages/hypothesis4.py:83-86 | There is one row per drive-wheel key, in key order, holding the mean price of its group |
| Hypothesis4.AvgPrice | pages/hypothesis4.py:83-88 | `avg_price` is a permutation of the group means, sorted by non-increasing price |
| Hypothesis4.NoDriveTypeTwice | pages/hypothesis4.py:83-88 | No drive-wheel type has two rows |
| Hypothesis4.EveryDriveTypeGrouped | pages/hypothesis4.py:84 | Every drive-wheel type of the table has a grouped row |
| Hypothesis4.OneRowPerDriveType | pages/hypothesis4.py:83-88 | The drive-wheel types of `avg_price` are exactly those of the table |
| Hypothesis4.RowsAreGroupMeans | pages/hypothesis4.py:83-88 | Each row's price is the mean price of its group |
| Hypothesis4.DrivePrices | pages/hypothesis4.py:116-117 | Entry i of the fwd (rwd) series is the price of the i-th row with that drive wheel, a row of the table |
| Hypothesis4.DriveOfRow | pages/hypothesis4.py:116-117 | A row is fwd, rwd or other, and only one of these |
| Hypothesis4.DriveSplitPartition | pages/hypothesis4.py:116-117 | The fwd, rwd and other rows together are the table |
| Hypothesis4.DriveGroupsInOrder | pages/hypothesis4.py:116-117 | Both groups keep row order, and 4wd rows are in neither |
| Hypothesis4.RunPage | pages/hypothesis4.py:83-136 | The counts are the two groups' lengths. The t-test receives fwd first. Success is shown iff p < 0.05 |
| Hypothesis4.VerdictIsSignificance | pages/hypothesis4.py:127 | The verdict is the "Significant" rule of the other pages; p = 0.05 and NaN do not succeed |
| Hypothesis4.CountsCoverTable | pages/hypothesis4.py:119-120 | The two counts add up to at most the row count, and exactly to it when every car is fwd or rwd |
| Hypothesis5.NuniqueIsKeyCount | pages/hypothesis5.py:55-56 | `nunique()` equals the number of group keys |
| Hypothesis5.FeatureSplit | pages/hypothesis5.py:55-56 | A feature is binary iff it has exactly 2 values and multi-level iff it has more. Fewer values puts it in neither list. Both lists follow `cats` |
| Hypothesis5.Remove | pages/hypothesis5.py:59 | `list.remove` raises ValueError iff the element is absent, and otherwise deletes its first occurrence |
| Hypothesis5.RemoveLeavesNone | pages/hypothesis5.py:59 | Removing from a list without repetitions leaves no copy of the element, one element fewer, and every other element |
| Hypothesis5.CatsListedOnce | pages/hypothesis5.py:47-48 | `cats` lists each feature once |
| Hypothesis5.SplitFeaturesRaises | pages/hypothesis5.py:55-59 | The feature split raises ValueError iff "manufacturer" is not a multi-level feature |
| Hypothesis5.SplitFeaturesLists | pages/hypothesis5.py:55-59 | After the split the binary list holds the 2-valued features. The multi list holds the features with more values, except "manufacturer", and is one element shorter |
| Hypothesis5.SpearmanTest | pages/hypothesis5.py:84-93 | A predictor's row carries its label and the coefficient and p-value of `spearmanr` on the predictor and target columns of the complete rows |
| Hypothesis5.SpearmanSamplesComplete | pages/hypothesis5.py:84-87 | `spearmanr` receives aligned, complete series taken, in order, from every row where both the feature and the target are present |
| Hypothesis5.SpearmanTests | pages/hypothesis5.py:80-93 | The loop appends one row per predictor, in predictor order |
| Hypothesis5.SpearmanFeatureTest | pages/hypothesis5.py:64-96 | The result has one row per predictor: a permutation of the per-predictor rows, ordered by non-increasing coefficient with NaN last |
| Hypothesis5.OneRowPerPredictor | pages/hypothesis5.py:80-95 | Every predictor has a row and every row belongs to a predictor |
| Hypothesis5.LevelGroups | pages/hypothesis5.py:123 | There is one group per distinct level, in key order, and entry j of group i is the target value of the j-th row of the i-th level |
| Hypothesis5.MannWhitneyRow | pages/hypothesis5.py:121-131 | A binary feature's row raises IndexError iff it has fewer than two groups; otherwise it is labelled "Mann-Whitney U" |
| Hypothesis5.KruskalRow | pages/hypothesis5.py:135-145 | A multi-level feature's row is labelled "Kruskal-Wallis H" and carries `kruskal` over all its groups in key order |
| Hypothesis5.BinaryTestOnLevels | pages/hypothesis5.py:121-125 | On a table, the test succeeds iff the feature has at least two levels. It then compares the two lowest distinct levels' target values |
| Hypothesis5.BinarySamplesCoverTable | pages/hypothesis5.py:122-125 | A binary feature's two samples come from different levels and together hold every row |
| Hypothesis5.BinaryRows | pages/hypothesis5.py:118-131 | The binary loop raises only IndexError, and otherwise yields one row per feature |
| Hypothesis5.BinaryRowsInOrder | pages/hypothesis5.py:118-131 | The binary loop succeeds iff every feature has two groups, and then yields each feature's row in order |
| Hypothesis5.MultiRows | pages/hypothesis5.py:134-145 | The multi-level loop yields each feature's Kruskal row, in order |
| Hypothesis5.CategoricalRowsLayout | pages/hypothesis5.py:118-147 | The result has `\|binary\| + \|multi\|` rows: binary features first as "Mann-Whitney U", then multi-level ones as "Kruskal-Wallis H", in input order. It raises IndexError iff a binary feature lacks two groups |
| Hypothesis5.GroupbyCounts | pages/hypothesis5.py:123 | A feature has as many groups as distinct values |
| Hypothesis5.SelectedFeaturesPass | pages/hypothesis5.py:55-153 | The tests never raise on the features the page selects |
| Hypothesis5.CategoricalFeatureTests | pages/hypothesis5.py:99-148 | The two append loops compute exactly the categorical result table or its error |
| Hypothesis5.RunPage | pages/hypothesis5.py:33-153 | The page warns without a table and fails iff the feature split raises. Otherwise it shows the split, the Spearman rows of the continuous features (a permutation of the per-feature rows, coefficients non-increasing with NaN last), and the categorical table computed on the capped table |
| InsightsModel.BinSymboling | pages/insights_model.py:31 | Code 3 becomes missing, and only code 3 does; a code outside the map is kept |
| InsightsModel.SymbolingBins | pages/insights_model.py:31 | -2 and -1 map to "Low", 0 to "Medium", 1 to "High", and only 2 to "Very High" (the entry for 3 never applies) |
| InsightsModel.SymbolingBinsOrdered | pages/insights_model.py:31 | A higher risk code never gets a lower label |
| InsightsModel.SymbolingCodes | pages/insights_model.py:30 | The `symboling` codes are aligned with the rows |
| InsightsModel.BinnedColumn | pages/insights_model.py:31 | `symboling_binned` is the binning of each row's code, aligned with the rows |
| InsightsModel.BinnedColumnCells | pages/insights_model.py:31 | A binned cell is missing iff its code is 3; codes -2..2 get a label of the risk scale |
| InsightsModel.CappedFrame.constructor | pages/insights_model.py:25-27 | The frame starts as the capped table, without a binned column |
| InsightsModel.CappedFrame.AddSymbolingBinned | pages/insights_model.py:30-31 | Binning raises ValueError iff no row has code 3, leaving the frame unchanged; otherwise it adds the binned column and leaves the rows unchanged |
| InsightsModel.ColumnValues | pages/insights_model.py:72-74 | A column has a present value iff some row has one |
| InsightsModel.SliderFor | pages/insights_model.py:70-76 | A slider's bounds are the column's extremes and bound every value. Its value is the column median and lies between them. All three are NaN iff the column has no value |
| InsightsModel.Sliders | pages/insights_model.py:69-119 | There are six sliders, in the page's order, with the page's steps |
| InsightsModel.SelectBox | pages/insights_model.py:122-126 | A select box without options has no value. Otherwise it raises StreamlitAPIException iff the index is out of range, and any value it returns is one of the options |
| InsightsModel.FirstOption | pages/insights_model.py:122-138 | A select box at index 0 starts at the first row's category, or has no value for an empty table |
| InsightsModel.ThirdRiskOption | pages/insights_model.py:140-144 | The risk select box raises iff the binned column is non-empty and has fewer than three distinct values |
| InsightsModel.SliderDefaultsInBounds | pages/insights_model.py:70-119 | Every slider starts within its bounds |
| InsightsModel.DefaultsAreMedians | pages/insights_model.py:70-119 | The record's numeric values are the column medians |
| InsightsModel.DefaultInputRaises | pages/insights_model.py:140-144 | The default record fails exactly when the risk select box raises |
| InsightsModel.DefaultCategories | pages/insights_model.py:160-171 | The record's body, drive and compression-ratio values are the first row's |
| InsightsModel.DefaultRisk | pages/insights_model.py:140-171 | The record's risk value is the third distinct binned value |
| InsightsModel.RunPage | pages/insights_model.py:16-171 | The page warns without a table. It fails with ValueError when the capped table has no code 3, and fails when the risk select box raises. Otherwise it returns the six sliders and the record of their and the select boxes' defaults |

## Left out

- Charts, markdown, layout, `st.image`, `st.stop` and page navigation are not modelled. A halt is an outcome value of the page.
- Reading files is not modelled: `pd.read_csv` and the `os.listdir` data check of `pages/hypothesis4.py`. The table is a parameter.
- The scipy routines (`ttest_ind` with `equal_var=False`, `mannwhitneyu`, `pearsonr`, `spearmanr` and `kruskal`) are not modelled. Their numerics are a library the model does not see, so they enter as function parameters.
- Hypothesis1.RunPage, Hypothesis2.RunPage, Hypothesis4.RunPage, Hypothesis5.RunPage: only `pearsonr` may raise in the model. `ttest_ind`, `mannwhitneyu`, `spearmanr` and `kruskal` are taken to return a pair, possibly NaN, on every input, an empty group included. A library version that raises on an empty sample would end the page where the model shows NaN results.
- Categorical cells (fuel type, body type, drive wheel, engine type and the others, and `symboling`) are never missing. The table is assumed complete in those columns. `unique()` and `isin` keep NaN, while `nunique()` and `groupby` drop it; the model does not tell these apart.
- Loading the trained model (`joblib.load`) and calling `model.predict` are not modelled. Only the input record they would receive is.
- `quantile(0.99)` is not computed. The 99th-percentile bound `upper` is a parameter of both modelling pages.
- `round(..., 3)`, f-string formatting, the percentage deltas and floating-point rounding are not modelled. Numbers are exact reals.
- User interaction with the widgets is not modelled. The sidebar widgets arrive as values, and the prediction page's widgets take their defaults. Streamlit's own handling of a slider with NaN bounds is not modelled.
- `astype('category')` is not modelled as a change of values. Categories are just the codes present, which is all `remove_categories` consults.
- Stats.SortDescending: pandas' default sort is not stable, so the model promises only a permutation ordered by the key, not the order of ties.
- Hypothesis3.BodySummary: ties between equal means may come out in a different order than pandas gives them; only the permutation and the order by mean are stated.
- Hypothesis4.AvgPrice: ties between equal means may come out in a different order than pandas gives them; only the permutation and the order by price are stated.
- Hypothesis5.SpearmanFeatureTest: the order of rows with equal coefficients is not stated, for the same reason.
- Hypothesis5.CategoricalFeatureTests: receives the groups of each feature as a function, `valid.groupby(feature)[target]` of the capped table. The page passes exactly that function.
- The session's key for the current page is never written by the scripts modelled here, so it is read as a stored optional value.
