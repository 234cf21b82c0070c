/**
 * The second home script, `pages/Overview.py`: the same six sidebar filters as the
 * main home script, but with its own copy of `apply_filters`, the fuel multiselect
 * always shown, and only the criteria record stored in the session.
 */
module OverviewHome {
  import opened Frame
  import opened Session
  import DashboardApp

  /** This script's `apply_filters`: it rebinds the table through the same masks, in the same order. */
  function ApplyFilters(f: Filters, t: Table): Table
  {
    var df := Where(t, DashboardApp.PriceMask(f));
    var df := if f.fuelTypes != [] then Where(df, DashboardApp.FuelMask(f)) else df;
    var df := if f.carbodyTypes != [] then Where(df, DashboardApp.BodyMask(f)) else df;
    var df := if f.drivewheelTypes != [] then Where(df, DashboardApp.DriveMask(f)) else df;
    var df := Where(df, DashboardApp.EngineMask(f));
    Where(df, DashboardApp.HorsepowerMask(f))
  }

  /** For the same criteria, this copy returns exactly what the main home script's `apply_filters` returns. */
  lemma SameAsHome(f: Filters, t: Table)
    ensures ApplyFilters(f, t) == DashboardApp.ApplyFilters(f, t)
  {
  }

  /** A row is kept iff it meets every active criterion, and the kept rows stay in their order. */
  lemma ApplyFiltersIsSelection(f: Filters, t: Table)
    ensures ApplyFilters(f, t) == Where(t, (c: Car) => DashboardApp.Matches(f, c))
    ensures IsSubsequence(ApplyFilters(f, t), t)
  {
    DashboardApp.ApplyFiltersIsSelection(f, t);
    DashboardApp.ApplyFiltersKeepsOrder(f, t);
  }

  /** The `global_filters` record: the fuel criterion is always the multiselect's value. */
  function Criteria(w: DashboardApp.Widgets): (f: Filters)
    ensures f.fuelTypes == w.fuelTypes
    ensures f.priceRange == w.priceRange && f.enginesizes == w.enginesizes && f.horsepower == w.horsepower
    ensures f.carbodyTypes == w.carbodyTypes && f.drivewheelTypes == w.drivewheelTypes
  {
    Filters(w.priceRange, w.enginesizes, w.horsepower, w.fuelTypes, w.carbodyTypes, w.drivewheelTypes)
  }

  /** There is no page-dependent fuel bypass: this record is the main home script's record on every
      page other than "Hypothesis 1", and on that page it differs exactly in the fuel criterion. */
  lemma NoFuelBypass(page: string, w: DashboardApp.Widgets, t: Table)
    ensures page != "Hypothesis 1" ==> Criteria(w) == DashboardApp.Criteria(page, w, t)
    ensures Criteria(w).(fuelTypes := DashboardApp.Criteria(page, w, t).fuelTypes)
         == DashboardApp.Criteria(page, w, t)
  {
  }

  /** With every widget at its default and no missing price, engine size or horsepower, nothing is
      filtered out. */
  lemma DefaultsKeepEverything(t: Table)
    requires t != []
    requires forall i :: 0 <= i < |t| ==> t[i].price.Some? && t[i].enginesize.Some? && t[i].horsepower.Some?
    ensures DashboardApp.DefaultWidgets(t).Some?
    ensures ApplyFilters(Criteria(DashboardApp.DefaultWidgets(t).value), t) == t
  {
    DashboardApp.DefaultsKeepEverything("Overview", t);
  }

  /** One run of the script: filter the table it loaded itself, store only the criteria record, and
      report the row count. The session's tables are left as they were. */
  method Run(s: SessionState, csv: Table, w: DashboardApp.Widgets) returns (carsAfterFiltering: nat)
    modifies s
    ensures s.globalFilters == Some(Criteria(w))
    ensures s.df == old(s.df) && s.filteredDf == old(s.filteredDf) && s.currentPage == old(s.currentPage)
    ensures carsAfterFiltering == |ApplyFilters(Criteria(w), csv)|
  {
    var filtered := ApplyFilters(Criteria(w), csv);
    carsAfterFiltering := |filtered|;
    s.globalFilters := Some(Criteria(w));
  }
}
