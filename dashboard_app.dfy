/**
 * The home script: the sidebar filters, `apply_filters`, and what it stores in
 * the session for the pages (the filtered table and the criteria record).
 */
module DashboardApp {
  import opened Frame
  import opened Stats
  import opened Session

  /** `Series.between(lo, hi)`: inclusive at both ends; a missing value is never between. */
  predicate Between(x: Num, r: Range)
  {
    x.Some? && r.lo <= x.value <= r.hi
  }

  /** A categorical criterion: an empty selection restricts nothing, otherwise the value must be selected. */
  predicate Admits(selected: seq<string>, v: string)
  {
    selected == [] || v in selected
  }

  /** A row meets every active criterion of `f`. */
  predicate Matches(f: Filters, c: Car)
  {
    && Between(c.price, f.priceRange)
    && Admits(f.fuelTypes, c.fueltype)
    && Admits(f.carbodyTypes, c.carbody)
    && Admits(f.drivewheelTypes, c.drivewheel)
    && Between(c.enginesize, f.enginesizes)
    && Between(c.horsepower, f.horsepower)
  }

  // The boolean masks `apply_filters` applies, one per criterion.
  function PriceMask(f: Filters): Car -> bool { (c: Car) => Between(c.price, f.priceRange) }
  function FuelMask(f: Filters): Car -> bool { (c: Car) => c.fueltype in f.fuelTypes }
  function BodyMask(f: Filters): Car -> bool { (c: Car) => c.carbody in f.carbodyTypes }
  function DriveMask(f: Filters): Car -> bool { (c: Car) => c.drivewheel in f.drivewheelTypes }
  function EngineMask(f: Filters): Car -> bool { (c: Car) => Between(c.enginesize, f.enginesizes) }
  function HorsepowerMask(f: Filters): Car -> bool { (c: Car) => Between(c.horsepower, f.horsepower) }

  /** `apply_filters`: the price mask, then each non-empty categorical selection, then engine size and horsepower. */
  function ApplyFilters(f: Filters, t: Table): Table
  {
    var byPrice := Where(t, PriceMask(f));
    var byFuel := if f.fuelTypes != [] then Where(byPrice, FuelMask(f)) else byPrice;
    var byBody := if f.carbodyTypes != [] then Where(byFuel, BodyMask(f)) else byFuel;
    var byDrive := if f.drivewheelTypes != [] then Where(byBody, DriveMask(f)) else byBody;
    var byEngine := Where(byDrive, EngineMask(f));
    Where(byEngine, HorsepowerMask(f))
  }

  /** The chain of masks is one selection by `Matches`: a row is kept iff it meets every active
      criterion, and the kept rows stay in their original order. */
  lemma ApplyFiltersIsSelection(f: Filters, t: Table)
    ensures ApplyFilters(f, t) == Where(t, (c: Car) => Matches(f, c))
  {
    var pFuel := (c: Car) => Admits(f.fuelTypes, c.fueltype);
    var pBody := (c: Car) => Admits(f.carbodyTypes, c.carbody);
    var pDrive := (c: Car) => Admits(f.drivewheelTypes, c.drivewheel);

    var s1 := Where(t, PriceMask(f));
    var s2 := Where(s1, pFuel);
    if f.fuelTypes != [] { WhereExt(s1, FuelMask(f), pFuel); } else { WhereKeepsAll(s1, pFuel); }
    var s3 := Where(s2, pBody);
    if f.carbodyTypes != [] { WhereExt(s2, BodyMask(f), pBody); } else { WhereKeepsAll(s2, pBody); }
    var s4 := Where(s3, pDrive);
    if f.drivewheelTypes != [] { WhereExt(s3, DriveMask(f), pDrive); } else { WhereKeepsAll(s3, pDrive); }
    assert ApplyFilters(f, t) == Where(Where(s4, EngineMask(f)), HorsepowerMask(f));

    var q2 := (c: Car) => PriceMask(f)(c) && pFuel(c);
    var q3 := (c: Car) => q2(c) && pBody(c);
    var q4 := (c: Car) => q3(c) && pDrive(c);
    var q5 := (c: Car) => q4(c) && EngineMask(f)(c);
    WhereFuse(t, PriceMask(f), pFuel, q2);
    WhereFuse(t, q2, pBody, q3);
    WhereFuse(t, q3, pDrive, q4);
    WhereFuse(t, q4, EngineMask(f), q5);
    WhereFuse(t, q5, HorsepowerMask(f), (c: Car) => Matches(f, c));
  }

  /** The filtered table is the input with rows deleted, in the original order, and each row
      occurs as often as in the input when it matches and not at all otherwise. */
  lemma ApplyFiltersKeepsOrder(f: Filters, t: Table)
    ensures IsSubsequence(ApplyFilters(f, t), t)
    ensures forall c :: multiset(ApplyFilters(f, t))[c] == if Matches(f, c) then multiset(t)[c] else 0
  {
    ApplyFiltersIsSelection(f, t);
    WhereIsSubsequence(t, (c: Car) => Matches(f, c));
  }

  /** Filtering an already filtered table with the same criteria changes nothing. */
  lemma ApplyFiltersIdempotent(f: Filters, t: Table)
    ensures ApplyFilters(f, ApplyFilters(f, t)) == ApplyFilters(f, t)
  {
    ApplyFiltersIsSelection(f, t);
    ApplyFiltersIsSelection(f, ApplyFilters(f, t));
    WhereIdempotent(t, (c: Car) => Matches(f, c));
  }

  /** Two sets of criteria applied one after the other give the same table in either order. */
  lemma ApplyFiltersCommute(f: Filters, g: Filters, t: Table)
    ensures ApplyFilters(f, ApplyFilters(g, t)) == ApplyFilters(g, ApplyFilters(f, t))
  {
    ApplyFiltersIsSelection(f, t);
    ApplyFiltersIsSelection(g, t);
    ApplyFiltersIsSelection(f, ApplyFilters(g, t));
    ApplyFiltersIsSelection(g, ApplyFilters(f, t));
    WhereCommutes(t, (c: Car) => Matches(f, c), (c: Car) => Matches(g, c));
  }

  // ---------------------------------------------------------------------------
  // The sidebar

  /** The values the sidebar widgets hold: two-handled sliders and multiselects. */
  datatype Widgets = Widgets(
    priceRange: Range,
    enginesizes: Range,
    horsepower: Range,
    fuelTypes: seq<string>,
    carbodyTypes: seq<string>,
    drivewheelTypes: seq<string>)

  /** The full range of a column (`df[col].min()` to `df[col].max()`, missing values skipped): a
      slider's bounds and its default value. `None` when the column has no value, which the slider
      refuses. Both ends are values of the column and every value lies between them. */
  function FullRange(t: Table, col: NumCol): (r: Option<Range>)
    ensures r.Some? <==> exists i :: 0 <= i < |t| && Get(t[i], col).Some?
    ensures r.Some? ==> forall i :: 0 <= i < |t| && Get(t[i], col).Some? ==>
      r.value.lo <= Get(t[i], col).value <= r.value.hi
    ensures r.Some? ==> exists i :: 0 <= i < |t| && Get(t[i], col) == Some(r.value.lo)
    ensures r.Some? ==> exists i :: 0 <= i < |t| && Get(t[i], col) == Some(r.value.hi)
  {
    if t == [] then None
    else
      var rest := FullRange(t[1..], col);
      assert forall i :: 1 <= i < |t| ==> t[1..][i - 1] == t[i];
      match Get(t[0], col)
      case None =>
        assert forall i :: 0 <= i < |t[1..]| ==> t[1..][i] == t[i + 1];
        rest
      case Some(x) =>
        if rest.None? then Some(Range(x, x))
        else
          var lo, hi := rest.value.lo, rest.value.hi;
          assert forall i :: 0 <= i < |t[1..]| ==> t[1..][i] == t[i + 1];
          Some(Range(if x <= lo then x else lo, if x >= hi then x else hi))
  }

  // The label columns the multiselects take their options from.
  function FuelColumn(t: Table): (r: seq<string>)
    ensures |r| == |t| && forall i :: 0 <= i < |t| ==> r[i] == t[i].fueltype
  {
    seq(|t|, i requires 0 <= i < |t| => t[i].fueltype)
  }

  function BodyColumn(t: Table): (r: seq<string>)
    ensures |r| == |t| && forall i :: 0 <= i < |t| ==> r[i] == t[i].carbody
  {
    seq(|t|, i requires 0 <= i < |t| => t[i].carbody)
  }

  function DriveColumn(t: Table): (r: seq<string>)
    ensures |r| == |t| && forall i :: 0 <= i < |t| ==> r[i] == t[i].drivewheel
  {
    seq(|t|, i requires 0 <= i < |t| => t[i].drivewheel)
  }

  /** The widgets as the sidebar first shows them: full slider ranges and every category selected.
      `None` when a slider column has no value at all. */
  function DefaultWidgets(t: Table): (w: Option<Widgets>)
    ensures w.Some? <==> FullRange(t, Price).Some? && FullRange(t, EngineSize).Some? && FullRange(t, Horsepower).Some?
    ensures w.Some? ==> w.value.priceRange == FullRange(t, Price).value
    ensures w.Some? ==> w.value.enginesizes == FullRange(t, EngineSize).value
    ensures w.Some? ==> w.value.horsepower == FullRange(t, Horsepower).value
    ensures w.Some? ==> w.value.fuelTypes == Distinct(FuelColumn(t))
    ensures w.Some? ==> w.value.carbodyTypes == Distinct(BodyColumn(t))
    ensures w.Some? ==> w.value.drivewheelTypes == Distinct(DriveColumn(t))
  {
    var p, e, h := FullRange(t, Price), FullRange(t, EngineSize), FullRange(t, Horsepower);
    if p.Some? && e.Some? && h.Some? then
      Some(Widgets(p.value, e.value, h.value, Distinct(FuelColumn(t)), Distinct(BodyColumn(t)), Distinct(DriveColumn(t))))
    else None
  }

  /** `fuel_types`: the multiselect's value, except on the "Hypothesis 1" page, where it is every
      fuel type in the table. */
  function SidebarFuelTypes(page: string, selected: seq<string>, t: Table): (r: seq<string>)
    ensures page != "Hypothesis 1" ==> r == selected
    ensures page == "Hypothesis 1" ==>
      (forall i :: 0 <= i < |t| ==> t[i].fueltype in r)
      && (forall x :: x in r ==> x in FuelColumn(t))
      && (forall i, j :: 0 <= i < j < |r| ==>
            r[i] != r[j] && FirstIndex(FuelColumn(t), r[i]) < FirstIndex(FuelColumn(t), r[j]))
  {
    if page != "Hypothesis 1" then selected else Distinct(FuelColumn(t))
  }

  /** The `global_filters` record built from the sidebar on page `page`. */
  function Criteria(page: string, w: Widgets, t: Table): (f: Filters)
    ensures f.fuelTypes == SidebarFuelTypes(page, w.fuelTypes, t)
    ensures f.priceRange == w.priceRange && f.enginesizes == w.enginesizes && f.horsepower == w.horsepower
    ensures f.carbodyTypes == w.carbodyTypes && f.drivewheelTypes == w.drivewheelTypes
  {
    Filters(w.priceRange, w.enginesizes, w.horsepower,
            SidebarFuelTypes(page, w.fuelTypes, t), w.carbodyTypes, w.drivewheelTypes)
  }

  /** A row with its price, engine size and horsepower present meets the default criteria. */
  lemma DefaultsAdmit(page: string, t: Table, i: int)
    requires 0 <= i < |t|
    requires DefaultWidgets(t).Some?
    requires t[i].price.Some? && t[i].enginesize.Some? && t[i].horsepower.Some?
    ensures Matches(Criteria(page, DefaultWidgets(t).value, t), t[i])
  {
    assert Get(t[i], Price) == t[i].price;
    assert Get(t[i], EngineSize) == t[i].enginesize;
    assert Get(t[i], Horsepower) == t[i].horsepower;
  }

  /** Criteria every row meets remove nothing. */
  lemma KeepsAllMatching(f: Filters, t: Table)
    requires forall i :: 0 <= i < |t| ==> Matches(f, t[i])
    ensures ApplyFilters(f, t) == t
  {
    forall c | c in t ensures Matches(f, c) {
      var i :| 0 <= i < |t| && t[i] == c;
    }
    ApplyFiltersIsSelection(f, t);
    WhereKeepsAll(t, (c: Car) => Matches(f, c));
  }

  /** The sliders have defaults as soon as one row has a price, an engine size and a horsepower. */
  lemma DefaultsExist(t: Table, i: int)
    requires 0 <= i < |t|
    requires t[i].price.Some? && t[i].enginesize.Some? && t[i].horsepower.Some?
    ensures DefaultWidgets(t).Some?
  {
    assert Get(t[i], Price).Some? && Get(t[i], EngineSize).Some? && Get(t[i], Horsepower).Some?;
  }

  /** With every widget at its default and no missing price, engine size or horsepower,
      filtering keeps the whole table. */
  lemma DefaultsKeepEverything(page: string, t: Table)
    requires t != []
    requires forall i :: 0 <= i < |t| ==> t[i].price.Some? && t[i].enginesize.Some? && t[i].horsepower.Some?
    ensures DefaultWidgets(t).Some?
    ensures ApplyFilters(Criteria(page, DefaultWidgets(t).value, t), t) == t
  {
    DefaultsExist(t, 0);
    var f := Criteria(page, DefaultWidgets(t).value, t);
    forall i | 0 <= i < |t| ensures Matches(f, t[i]) {
      DefaultsAdmit(page, t, i);
    }
    KeepsAllMatching(f, t);
  }

  /** On the "Hypothesis 1" page the fuel criterion removes nothing: the result is the one
      with no fuel restriction at all. */
  lemma Hypothesis1BypassesFuel(w: Widgets, t: Table)
    ensures ApplyFilters(Criteria("Hypothesis 1", w, t), t)
         == ApplyFilters(Criteria("Hypothesis 1", w, t).(fuelTypes := []), t)
  {
    var f := Criteria("Hypothesis 1", w, t);
    var g := f.(fuelTypes := []);
    ApplyFiltersIsSelection(f, t);
    ApplyFiltersIsSelection(g, t);
    WhereExt(t, (c: Car) => Matches(f, c), (c: Car) => Matches(g, c));
  }

  /** `st.session_state.get("current_page", "Overview")`. */
  function CurrentPage(stored: Option<string>): (page: string)
    ensures stored.None? ==> page == "Overview"
    ensures stored.Some? ==> page == stored.value
  {
    match stored
    case Some(p) => p
    case None => "Overview"
  }

  /** One run of the home script: load the table once per session, filter it with the sidebar's
      values, store the filtered table and the criteria record, and report the row count. */
  method Run(s: SessionState, csv: Table, w: Widgets) returns (carsAfterFiltering: nat)
    modifies s
    ensures s.df == (if old(s.df).Some? then old(s.df) else Some(csv))
    ensures s.currentPage == old(s.currentPage)
    ensures s.globalFilters == Some(Criteria(CurrentPage(s.currentPage), w, s.df.value))
    ensures s.filteredDf == Some(ApplyFilters(s.globalFilters.value, s.df.value))
    ensures carsAfterFiltering == |s.filteredDf.value|
  {
    if s.df.None? {
      s.df := Some(csv);
    }
    var df := s.df.value;
    var criteria := Criteria(CurrentPage(s.currentPage), w, df);
    var filtered := ApplyFilters(criteria, df);
    s.filteredDf := Some(filtered);
    carsAfterFiltering := |filtered|;
    s.globalFilters := Some(criteria);
  }
}
