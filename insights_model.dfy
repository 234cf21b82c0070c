/**
 * The prediction page, `pages/insights_model.py`. It caps the price at its 99th percentile,
 * adds a binned insurance-risk column `symboling_binned`, and offers six sliders and four
 * select boxes whose default values make up the record handed to the trained regression model.
 * The model itself and its prediction are not part of this model; the record it would receive is.
 */
module InsightsModel {
  import opened Frame
  import opened Stats
  import opened Grouping

  // ---------------------------------------------------------------------------
  // Binning the insurance risk rating

  /** The category removed by `.cat.remove_categories([3])`. */
  const RemovedCode: int := 3

  /** The map given to `.replace(...)`. */
  const SymbolingLabels: map<int, string> :=
    map[-2 := "Low", -1 := "Low", 0 := "Medium", 1 := "High", 2 := "Very High", 3 := "Very High"]

  /** One cell of `symboling_binned`: the removed category becomes missing, a code of the map is
      replaced by its label, and any other code is left as it is. */
  function BinSymboling(n: int): (r: Option<Level>)
    ensures r.None? <==> n == RemovedCode
    ensures r.Some? && r.value.Code? ==> r.value.n == n && n !in SymbolingLabels
  {
    if n == RemovedCode then None
    else if n in SymbolingLabels then Some(Label(SymbolingLabels[n]))
    else Some(Code(n))
  }

  /** The position of a label on the risk scale, from "Low" to "Very High". */
  function RiskRank(l: Option<Level>): int
  {
    match l
    case Some(Label(s)) =>
      if s == "Low" then 0 else if s == "Medium" then 1 else if s == "High" then 2 else if s == "Very High" then 3 else -1
    case _ => -1
  }

  /** -2 and -1 are "Low", 0 is "Medium", 1 is "High" and 2 is "Very High"; the entry for 3 in the
      map never applies, since 3 is removed first, so only 2 is "Very High". */
  lemma SymbolingBins(n: int)
    ensures -2 <= n <= -1 ==> BinSymboling(n) == Some(Label("Low"))
    ensures n == 0 ==> BinSymboling(n) == Some(Label("Medium"))
    ensures n == 1 ==> BinSymboling(n) == Some(Label("High"))
    ensures BinSymboling(n) == Some(Label("Very High")) <==> n == 2
    ensures (n < -2 || n > 3) ==> BinSymboling(n) == Some(Code(n))
  {
    if n == 3 {
      assert BinSymboling(n).None?;
    } else if n in SymbolingLabels {
      assert BinSymboling(n) == Some(Label(SymbolingLabels[n]));
      if -2 <= n <= -1 {
        assert SymbolingLabels[n] == "Low";
      }
    }
  }

  /** The binning keeps the order of the risk codes it labels: a higher code never gets a lower
      label. */
  lemma SymbolingBinsOrdered(a: int, b: int)
    requires -2 <= a <= b <= 2
    ensures 0 <= RiskRank(BinSymboling(a)) <= RiskRank(BinSymboling(b)) <= 3
  {
    SymbolingBins(a);
    SymbolingBins(b);
  }

  /** The codes of the `symboling` column, aligned with the rows. */
  function SymbolingCodes(t: Table): (r: seq<int>)
    ensures |r| == |t|
    ensures forall i :: 0 <= i < |t| ==> r[i] == t[i].symboling
  {
    seq(|t|, i requires 0 <= i < |t| => t[i].symboling)
  }

  /** The `symboling_binned` column, aligned with the rows. */
  function BinnedColumn(t: Table): (r: seq<Option<Level>>)
    ensures |r| == |t|
    ensures forall i :: 0 <= i < |t| ==> r[i] == BinSymboling(t[i].symboling)
  {
    seq(|t|, i requires 0 <= i < |t| => BinSymboling(t[i].symboling))
  }

  /** A cell of `symboling_binned` is missing exactly when the row's code is 3, and is a label of
      the risk scale whenever the code is between -2 and 2. */
  lemma BinnedColumnCells(t: Table)
    ensures forall i :: 0 <= i < |t| ==> (BinnedColumn(t)[i].None? <==> t[i].symboling == RemovedCode)
    ensures forall i :: 0 <= i < |t| && -2 <= t[i].symboling <= 2 ==> 0 <= RiskRank(BinnedColumn(t)[i]) <= 3
  {
    forall i | 0 <= i < |t| && -2 <= t[i].symboling <= 2 ensures 0 <= RiskRank(BinnedColumn(t)[i]) <= 3 {
      SymbolingBinsOrdered(t[i].symboling, t[i].symboling);
    }
  }

  /** The page's `df` from the price cap on: its rows and, once added, its `symboling_binned`
      column. */
  class CappedFrame {
    var rows: Table
    var symbolingBinned: Option<seq<Option<Level>>>

    /** `df.query('price <= @upper')` followed by `reset_index(inplace=True, drop=True)`. */
    constructor (df: Table, upper: real)
      ensures rows == PriceCap(df, upper)
      ensures symbolingBinned == None
    {
      rows := PriceCap(df, upper);
      symbolingBinned := None;
    }

    /** The assignments of `symboling` as a category and of `symboling_binned`. The categories are
        the codes present, so `remove_categories([3])` raises `ValueError` when no row has code 3,
        and the frame is left as it was. */
    method AddSymbolingBinned() returns (error: Option<string>)
      modifies this
      ensures rows == old(rows)
      ensures error.Some? <==> RemovedCode !in SymbolingCodes(rows)
      ensures error.Some? ==> error.value == "ValueError" && symbolingBinned == old(symbolingBinned)
      ensures error.None? ==> symbolingBinned == Some(BinnedColumn(rows))
    {
      if RemovedCode !in SymbolingCodes(rows) {
        return Some("ValueError");
      }
      symbolingBinned := Some(BinnedColumn(rows));
      error := None;
    }
  }

  // ---------------------------------------------------------------------------
  // Widgets

  /** A numeric slider: its bounds, its default value and its step. */
  datatype Slider = Slider(column: NumCol, minValue: Num, maxValue: Num, value: Num, step: real)

  /** The present values of a column are the values of the rows that have one. */
  lemma ColumnValues(t: Table, col: NumCol)
    ensures (exists x :: Some(x) in Column(t, col)) <==> exists i :: 0 <= i < |t| && Get(t[i], col).Some?
    ensures forall i :: 0 <= i < |t| && Get(t[i], col).Some? ==> Some(Get(t[i], col).value) in Column(t, col)
  {
    var xs := Column(t, col);
    forall i | 0 <= i < |t| && Get(t[i], col).Some? ensures Some(Get(t[i], col).value) in xs {
      assert xs[i] == Get(t[i], col);
    }
    if exists x :: Some(x) in xs {
      var x :| Some(x) in xs;
      var i :| 0 <= i < |xs| && xs[i] == Some(x);
      assert Get(t[i], col).Some?;
    }
  }

  /** The slider of a column: from the column's least to its greatest value, starting at its
      median, missing values skipped. All three are NaN when the column has no value. */
  function SliderFor(t: Table, col: NumCol, step: real): (r: Slider)
    ensures r.column == col && r.step == step
    ensures r.value == MedianOf(Column(t, col))
    ensures r.value.Some? == r.minValue.Some? == r.maxValue.Some? == exists i :: 0 <= i < |t| && Get(t[i], col).Some?
    ensures r.value.Some? ==> r.minValue.value <= r.value.value <= r.maxValue.value
    ensures r.minValue.Some? ==> forall i :: 0 <= i < |t| && Get(t[i], col).Some? ==>
      r.minValue.value <= Get(t[i], col).value <= r.maxValue.value
    ensures r.minValue.Some? ==> Some(r.minValue.value) in Column(t, col) && Some(r.maxValue.value) in Column(t, col)
  {
    var xs := Column(t, col);
    ExtremesOfPresent(xs);
    ColumnValues(t, col);
    Slider(col, MinOf(xs), MaxOf(xs), MedianOf(xs), step)
  }

  /** The six sliders, in the page's order, with their steps. */
  const SliderColumns: seq<(NumCol, real)> :=
    [(CurbWeight, 100.0), (Horsepower, 10.0), (PricePerHp, 10.0), (Wheelbase, 1.0), (BoreRatio, 0.1),
     (PowerToWeightRatio, 0.01)]

  function Sliders(t: Table): (r: seq<Slider>)
    ensures |r| == |SliderColumns|
    ensures forall k :: 0 <= k < |r| ==> r[k] == SliderFor(t, SliderColumns[k].0, SliderColumns[k].1)
  {
    seq(|SliderColumns|, k requires 0 <= k < |SliderColumns| => SliderFor(t, SliderColumns[k].0, SliderColumns[k].1))
  }

  /** `st.selectbox(options=..., index=...)`: no options give no value; otherwise the index must
      point into the options, or Streamlit raises. */
  function SelectBox<T(==)>(options: seq<T>, index: int): (r: Outcome<Option<T>>)
    ensures options == [] ==> r == Ok(None)
    ensures options != [] ==> (r.Ok? <==> 0 <= index < |options|)
    ensures r.Raised? ==> r.error == "StreamlitAPIException"
    ensures r.Ok? && r.value.Some? ==> r.value.value in options
  {
    if options == [] then Ok(None)
    else if 0 <= index < |options| then Ok(Some(options[index]))
    else Raised("StreamlitAPIException")
  }

  /** The value of a select box over `df[col].unique().tolist()` with `index=0`: the category of
      the first row, or no value for an empty table. */
  function FirstOption(t: Table, col: CatCol): (r: Option<Level>)
    ensures t == [] ==> r == None
    ensures t != [] ==> r == Some(Category(t[0], col))
  {
    var options := Distinct(LevelColumn(t, col));
    if t != [] then
      DistinctHead(LevelColumn(t, col));
      SelectBox(options, 0).value
    else
      assert options == [];
      SelectBox(options, 0).value
  }

  /** The risk select box starts at its third option: it raises when the binned column has one
      or two different values, including the missing one. */
  lemma ThirdRiskOption(binned: seq<Option<Level>>)
    ensures SelectBox(Distinct(binned), 2).Raised? <==> binned != [] && |Distinct(binned)| < 3
  {
    if binned != [] {
      assert binned[0] in Distinct(binned);
    } else {
      assert Distinct(binned) == [];
    }
  }

  /** `input_data`, the one-row frame handed to `model.predict`: the ten feature values, named as the model expects them. */
  datatype PredictionInput = PredictionInput(
    curbweight: Num,
    horsepower: Num,
    pricePerHp: Num,
    wheelbase: Num,
    boreratio: Num,
    powerToWeightRatio: Num,
    carbody: Option<Level>,
    drivewheel: Option<Level>,
    compressionratioBin: Option<Level>,
    symbolingBinned: Option<Option<Level>>)

  /** The record the model receives when every widget keeps its default, or the error of the
      risk select box. */
  function DefaultInput(sliders: seq<Slider>, t: Table, binned: seq<Option<Level>>): Outcome<PredictionInput>
    requires |sliders| == |SliderColumns|
  {
    var risk := SelectBox(Distinct(binned), 2);
    if risk.Raised? then Raised(risk.error)
    else
      Ok(PredictionInput(
        sliders[0].value, sliders[1].value, sliders[2].value, sliders[3].value, sliders[4].value,
        sliders[5].value,
        FirstOption(t, CarBody), FirstOption(t, DriveWheel), FirstOption(t, CompressionRatioBin),
        risk.value))
  }

  /** Every slider starts within its bounds. */
  lemma SliderDefaultsInBounds(t: Table)
    ensures forall k :: 0 <= k < |Sliders(t)| && Sliders(t)[k].value.Some? ==>
      Sliders(t)[k].minValue.value <= Sliders(t)[k].value.value <= Sliders(t)[k].maxValue.value
  {
    var s := Sliders(t);
    forall k | 0 <= k < |s| && s[k].value.Some? ensures s[k].minValue.value <= s[k].value.value <= s[k].maxValue.value {
      assert s[k] == SliderFor(t, SliderColumns[k].0, SliderColumns[k].1);
    }
  }

  /** Each numeric value of the record is the default of its slider, the median of its column. */
  lemma DefaultsAreMedians(t: Table, binned: seq<Option<Level>>)
    ensures DefaultInput(Sliders(t), t, binned).Ok? ==>
      var p := DefaultInput(Sliders(t), t, binned).value;
      p.curbweight == MedianOf(Column(t, CurbWeight))
      && p.horsepower == MedianOf(Column(t, Horsepower))
      && p.pricePerHp == MedianOf(Column(t, PricePerHp))
      && p.wheelbase == MedianOf(Column(t, Wheelbase))
      && p.boreratio == MedianOf(Column(t, BoreRatio))
      && p.powerToWeightRatio == MedianOf(Column(t, PowerToWeightRatio))
  {
    var s := Sliders(t);
    assert forall k :: 0 <= k < |s| ==> s[k].value == MedianOf(Column(t, SliderColumns[k].0));
  }

  /** The record is built unless the risk select box raises, which it does exactly when the binned
      column has one or two different values. */
  lemma DefaultInputRaises(sliders: seq<Slider>, t: Table, binned: seq<Option<Level>>)
    requires |sliders| == |SliderColumns|
    ensures DefaultInput(sliders, t, binned).Raised? <==> binned != [] && |Distinct(binned)| < 3
  {
    ThirdRiskOption(binned);
  }

  /** The categorical defaults are the first row's categories. */
  lemma DefaultCategories(sliders: seq<Slider>, t: Table, binned: seq<Option<Level>>)
    requires |sliders| == |SliderColumns| && t != []
    ensures DefaultInput(sliders, t, binned).Ok? ==>
      var p := DefaultInput(sliders, t, binned).value;
      p.carbody == Some(Label(t[0].carbody))
      && p.drivewheel == Some(Label(t[0].drivewheel))
      && p.compressionratioBin == Some(Label(t[0].compressionratioBin))
  {
    assert Category(t[0], CarBody) == Label(t[0].carbody);
    assert Category(t[0], DriveWheel) == Label(t[0].drivewheel);
    assert Category(t[0], CompressionRatioBin) == Label(t[0].compressionratioBin);
  }

  /** The risk default is the third binned value in order of appearance. */
  lemma DefaultRisk(sliders: seq<Slider>, t: Table, binned: seq<Option<Level>>)
    requires |sliders| == |SliderColumns|
    ensures DefaultInput(sliders, t, binned).Ok? && binned != [] ==>
      DefaultInput(sliders, t, binned).value.symbolingBinned == Some(Distinct(binned)[2])
  {
    ThirdRiskOption(binned);
  }

  // ---------------------------------------------------------------------------
  // The page

  /** How a run of the page ends: the warning when the session holds no table, an exception, or
      the widgets with the record they would send to the model. */
  datatype PageOutcome = NoData | Failed(error: string) | Ready(sliders: seq<Slider>, input: PredictionInput)

  /** One run of the page on the session's `df`, with the 99th-percentile price `upper` given. */
  method RunPage(df: Option<Table>, upper: real) returns (o: PageOutcome)
    ensures o.NoData? <==> df.None?
    ensures df.Some? ==>
      var capped := PriceCap(df.value, upper);
      (RemovedCode !in SymbolingCodes(capped) ==> o == Failed("ValueError"))
      && (RemovedCode in SymbolingCodes(capped) ==>
            match DefaultInput(Sliders(capped), capped, BinnedColumn(capped))
            case Raised(e) => o == Failed(e)
            case Ok(input) => o == Ready(Sliders(capped), input))
  {
    if df.None? {
      return NoData;
    }
    var frame := new CappedFrame(df.value, upper);
    var error := frame.AddSymbolingBinned();
    if error.Some? {
      return Failed(error.value);
    }
    var sliders := Sliders(frame.rows);
    var input := DefaultInput(sliders, frame.rows, frame.symbolingBinned.value);
    if input.Raised? {
      return Failed(input.error);
    }
    o := Ready(sliders, input.value);
  }
}
