/**
 * The car table shared by every page of the dashboard: one record per car,
 * the table as a sequence of records, column access, and the order-preserving
 * row selection (a pandas boolean mask) that every page builds on.
 */
module Frame {

  datatype Option<+T> = None | Some(value: T)

  /** The error a Python statement raised, or the value it produced. */
  datatype Outcome<T> = Ok(value: T) | Raised(error: string)

  /** A numeric cell. `None` stands for a missing value (NaN in pandas). */
  type Num = Option<real>

  /** The value of a categorical column: symboling is an integer code, the others are labels. */
  datatype Level = Code(n: int) | Label(s: string)

  /** One row of the cleaned car table. */
  datatype Car = Car(
    manufacturer: string,
    symboling: int,
    fueltype: string,
    aspiration: string,
    doornumber: string,
    carbody: string,
    drivewheel: string,
    enginetype: string,
    cylindernumber: string,
    fuelsystem: string,
    compressionratioBin: string,
    wheelbase: Num,
    carlength: Num,
    carwidth: Num,
    carheight: Num,
    curbweight: Num,
    enginesize: Num,
    boreratio: Num,
    stroke: Num,
    horsepower: Num,
    peakrpm: Num,
    citympg: Num,
    highwaympg: Num,
    pricePerHp: Num,
    powerToWeightRatio: Num,
    engineEfficiency: Num,
    avgMpg: Num,
    pricePerMpg: Num,
    price: Num)

  /** A data frame: its rows in order. The row index is the position, so
      `reset_index(drop=True)` is the identity here. */
  type Table = seq<Car>

  /** The numeric columns, named as in the data set. */
  datatype NumCol =
    | Wheelbase | CarLength | CarWidth | CarHeight | CurbWeight | EngineSize
    | BoreRatio | Stroke | Horsepower | PeakRpm | CityMpg | HighwayMpg
    | PricePerHp | PowerToWeightRatio | EngineEfficiency | AvgMpg | PricePerMpg | Price

  /** The categorical columns, named as in the data set. */
  datatype CatCol =
    | Symboling | FuelType | Aspiration | DoorNumber | CarBody | DriveWheel
    | EngineType | CylinderNumber | FuelSystem | Manufacturer | CompressionRatioBin

  function Get(c: Car, col: NumCol): Num
  {
    match col
    case Wheelbase => c.wheelbase
    case CarLength => c.carlength
    case CarWidth => c.carwidth
    case CarHeight => c.carheight
    case CurbWeight => c.curbweight
    case EngineSize => c.enginesize
    case BoreRatio => c.boreratio
    case Stroke => c.stroke
    case Horsepower => c.horsepower
    case PeakRpm => c.peakrpm
    case CityMpg => c.citympg
    case HighwayMpg => c.highwaympg
    case PricePerHp => c.pricePerHp
    case PowerToWeightRatio => c.powerToWeightRatio
    case EngineEfficiency => c.engineEfficiency
    case AvgMpg => c.avgMpg
    case PricePerMpg => c.pricePerMpg
    case Price => c.price
  }

  function Category(c: Car, col: CatCol): Level
  {
    match col
    case Symboling => Code(c.symboling)
    case FuelType => Label(c.fueltype)
    case Aspiration => Label(c.aspiration)
    case DoorNumber => Label(c.doornumber)
    case CarBody => Label(c.carbody)
    case DriveWheel => Label(c.drivewheel)
    case EngineType => Label(c.enginetype)
    case CylinderNumber => Label(c.cylindernumber)
    case FuelSystem => Label(c.fuelsystem)
    case Manufacturer => Label(c.manufacturer)
    case CompressionRatioBin => Label(c.compressionratioBin)
  }

  /** `df[col]`: the column as a series aligned with the rows. */
  function Column(t: Table, col: NumCol): (r: seq<Num>)
    ensures |r| == |t|
    ensures forall i :: 0 <= i < |t| ==> r[i] == Get(t[i], col)
  {
    seq(|t|, i requires 0 <= i < |t| => Get(t[i], col))
  }

  /** Every row's cell is in its column. */
  lemma ColumnHas(t: Table, col: NumCol, c: Car)
    requires c in t
    ensures Get(c, col) in Column(t, col)
  {
    var i :| 0 <= i < |t| && t[i] == c;
    assert Column(t, col)[i] == Get(c, col);
  }

  /** The non-missing values of a series, in order (what pandas aggregates with skipna). */
  function Present(xs: seq<Num>): (r: seq<real>)
    ensures |r| <= |xs|
    ensures forall x :: x in r <==> Some(x) in xs
    ensures (forall i :: 0 <= i < |xs| ==> xs[i].Some?) ==> |r| == |xs|
  {
    if xs == [] then []
    else (if xs[0].Some? then [xs[0].value] else []) + Present(xs[1..])
  }

  /** A series with no missing value: its present values are its values, position by position. */
  lemma {:induction false} PresentAll(xs: seq<Num>)
    requires forall i :: 0 <= i < |xs| ==> xs[i].Some?
    ensures |Present(xs)| == |xs|
    ensures forall i :: 0 <= i < |xs| ==> Present(xs)[i] == xs[i].value
  {
    if xs != [] {
      PresentAll(xs[1..]);
      assert Present(xs) == [xs[0].value] + Present(xs[1..]);
    }
  }

  /** True when no row of `t` is missing a value in column `col`. */
  predicate NoMissing(t: Table, col: NumCol)
  {
    forall i :: 0 <= i < |t| ==> Get(t[i], col).Some?
  }

  // ---------------------------------------------------------------------------
  // Row selection

  /** `xs[mask]` for the mask `p`: the elements satisfying `p`, in their original order. */
  function Where<T(!new)>(xs: seq<T>, p: T -> bool): (r: seq<T>)
    ensures |r| <= |xs|
    ensures forall x :: x in r ==> x in xs && p(x)
    ensures forall x :: x in xs && p(x) ==> x in r
    ensures forall x :: multiset(r)[x] == if p(x) then multiset(xs)[x] else 0
  {
    if xs == [] then []
    else
      assert xs == [xs[0]] + xs[1..];
      (if p(xs[0]) then [xs[0]] else []) + Where(xs[1..], p)
  }

  /** The selection's rows, position by position: each kept row passes the mask, and each row of
      the table that passes it is kept. */
  lemma WhereByIndex<T(!new)>(xs: seq<T>, p: T -> bool)
    ensures forall i :: 0 <= i < |Where(xs, p)| ==> p(Where(xs, p)[i]) && Where(xs, p)[i] in xs
    ensures forall i :: 0 <= i < |xs| && p(xs[i]) ==> xs[i] in Where(xs, p)
  {
    var r := Where(xs, p);
    assert forall i :: 0 <= i < |r| ==> r[i] in r;
    assert forall i :: 0 <= i < |xs| ==> xs[i] in xs;
  }

  /** The mask `df[col].notna()`. */
  function HasValue(col: NumCol): Car -> bool { (c: Car) => Get(c, col).Some? }

  /** A column has as many present values as the table has rows where that column is present. */
  lemma {:induction false} PresentCount(t: Table, col: NumCol)
    ensures |Present(Column(t, col))| == |Where(t, HasValue(col))|
  {
    if t != [] {
      var c, rest, has := Column(t, col), Column(t[1..], col), HasValue(col);
      PresentCount(t[1..], col);
      assert c[1..] == rest;
      assert |Present(c)| == (if c[0].Some? then 1 else 0) + |Present(rest)|;
      assert |Where(t, has)| == (if has(t[0]) then 1 else 0) + |Where(t[1..], has)|;
    }
  }

  /** `r` is `xs` with some elements deleted, the rest left in their order. */
  predicate IsSubsequence<T(==)>(r: seq<T>, xs: seq<T>)
    decreases |xs|
  {
    if r == [] then true
    else if xs == [] then false
    else if r[0] == xs[0] then IsSubsequence(r[1..], xs[1..])
    else IsSubsequence(r, xs[1..])
  }

  /** A selection keeps the order of the rows it keeps. */
  lemma {:induction false} WhereIsSubsequence<T(!new)>(xs: seq<T>, p: T -> bool)
    ensures IsSubsequence(Where(xs, p), xs)
  {
    if xs != [] {
      var rest := Where(xs[1..], p);
      WhereIsSubsequence(xs[1..], p);
      if p(xs[0]) {
        assert Where(xs, p) == [xs[0]] + rest;
        assert ([xs[0]] + rest)[1..] == rest;
      } else {
        assert Where(xs, p) == rest;
        if rest != [] {
          assert rest[0] in rest;
        }
      }
    }
  }

  /** Two masks that agree on every element select the same rows. */
  lemma {:induction false} WhereExt<T(!new)>(xs: seq<T>, p: T -> bool, q: T -> bool)
    requires forall x :: x in xs ==> p(x) == q(x)
    ensures Where(xs, p) == Where(xs, q)
  {
    if xs != [] {
      assert forall x :: x in xs[1..] ==> x in xs;
      WhereExt(xs[1..], p, q);
    }
  }

  /** Two successive selections are one selection by the conjunction `both` of the masks. */
  lemma {:induction false} WhereFuse<T(!new)>(xs: seq<T>, p: T -> bool, q: T -> bool, both: T -> bool)
    requires forall x :: both(x) == (p(x) && q(x))
    ensures Where(Where(xs, p), q) == Where(xs, both)
  {
    if xs != [] {
      WhereFuse(xs[1..], p, q, both);
      var rest := Where(xs[1..], p);
      if p(xs[0]) {
        assert Where(xs, p) == [xs[0]] + rest;
        assert ([xs[0]] + rest)[1..] == rest;
        assert Where([xs[0]] + rest, q) == (if q(xs[0]) then [xs[0]] else []) + Where(rest, q);
      } else {
        assert Where(xs, p) == rest;
      }
    }
  }

  /** A selection whose mask holds for every element keeps everything. */
  lemma WhereKeepsAll<T(!new)>(xs: seq<T>, p: T -> bool)
    requires forall x :: x in xs ==> p(x)
    ensures Where(xs, p) == xs
  {
    assert forall i :: 0 <= i < |xs| ==> xs[i] in xs;
    WhereKeepsEvery(xs, p);
  }

  /** The same, with the mask holding position by position. */
  lemma {:induction false} WhereKeepsEvery<T(!new)>(xs: seq<T>, p: T -> bool)
    requires forall i :: 0 <= i < |xs| ==> p(xs[i])
    ensures Where(xs, p) == xs
  {
    if xs != [] {
      var rest := xs[1..];
      assert forall i :: 0 <= i < |rest| ==> rest[i] == xs[i + 1];
      WhereKeepsEvery(rest, p);
      assert p(xs[0]);
      assert xs == [xs[0]] + rest;
    }
  }

  /** A selection whose mask holds for no element keeps nothing. */
  lemma {:induction false} WhereKeepsNone<T(!new)>(xs: seq<T>, p: T -> bool)
    requires forall i :: 0 <= i < |xs| ==> !p(xs[i])
    ensures Where(xs, p) == []
  {
    if xs != [] {
      WhereKeepsNone(xs[1..], p);
    }
  }

  /** Three masks of which every element satisfies exactly one split the elements between them:
      the three selections together hold each element as often as `xs` does. */
  lemma WherePartition<T(!new)>(xs: seq<T>, p: T -> bool, q: T -> bool, r: T -> bool)
    requires forall i :: 0 <= i < |xs| ==> ExactlyOne(p, q, r, xs[i])
    ensures multiset(Where(xs, p)) + multiset(Where(xs, q)) + multiset(Where(xs, r)) == multiset(xs)
    ensures |Where(xs, p)| + |Where(xs, q)| + |Where(xs, r)| == |xs|
  {
    var a, b, c := multiset(Where(xs, p)), multiset(Where(xs, q)), multiset(Where(xs, r));
    forall x ensures (a + b + c)[x] == multiset(xs)[x] {
      PartitionCounts(xs, p, q, r, x);
    }
    assert a + b + c == multiset(xs);
  }

  /** One value's multiplicities across the three selections add up to its multiplicity in the table. */
  lemma PartitionCounts<T(!new)>(xs: seq<T>, p: T -> bool, q: T -> bool, r: T -> bool, x: T)
    requires forall i :: 0 <= i < |xs| ==> ExactlyOne(p, q, r, xs[i])
    ensures multiset(Where(xs, p))[x] + multiset(Where(xs, q))[x] + multiset(Where(xs, r))[x] == multiset(xs)[x]
  {
    if x in xs {
      var i :| 0 <= i < |xs| && xs[i] == x;
      assert ExactlyOne(p, q, r, xs[i]);
    }
  }

  predicate ExactlyOne<T>(p: T -> bool, q: T -> bool, r: T -> bool, x: T)
  {
    (if p(x) then 1 else 0) + (if q(x) then 1 else 0) + (if r(x) then 1 else 0) == 1
  }

  /** Selecting twice with the same mask is selecting once. */
  lemma WhereIdempotent<T(!new)>(xs: seq<T>, p: T -> bool)
    ensures Where(Where(xs, p), p) == Where(xs, p)
  {
    WhereKeepsAll(Where(xs, p), p);
  }

  /** The order in which two masks are applied does not matter. */
  lemma WhereCommutes<T(!new)>(xs: seq<T>, p: T -> bool, q: T -> bool)
    ensures Where(Where(xs, p), q) == Where(Where(xs, q), p)
  {
    var both := x => p(x) && q(x);
    WhereFuse(xs, p, q, both);
    WhereFuse(xs, q, p, both);
  }

  // ---------------------------------------------------------------------------
  // The price cap of the modelling pages

  /** The mask `price <= upper` of `df.query`: false for a missing price. */
  function AtMost(upper: real): Car -> bool
  {
    (c: Car) => c.price.Some? && c.price.value <= upper
  }

  /** `df.query('price <= @upper')` followed by `reset_index(drop=True)`: the rows priced at most
      `upper`, in their order (the positional index is renumbered by construction). */
  function PriceCap(t: Table, upper: real): (r: Table)
    ensures IsSubsequence(r, t)
    ensures forall i :: 0 <= i < |r| ==> r[i].price.Some? && r[i].price.value <= upper
    ensures forall i :: 0 <= i < |t| && t[i].price.Some? && t[i].price.value <= upper ==> t[i] in r
    ensures forall c :: multiset(r)[c] == if c.price.Some? && c.price.value <= upper then multiset(t)[c] else 0
  {
    WhereIsSubsequence(t, AtMost(upper));
    WhereByIndex(t, AtMost(upper));
    Where(t, AtMost(upper))
  }

  /** Capping twice at the same bound is capping once. */
  lemma PriceCapIdempotent(t: Table, upper: real)
    ensures PriceCap(PriceCap(t, upper), upper) == PriceCap(t, upper)
  {
    WhereIdempotent(t, AtMost(upper));
  }

  /** A bound at or above every price removes exactly the unpriced rows. */
  lemma PriceCapAboveAll(t: Table, upper: real)
    requires forall i :: 0 <= i < |t| ==> t[i].price.Some? && t[i].price.value <= upper
    ensures PriceCap(t, upper) == t
  {
    WhereKeepsAll(t, AtMost(upper));
  }

  // ---------------------------------------------------------------------------
  // Distinct values

  /** `Series.unique()`: each value once, in the order of first appearance. */
  function Distinct<T(==,!new)>(xs: seq<T>): (r: seq<T>)
    ensures forall x :: x in r <==> x in xs
    ensures forall i, j :: 0 <= i < j < |r| ==> r[i] != r[j]
    ensures |r| <= |xs|
    ensures forall i, j :: 0 <= i < j < |r| ==> r[i] in xs && r[j] in xs && FirstIndex(xs, r[i]) < FirstIndex(xs, r[j])
  {
    if xs == [] then []
    else
      var init, last := xs[..|xs| - 1], xs[|xs| - 1];
      var d := Distinct(init);
      assert xs == init + [last];
      var r := if last in d then d else d + [last];
      assert forall i, j :: 0 <= i < j < |r| ==> FirstIndex(xs, r[i]) < FirstIndex(xs, r[j]) by {
        forall i, j | 0 <= i < j < |r| ensures FirstIndex(xs, r[i]) < FirstIndex(xs, r[j]) {
          assert r[i] == d[i] && d[i] in d;
          FirstIndexExtend(init, last, d[i]);
          if j < |d| {
            assert r[j] == d[j] && d[j] in d;
            FirstIndexExtend(init, last, d[j]);
          } else {
            assert r[j] == last && last !in init;
            LastFirstSeen(init, last);
          }
        }
      }
      r
  }

  /** The first element of a non-empty series is the first of its distinct values. */
  lemma {:induction false} DistinctHead<T(!new)>(xs: seq<T>)
    requires xs != []
    ensures Distinct(xs) != [] && Distinct(xs)[0] == xs[0]
  {
    if |xs| > 1 {
      DistinctHead(xs[..|xs| - 1]);
    }
  }

  /** A value not in a list is first seen at its end once appended. */
  lemma LastFirstSeen<T>(init: seq<T>, last: T)
    requires last !in init
    ensures FirstIndex(init + [last], last) == |init|
  {
    var xs := init + [last];
    var k := FirstIndex(xs, last);
    if k < |init| {
      assert false;
    }
  }

  /** The position of the first occurrence of `x`. */
  function FirstIndex<T(==)>(xs: seq<T>, x: T): (i: nat)
    requires x in xs
    ensures i < |xs| && xs[i] == x && x !in xs[..i]
  {
    if xs[0] == x then 0
    else
      var j := FirstIndex(xs[1..], x);
      assert xs[..j + 1] == [xs[0]] + xs[1..][..j];
      j + 1
  }

  /** Appending to a list does not move the first occurrence of a value already in it. */
  lemma {:induction false} FirstIndexExtend<T>(xs: seq<T>, x: T, y: T)
    requires y in xs
    ensures FirstIndex(xs + [x], y) == FirstIndex(xs, y)
  {
    if xs[0] != y {
      assert (xs + [x])[1..] == xs[1..] + [x];
      FirstIndexExtend(xs[1..], x, y);
    }
  }
}
