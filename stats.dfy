/**
 * The pandas aggregations the pages use (sum, mean, min, max, median with
 * missing values skipped) and `sort_values`, over exact reals.
 */
module Stats {
  import opened Frame

  // ---------------------------------------------------------------------------
  // Sums and means over present values

  function Sum(xs: seq<real>): real
  {
    if xs == [] then 0.0 else xs[0] + Sum(xs[1..])
  }

  /** The arithmetic mean of a non-empty sample. */
  function Mean(xs: seq<real>): real
    requires xs != []
  {
    Sum(xs) / (|xs| as real)
  }

  /** The least value of a non-empty sample. */
  function Min(xs: seq<real>): (m: real)
    requires xs != []
    ensures m in xs
    ensures forall x :: x in xs ==> m <= x
  {
    if |xs| == 1 then xs[0]
    else
      var rest := Min(xs[1..]);
      assert forall x :: x in xs ==> x == xs[0] || x in xs[1..];
      if xs[0] <= rest then xs[0] else rest
  }

  /** The greatest value of a non-empty sample. */
  function Max(xs: seq<real>): (m: real)
    requires xs != []
    ensures m in xs
    ensures forall x :: x in xs ==> x <= m
  {
    if |xs| == 1 then xs[0]
    else
      var rest := Max(xs[1..]);
      assert forall x :: x in xs ==> x == xs[0] || x in xs[1..];
      if xs[0] >= rest then xs[0] else rest
  }

  /** A sample bounded below by `lo` and above by `hi` has its sum between `n*lo` and `n*hi`. */
  lemma {:induction false} SumBounds(xs: seq<real>, lo: real, hi: real)
    requires forall x :: x in xs ==> lo <= x <= hi
    ensures (|xs| as real) * lo <= Sum(xs) <= (|xs| as real) * hi
  {
    if xs != [] {
      assert forall x :: x in xs[1..] ==> x in xs;
      SumBounds(xs[1..], lo, hi);
      assert xs[0] in xs;
      assert (|xs| as real) * lo == lo + ((|xs| - 1) as real) * lo;
      assert (|xs| as real) * hi == hi + ((|xs| - 1) as real) * hi;
    }
  }

  /** The mean of a sample lies between its least and its greatest value. */
  lemma MeanBetweenMinMax(xs: seq<real>)
    requires xs != []
    ensures Min(xs) <= Mean(xs) <= Max(xs)
  {
    SumBounds(xs, Min(xs), Max(xs));
    QuotientBounds(Sum(xs), |xs| as real, Min(xs), Max(xs));
  }

  lemma QuotientBounds(s: real, n: real, lo: real, hi: real)
    requires n > 0.0 && n * lo <= s <= n * hi
    ensures lo <= s / n <= hi
  {
    var q := s / n;
    assert q * n == s;
    assert (q - lo) * n >= 0.0;
    assert (hi - q) * n >= 0.0;
  }

  /** The sum of the elementwise sums of two equally long samples. */
  lemma {:induction false} SumOfPairwise(xs: seq<real>, ys: seq<real>, zs: seq<real>)
    requires |xs| == |ys| == |zs|
    requires forall i :: 0 <= i < |zs| ==> zs[i] == xs[i] + ys[i]
    ensures Sum(zs) == Sum(xs) + Sum(ys)
  {
    if zs != [] {
      SumOfPairwise(xs[1..], ys[1..], zs[1..]);
    }
  }

  /** The sum of a sample scaled by a constant. */
  lemma {:induction false} SumScaled(xs: seq<real>, zs: seq<real>, k: real)
    requires |xs| == |zs|
    requires forall i :: 0 <= i < |zs| ==> zs[i] == k * xs[i]
    ensures Sum(zs) == k * Sum(xs)
  {
    if zs != [] {
      SumScaled(xs[1..], zs[1..], k);
    }
  }

  /** The mean of the elementwise midpoints of two samples is the midpoint of their means. */
  lemma MeanOfHalfSums(xs: seq<real>, ys: seq<real>, zs: seq<real>)
    requires |xs| == |ys| == |zs| > 0
    requires forall i :: 0 <= i < |zs| ==> zs[i] == (xs[i] + ys[i]) / 2.0
    ensures Mean(zs) == (Mean(xs) + Mean(ys)) / 2.0
  {
    var both := seq(|zs|, i requires 0 <= i < |zs| => xs[i] + ys[i]);
    SumOfPairwise(xs, ys, both);
    SumScaled(both, zs, 0.5);
    DivideSum(Sum(xs), Sum(ys), |zs| as real);
  }

  lemma DivideSum(a: real, b: real, n: real)
    requires n > 0.0
    ensures (0.5 * (a + b)) / n == (a / n + b / n) / 2.0
  {
  }

  // ---------------------------------------------------------------------------
  // Series aggregations with missing values skipped (pandas' default skipna)

  /** `Series.mean()`: the mean of the present values, NaN when there are none. */
  function MeanOf(xs: seq<Num>): (r: Num)
    ensures r.Some? <==> exists x :: Some(x) in xs
    ensures r.Some? ==> Min(Present(xs)) <= r.value <= Max(Present(xs))
  {
    var vs := Present(xs);
    if vs == [] then None
    else
      MeanBetweenMinMax(vs);
      assert vs[0] in vs;
      Some(Mean(vs))
  }

  /** `Series.min()`, NaN for a series with no present value. */
  function MinOf(xs: seq<Num>): (r: Num)
    ensures r.Some? <==> exists x :: Some(x) in xs
    ensures r.Some? ==> Some(r.value) in xs && forall x :: Some(x) in xs ==> r.value <= x
  {
    var vs := Present(xs);
    if vs == [] then None
    else
      assert vs[0] in vs;
      Some(Min(vs))
  }

  /** `Series.max()`, NaN for a series with no present value. */
  function MaxOf(xs: seq<Num>): (r: Num)
    ensures r.Some? <==> exists x :: Some(x) in xs
    ensures r.Some? ==> Some(r.value) in xs && forall x :: Some(x) in xs ==> x <= r.value
  {
    var vs := Present(xs);
    if vs == [] then None
    else
      assert vs[0] in vs;
      Some(Max(vs))
  }

  /** `min()` and `max()` of a series are the least and greatest of its present values. */
  lemma ExtremesOfPresent(xs: seq<Num>)
    ensures MinOf(xs).Some? <==> Present(xs) != []
    ensures Present(xs) != [] ==> MinOf(xs).value == Min(Present(xs)) && MaxOf(xs).value == Max(Present(xs))
  {
    var vs := Present(xs);
    if vs != [] {
      assert vs[0] in vs;
      assert Min(vs) in vs && Max(vs) in vs;
    }
  }

  // ---------------------------------------------------------------------------
  // Sorting

  /** The order `sort_values(ascending=False)` puts values in: larger first, NaN last. */
  predicate NumGeq(a: Num, b: Num)
  {
    match a
    case None => b.None?
    case Some(x) => b.None? || x >= b.value
  }

  /** `le` is total and transitive: a sort order. */
  ghost predicate TotalPreorder<T(!new)>(le: (T, T) -> bool)
  {
    (forall a, b :: le(a, b) || le(b, a)) &&
    (forall a, b, c :: le(a, b) && le(b, c) ==> le(a, c))
  }

  predicate SortedBy<T>(s: seq<T>, le: (T, T) -> bool)
  {
    forall i, j :: 0 <= i < j < |s| ==> le(s[i], s[j])
  }

  /** Puts `x` in front of the first element it may precede. */
  function Insert<T(!new)>(x: T, s: seq<T>, le: (T, T) -> bool): (r: seq<T>)
    requires TotalPreorder(le)
    requires SortedBy(s, le)
    ensures SortedBy(r, le)
    ensures multiset(r) == multiset(s) + multiset{x}
    ensures |r| == |s| + 1
  {
    if s == [] then [x]
    else if le(x, s[0]) then [x] + s
    else
      var rest := Insert(x, s[1..], le);
      assert s == [s[0]] + s[1..];
      assert le(s[0], x);
      forall k | 0 <= k < |rest| ensures le(s[0], rest[k]) {
        HeadPrecedes(x, s, le, rest, k);
      }
      [s[0]] + rest
  }

  /** The head of a sorted list precedes everything in its tail with `x` added, when it precedes `x`. */
  lemma HeadPrecedes<T(!new)>(x: T, s: seq<T>, le: (T, T) -> bool, rest: seq<T>, k: int)
    requires TotalPreorder(le) && SortedBy(s, le) && s != [] && le(s[0], x)
    requires multiset(rest) == multiset(s[1..]) + multiset{x}
    requires 0 <= k < |rest|
    ensures le(s[0], rest[k])
  {
    assert rest[k] in multiset(rest);
    if rest[k] != x {
      assert rest[k] in multiset(s[1..]);
      var j :| 0 <= j < |s[1..]| && s[1..][j] == rest[k];
      assert s[1 + j] == rest[k];
    }
  }

  /** A stable sort of `xs` by the order `le` (earlier equals stay first). */
  function SortBy<T(!new)>(xs: seq<T>, le: (T, T) -> bool): (r: seq<T>)
    requires TotalPreorder(le)
    ensures SortedBy(r, le)
    ensures multiset(r) == multiset(xs)
    ensures |r| == |xs|
  {
    if xs == [] then []
    else
      assert xs == [xs[0]] + xs[1..];
      Insert(xs[0], SortBy(xs[1..], le), le)
  }

  /** The order of a descending sort on a numeric key, NaN last. */
  lemma NumGeqIsTotalPreorder<T(!new)>(key: T -> Num)
    ensures TotalPreorder((a: T, b: T) => NumGeq(key(a), key(b)))
  {
  }

  /** `sort_values(by=key, ascending=False)`. */
  function SortDescending<T(!new)>(xs: seq<T>, key: T -> Num): (r: seq<T>)
    ensures multiset(r) == multiset(xs)
    ensures forall i, j :: 0 <= i < j < |r| ==> NumGeq(key(r[i]), key(r[j]))
  {
    NumGeqIsTotalPreorder(key);
    SortBy(xs, (a: T, b: T) => NumGeq(key(a), key(b)))
  }

  // ---------------------------------------------------------------------------
  // Median

  /** The reals from largest to smallest. */
  function Descending(xs: seq<real>): (r: seq<real>)
    ensures multiset(r) == multiset(xs)
    ensures |r| == |xs|
    ensures forall i, j :: 0 <= i < j < |r| ==> r[i] >= r[j]
  {
    var r := SortDescending(xs, (x: real) => Some(x));
    assert |r| == |multiset(r)| == |multiset(xs)| == |xs|;
    r
  }

  /** The median of a non-empty sample: its middle value, or the mean of the two middle values. */
  function Median(xs: seq<real>): (m: real)
    requires xs != []
    ensures Min(xs) <= m <= Max(xs)
  {
    var s := Descending(xs);
    var n := |s|;
    assert forall i :: 0 <= i < n ==> Min(xs) <= s[i] <= Max(xs) by {
      forall i | 0 <= i < n ensures Min(xs) <= s[i] <= Max(xs) {
        assert s[i] in multiset(s);
        assert s[i] in xs;
      }
    }
    if n % 2 == 1 then s[n / 2] else (s[n / 2 - 1] + s[n / 2]) / 2.0
  }

  /** The mask `x <= m`. */
  function AtMostOf(m: real): real -> bool { (x: real) => x <= m }

  /** The mask `x >= m`. */
  function AtLeastOf(m: real): real -> bool { (x: real) => x >= m }

  /** At least half of the sample lies at or below its median, and at least half at or above it. */
  lemma MedianSplitsSample(xs: seq<real>)
    requires xs != []
    ensures 2 * |Where(xs, AtMostOf(Median(xs)))| >= |xs|
    ensures 2 * |Where(xs, AtLeastOf(Median(xs)))| >= |xs|
  {
    var s, m := Descending(xs), Median(xs);
    MedianBetweenMiddles(xs);
    HalfAtOrBelow(s, m);
    HalfAtOrAbove(s, m);
    SameCount(xs, s, AtMostOf(m));
    SameCount(xs, s, AtLeastOf(m));
  }

  /** In a descending list, a bound at or above the value in the middle position has at least half
      of the list at or below it. */
  lemma HalfAtOrBelow(s: seq<real>, m: real)
    requires forall i, j :: 0 <= i < j < |s| ==> s[i] >= s[j]
    requires s != [] && s[|s| / 2] <= m
    ensures 2 * |Where(s, AtMostOf(m))| >= |s|
  {
    var n := |s|;
    forall i | n / 2 <= i < n ensures AtMostOf(m)(s[i]) {
      assert s[i] <= s[n / 2];
    }
    CountFromSuffix(s, n / 2, AtMostOf(m));
  }

  /** In a descending list, a bound at or below the value just before the middle (the middle value
      itself when the size is odd) has at least half of the list at or above it. */
  lemma HalfAtOrAbove(s: seq<real>, m: real)
    requires forall i, j :: 0 <= i < j < |s| ==> s[i] >= s[j]
    requires s != [] && m <= s[if |s| % 2 == 1 then |s| / 2 else |s| / 2 - 1]
    ensures 2 * |Where(s, AtLeastOf(m))| >= |s|
  {
    var n := |s|;
    var hi := if n % 2 == 1 then n / 2 + 1 else n / 2;
    forall i | 0 <= i < hi ensures AtLeastOf(m)(s[i]) {
      assert s[i] >= s[hi - 1];
    }
    CountFromPrefix(s, hi, AtLeastOf(m));
  }

  /** The median lies between the two middle values of the sample in descending order (the same
      value when the sample has odd size). */
  lemma MedianBetweenMiddles(xs: seq<real>)
    requires xs != []
    ensures var s, n := Descending(xs), |xs|;
      s[n / 2] <= Median(xs) <= s[if n % 2 == 1 then n / 2 else n / 2 - 1]
  {
  }

  /** A selection keeps at least the part of the list, after position `k`, that passes the mask. */
  lemma CountFromSuffix(s: seq<real>, k: int, p: real -> bool)
    requires 0 <= k <= |s|
    requires forall i :: k <= i < |s| ==> p(s[i])
    ensures |Where(s, p)| >= |s| - k
  {
    var tail := s[k..];
    assert s == s[..k] + tail;
    forall i | 0 <= i < |tail| ensures p(tail[i]) { assert tail[i] == s[k + i]; }
    CountFromPart(s, tail, p);
  }

  /** A selection keeps at least the part of the list, before position `k`, that passes the mask. */
  lemma CountFromPrefix(s: seq<real>, k: int, p: real -> bool)
    requires 0 <= k <= |s|
    requires forall i :: 0 <= i < k ==> p(s[i])
    ensures |Where(s, p)| >= k
  {
    var head := s[..k];
    assert s == head + s[k..];
    CountFromPart(s, head, p);
  }

  /** A selection keeps at least as many values as any part of the list that passes the mask. */
  lemma CountFromPart(s: seq<real>, part: seq<real>, p: real -> bool)
    requires multiset(part) <= multiset(s)
    requires forall i :: 0 <= i < |part| ==> p(part[i])
    ensures |Where(s, p)| >= |part|
  {
    var w, a := multiset(Where(s, p)), multiset(part);
    forall x ensures a[x] <= w[x] {
      if a[x] > 0 {
        var i :| 0 <= i < |part| && part[i] == x;
      }
    }
    assert w == a + (w - a);
  }

  /** Two arrangements of the same values have as many values passing a mask. */
  lemma SameCount(xs: seq<real>, ys: seq<real>, p: real -> bool)
    requires multiset(xs) == multiset(ys)
    ensures |Where(xs, p)| == |Where(ys, p)|
  {
    assert multiset(Where(xs, p)) == multiset(Where(ys, p));
    assert |multiset(Where(xs, p))| == |Where(xs, p)|;
  }

  /** `Series.median()`: the median of the present values, NaN when there are none. */
  function MedianOf(xs: seq<Num>): (r: Num)
    ensures r.Some? <==> exists x :: Some(x) in xs
    ensures r.Some? ==> Min(Present(xs)) <= r.value <= Max(Present(xs))
  {
    var vs := Present(xs);
    if vs == [] then None
    else
      assert vs[0] in vs;
      Some(Median(vs))
  }
}
