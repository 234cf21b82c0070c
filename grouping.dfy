/**
 * `DataFrame.groupby(col)`: the distinct values of a categorical column in ascending order
 * (pandas sorts group keys by default), and the rows and values of each group.
 */
module Grouping {
  import opened Frame
  import opened Stats

  // ---------------------------------------------------------------------------
  // The order of group keys

  /** Python's string comparison: lexicographic by code point, a prefix first. */
  predicate StrLe(a: string, b: string)
  {
    a == [] || (b != [] && (a[0] < b[0] || (a[0] == b[0] && StrLe(a[1..], b[1..]))))
  }

  lemma {:induction false} StrLeTotal(a: string, b: string)
    ensures StrLe(a, b) || StrLe(b, a)
  {
    if a != [] && b != [] && a[0] == b[0] {
      StrLeTotal(a[1..], b[1..]);
    }
  }

  lemma {:induction false} StrLeTransitive(a: string, b: string, c: string)
    requires StrLe(a, b) && StrLe(b, c)
    ensures StrLe(a, c)
  {
    if a != [] && b != [] && c != [] && a[0] == b[0] && b[0] == c[0] {
      StrLeTransitive(a[1..], b[1..], c[1..]);
    }
  }

  /** Strings that precede each other are equal. */
  lemma {:induction false} StrLeAntisymmetric(a: string, b: string)
    requires StrLe(a, b) && StrLe(b, a)
    ensures a == b
  {
    if a != [] && b != [] {
      StrLeAntisymmetric(a[1..], b[1..]);
      assert a == [a[0]] + a[1..] && b == [b[0]] + b[1..];
    }
  }

  /** The order of group keys: integer codes numerically, labels as strings. A column holds one
      kind only; codes are put first so that the order is total. */
  predicate LevelLe(a: Level, b: Level)
  {
    match (a, b)
    case (Code(x), Code(y)) => x <= y
    case (Label(x), Label(y)) => StrLe(x, y)
    case (Code(_), Label(_)) => true
    case (Label(_), Code(_)) => false
  }

  lemma LevelLeIsTotalPreorder()
    ensures TotalPreorder(LevelLe)
  {
    forall a: Level, b: Level ensures LevelLe(a, b) || LevelLe(b, a) {
      if a.Label? && b.Label? { StrLeTotal(a.s, b.s); }
    }
    forall a: Level, b: Level, c: Level | LevelLe(a, b) && LevelLe(b, c) ensures LevelLe(a, c) {
      if a.Label? && b.Label? && c.Label? { StrLeTransitive(a.s, b.s, c.s); }
    }
  }

  /** Keys that precede each other are equal. */
  lemma LevelLeAntisymmetric(a: Level, b: Level)
    requires LevelLe(a, b) && LevelLe(b, a)
    ensures a == b
  {
    if a.Label? && b.Label? { StrLeAntisymmetric(a.s, b.s); }
  }

  // ---------------------------------------------------------------------------
  // Groups

  /** The values of a categorical column, aligned with the rows. */
  function LevelColumn(t: Table, col: CatCol): (r: seq<Level>)
    ensures |r| == |t|
    ensures forall i :: 0 <= i < |t| ==> r[i] == Category(t[i], col)
  {
    seq(|t|, i requires 0 <= i < |t| => Category(t[i], col))
  }

  /** A sequence without repetitions. */
  predicate NoDuplicates<T(==)>(s: seq<T>)
  {
    forall i, j :: 0 <= i < j < |s| ==> s[i] != s[j]
  }

  /** Selecting from a sequence without repetitions leaves none. */
  lemma {:induction false} WhereNoDuplicates<T(!new)>(xs: seq<T>, p: T -> bool)
    requires NoDuplicates(xs)
    ensures NoDuplicates(Where(xs, p))
  {
    if xs != [] {
      WhereNoDuplicates(xs[1..], p);
      var rest := Where(xs[1..], p);
      assert xs[0] !in xs[1..];
      assert xs[0] !in rest;
    }
  }

  /** A permutation of a sequence without repetitions has none either. */
  lemma PermutationNoDuplicates<T>(s: seq<T>, r: seq<T>)
    requires multiset(r) == multiset(s) && NoDuplicates(s)
    ensures NoDuplicates(r)
  {
    forall x | x in multiset(s) ensures multiset(s)[x] == 1 {
      var i :| 0 <= i < |s| && s[i] == x;
      assert s == s[..i] + [x] + s[i + 1..];
      assert x !in s[..i];
      assert x !in s[i + 1..];
      assert multiset(s) == multiset(s[..i]) + multiset{x} + multiset(s[i + 1..]);
    }
    forall i, j | 0 <= i < j < |r| ensures r[i] != r[j] {
      var a := r[..j];
      assert r == a + r[j..];
      assert a[i] == r[i];
      assert r[j..][0] == r[j];
      assert multiset(r) == multiset(a) + multiset(r[j..]);
      assert multiset(a)[r[i]] >= 1 && multiset(r[j..])[r[j]] >= 1;
      assert multiset(r)[r[j]] <= 1;
    }
  }

  /** `df.groupby(col)` keys: each value of the column once, in ascending order. */
  function GroupKeys(t: Table, col: CatCol): (r: seq<Level>)
    ensures forall k :: k in r <==> k in LevelColumn(t, col)
    ensures NoDuplicates(r)
    ensures forall i, j :: 0 <= i < j < |r| ==> LevelLe(r[i], r[j]) && r[i] != r[j]
  {
    var keys := Distinct(LevelColumn(t, col));
    LevelLeIsTotalPreorder();
    var r := SortBy(keys, LevelLe);
    assert forall k :: k in r <==> k in multiset(keys);
    PermutationNoDuplicates(keys, r);
    r
  }

  /** The mask `df[col] == k`. */
  function InGroup(col: CatCol, k: Level): Car -> bool { (c: Car) => Category(c, col) == k }

  /** The rows of group `k`, in row order. */
  function GroupRows(t: Table, col: CatCol, k: Level): Table
  {
    Where(t, InGroup(col, k))
  }

  /** `df.groupby(col)[target]` for one key: the target values of the group's rows, in row order. */
  function GroupValues(t: Table, col: CatCol, k: Level, target: NumCol): (r: seq<Num>)
    ensures |r| == |GroupRows(t, col, k)|
    ensures forall i :: 0 <= i < |r| ==>
      var row := GroupRows(t, col, k)[i];
      r[i] == Get(row, target) && row in t && Category(row, col) == k
  {
    WhereByIndex(t, InGroup(col, k));
    Column(GroupRows(t, col, k), target)
  }

  /** Every key has at least one row. */
  lemma GroupNotEmpty(t: Table, col: CatCol, k: Level)
    requires k in GroupKeys(t, col)
    ensures GroupRows(t, col, k) != []
  {
    var i :| 0 <= i < |t| && LevelColumn(t, col)[i] == k;
    assert t[i] in GroupRows(t, col, k);
  }

  /** Reordering the rows of a summary keyed, position by position, by the group keys of a column
      keeps exactly the column's values as keys: every row's key is a value of the column, and
      every value of the column is some row's key. */
  lemma ReorderedKeysAreColumnValues<R>(t: Table, col: CatCol, rows: seq<R>, r: seq<R>, key: R -> Level)
    requires multiset(r) == multiset(rows)
    requires |rows| == |GroupKeys(t, col)|
    requires forall i :: 0 <= i < |rows| ==> key(rows[i]) == GroupKeys(t, col)[i]
    ensures forall i :: 0 <= i < |r| ==> key(r[i]) in LevelColumn(t, col)
    ensures forall a :: 0 <= a < |t| ==> exists i :: 0 <= i < |r| && key(r[i]) == Category(t[a], col)
  {
    var keys := GroupKeys(t, col);
    forall i | 0 <= i < |r| ensures key(r[i]) in LevelColumn(t, col) {
      assert r[i] in multiset(rows);
      var b :| 0 <= b < |rows| && rows[b] == r[i];
      assert keys[b] in keys;
    }
    forall a | 0 <= a < |t| ensures exists i :: 0 <= i < |r| && key(r[i]) == Category(t[a], col) {
      assert LevelColumn(t, col)[a] == Category(t[a], col);
      assert Category(t[a], col) in LevelColumn(t, col);
      var b :| 0 <= b < |keys| && keys[b] == Category(t[a], col);
      assert rows[b] in multiset(r);
      var i :| 0 <= i < |r| && r[i] == rows[b];
    }
  }

  /** Reordering the rows of a summary whose keys are all different keeps them all different and
      keeps the set of keys. */
  lemma PermutationKeepsKeys<R>(rows: seq<R>, r: seq<R>, key: R -> Level)
    requires multiset(r) == multiset(rows)
    requires forall i, j :: 0 <= i < j < |rows| ==> key(rows[i]) != key(rows[j])
    ensures forall i, j :: 0 <= i < j < |r| ==> key(r[i]) != key(r[j])
    ensures forall i :: 0 <= i < |r| ==> exists a :: 0 <= a < |rows| && key(rows[a]) == key(r[i])
    ensures forall a :: 0 <= a < |rows| ==> exists i :: 0 <= i < |r| && key(r[i]) == key(rows[a])
  {
    PermutationNoDuplicates(rows, r);
    forall i, j | 0 <= i < j < |r| ensures key(r[i]) != key(r[j]) {
      assert r[i] in multiset(rows) && r[j] in multiset(rows);
      var a :| 0 <= a < |rows| && rows[a] == r[i];
      var b :| 0 <= b < |rows| && rows[b] == r[j];
      assert a != b ==> key(rows[a]) != key(rows[b]);
    }
    forall i | 0 <= i < |r| ensures exists a :: 0 <= a < |rows| && key(rows[a]) == key(r[i]) {
      assert r[i] in multiset(rows);
      var a :| 0 <= a < |rows| && rows[a] == r[i];
    }
    forall a | 0 <= a < |rows| ensures exists i :: 0 <= i < |r| && key(r[i]) == key(rows[a]) {
      assert rows[a] in multiset(r);
      var i :| 0 <= i < |r| && r[i] == rows[a];
    }
  }
}
