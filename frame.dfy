/** The table primitives the analysis is built from: one record per policy row,
    typed column keys, row selection by key (a boolean mask), the distinct labels
    of a column, and the two-way count table (a cross-tabulation). */
module Frame {

  /** A cell of a text column: a string, or the missing value (NaN). */
  datatype Cell = Missing | Text(s: string)

  /** One policy-period row. `hasClaim` and `margin` are derived columns,
      (re)computed by `Cleaning.Derive`. */
  datatype Record = Record(
    postalCode: Cell,
    gender: Cell,
    vehicleType: Cell,
    province: Cell,
    totalPremium: real,
    totalClaims: real,
    hasClaim: bool,
    margin: real)

  /** The label a row carries in one key column: a category or a boolean. */
  datatype Key = Cat(c: Cell) | Flag(b: bool)

  /** The key columns the analysis groups and cross-tabulates by. `PostalIn` and
      `GenderIn` are the boolean masks built with `isin` on a list of values. */
  datatype Column =
    | Province
    | VehicleType
    | PostalCode
    | HasClaim
    | PostalIn(codes: seq<Key>)
    | GenderIn(values: seq<string>)

  function KeyOf(r: Record, col: Column): Key {
    match col
    case Province => Cat(r.province)
    case VehicleType => Cat(r.vehicleType)
    case PostalCode => Cat(r.postalCode)
    case HasClaim => Flag(r.hasClaim)
    case PostalIn(codes) => Flag(Cat(r.postalCode) in codes)
    // `isin` never matches a missing value
    case GenderIn(values) => Flag(r.gender.Text? && r.gender.s in values)
  }

  predicate Distinct(ks: seq<Key>) {
    forall i, j :: 0 <= i < j < |ks| ==> ks[i] != ks[j]
  }

  /** The rows whose label in `col` is `k`, in their original order, each as
      often as it occurs. */
  function Select(rows: seq<Record>, col: Column, k: Key): (sel: seq<Record>)
    ensures |sel| <= |rows|
    ensures forall r :: r in sel ==> r in rows && KeyOf(r, col) == k
    ensures forall r :: r in rows && KeyOf(r, col) == k ==> r in sel
  {
    if rows == [] then []
    else if KeyOf(rows[0], col) == k then [rows[0]] + Select(rows[1..], col, k)
    else Select(rows[1..], col, k)
  }

  /** A selection keeps every matching row as often as it occurs: its size is
      the number of rows carrying the label. */
  lemma {:induction false} SelectCount(rows: seq<Record>, col: Column, k: Key)
    ensures |Select(rows, col, k)| == Matching(rows, col, k, col, k)
  {
    if rows != [] {
      SelectCount(rows[1..], col, k);
    }
  }

  /** Selection distributes over concatenation: the kept rows of two parts
      are those of the first part, in order, followed by those of the second.
      With the one-row case (a row is kept exactly when it carries the label)
      this fixes the order and the number of copies of every kept row. */
  lemma {:induction false} SelectAppend(xs: seq<Record>, ys: seq<Record>, col: Column, k: Key)
    ensures Select(xs + ys, col, k) == Select(xs, col, k) + Select(ys, col, k)
  {
    if xs == [] {
      assert xs + ys == ys;
    } else {
      assert (xs + ys)[0] == xs[0];
      assert (xs + ys)[1..] == xs[1..] + ys;
      SelectAppend(xs[1..], ys, col, k);
    }
  }

  /** A single row is kept exactly when it carries the label. */
  lemma SelectOne(r: Record, col: Column, k: Key)
    ensures Select([r], col, k) == if KeyOf(r, col) == k then [r] else []
  {
    assert [r][1..] == [];
  }

  /** Number of rows labelled `k1` in `c1` and `k2` in `c2`: the reference
      meaning of one cross-tabulation cell. */
  function Matching(rows: seq<Record>, c1: Column, k1: Key, c2: Column, k2: Key): nat {
    if rows == [] then 0
    else (if KeyOf(rows[0], c1) == k1 && KeyOf(rows[0], c2) == k2 then 1 else 0)
         + Matching(rows[1..], c1, k1, c2, k2)
  }

  /** The distinct labels of `col`, in order of first occurrence. */
  function Keys(rows: seq<Record>, col: Column): (ks: seq<Key>)
    ensures Distinct(ks)
    ensures forall k :: k in ks <==> |Select(rows, col, k)| > 0
  {
    if rows == [] then []
    else
      var ks := Keys(rows[..|rows| - 1], col);
      var k := KeyOf(rows[|rows| - 1], col);
      SelectSplitLast(rows, col);
      if k in ks then ks else ks + [k]
  }

  lemma SelectSplitLast(rows: seq<Record>, col: Column)
    requires rows != []
    ensures forall k :: |Select(rows, col, k)| > 0 <==>
      |Select(rows[..|rows| - 1], col, k)| > 0 || KeyOf(rows[|rows| - 1], col) == k
  {
    var n := |rows| - 1;
    forall k ensures |Select(rows, col, k)| > 0 <==>
      |Select(rows[..n], col, k)| > 0 || KeyOf(rows[n], col) == k
    {
      if |Select(rows, col, k)| > 0 {
        var r := Select(rows, col, k)[0];
        assert r in rows;
        var i :| 0 <= i < |rows| && rows[i] == r;
        if i < n {
          assert r in rows[..n];
        }
      }
      if |Select(rows[..n], col, k)| > 0 {
        var r := Select(rows[..n], col, k)[0];
        assert r in rows[..n];
        var i :| 0 <= i < n && rows[..n][i] == r;
        assert rows[i] in Select(rows, col, k);
      }
      if KeyOf(rows[n], col) == k {
        assert rows[n] in Select(rows, col, k);
      }
    }
  }

  /** Number of rows per label of `ks`: a `value_counts` restricted to `ks`. */
  function Counts(rows: seq<Record>, col: Column, ks: seq<Key>): (cs: seq<nat>)
    ensures |cs| == |ks|
    ensures forall i :: 0 <= i < |ks| ==> cs[i] == |Select(rows, col, ks[i])|
  {
    if ks == [] then []
    else [|Select(rows, col, ks[0])|] + Counts(rows, col, ks[1..])
  }

  function SumNat(s: seq<nat>): nat {
    if s == [] then 0 else s[0] + SumNat(s[1..])
  }

  function Total(cells: seq<seq<nat>>): nat {
    if cells == [] then 0 else SumNat(cells[0]) + Total(cells[1..])
  }

  /** A two-way count table: one row per label in `rowKeys`, one column per
      label in `colKeys`. */
  datatype Table = Table(rowKeys: seq<Key>, colKeys: seq<Key>, cells: seq<seq<nat>>)

  function Grid(rows: seq<Record>, rowCol: Column, rks: seq<Key>, colCol: Column, cks: seq<Key>)
    : (g: seq<seq<nat>>)
    ensures |g| == |rks|
    ensures forall i :: 0 <= i < |rks| ==> g[i] == Counts(Select(rows, rowCol, rks[i]), colCol, cks)
  {
    if rks == [] then []
    else [Counts(Select(rows, rowCol, rks[0]), colCol, cks)] + Grid(rows, rowCol, rks[1..], colCol, cks)
  }

  /** `crosstab(rowCol, colCol)`: every observed label pair gets the number of rows carrying it. */
  function CrossTab(rows: seq<Record>, rowCol: Column, colCol: Column): (t: Table)
    ensures Distinct(t.rowKeys) && Distinct(t.colKeys)
    ensures forall k :: k in t.rowKeys <==> exists r :: r in rows && KeyOf(r, rowCol) == k
    ensures forall k :: k in t.colKeys <==> exists r :: r in rows && KeyOf(r, colCol) == k
    ensures |t.cells| == |t.rowKeys|
    ensures forall i :: 0 <= i < |t.cells| ==> |t.cells[i]| == |t.colKeys|
    ensures forall i, j :: 0 <= i < |t.rowKeys| && 0 <= j < |t.colKeys| ==>
      t.cells[i][j] == Matching(rows, rowCol, t.rowKeys[i], colCol, t.colKeys[j])
  {
    var rks := Keys(rows, rowCol);
    var cks := Keys(rows, colCol);
    forall k ensures k in rks <==> exists r :: r in rows && KeyOf(r, rowCol) == k {
      if k in rks {
        var r := Select(rows, rowCol, k)[0];
        assert r in Select(rows, rowCol, k);
      }
    }
    forall k ensures k in cks <==> exists r :: r in rows && KeyOf(r, colCol) == k {
      if k in cks {
        var r := Select(rows, colCol, k)[0];
        assert r in Select(rows, colCol, k);
      }
    }
    forall i, j | 0 <= i < |rks| && 0 <= j < |cks|
      ensures |Select(Select(rows, rowCol, rks[i]), colCol, cks[j])| == Matching(rows, rowCol, rks[i], colCol, cks[j])
    {
      SelectTwice(rows, rowCol, rks[i], colCol, cks[j]);
    }
    Table(rks, cks, Grid(rows, rowCol, rks, colCol, cks))
  }

  lemma {:induction false} SelectTwice(rows: seq<Record>, c1: Column, k1: Key, c2: Column, k2: Key)
    ensures |Select(Select(rows, c1, k1), c2, k2)| == Matching(rows, c1, k1, c2, k2)
  {
    if rows != [] {
      SelectTwice(rows[1..], c1, k1, c2, k2);
    }
  }

  /** Selections on two columns commute. */
  lemma {:induction false} SelectCommute(rows: seq<Record>, c1: Column, k1: Key, c2: Column, k2: Key)
    ensures Select(Select(rows, c1, k1), c2, k2) == Select(Select(rows, c2, k2), c1, k1)
  {
    if rows != [] {
      SelectCommute(rows[1..], c1, k1, c2, k2);
    }
  }

  /** Adding one row in front adds one to the count of exactly the label it carries. */
  lemma {:induction false} CountsCons(r: Record, rest: seq<Record>, col: Column, ks: seq<Key>)
    requires Distinct(ks)
    ensures SumNat(Counts([r] + rest, col, ks)) ==
      SumNat(Counts(rest, col, ks)) + (if KeyOf(r, col) in ks then 1 else 0)
  {
    if ks != [] {
      var rows := [r] + rest;
      assert rows[1..] == rest;
      assert Distinct(ks[1..]) by {
        forall i, j | 0 <= i < j < |ks| - 1 ensures ks[1..][i] != ks[1..][j] {
          assert ks[1..][i] == ks[i + 1] && ks[1..][j] == ks[j + 1];
        }
      }
      CountsCons(r, rest, col, ks[1..]);
      assert KeyOf(r, col) in ks <==> KeyOf(r, col) == ks[0] || KeyOf(r, col) in ks[1..];
      assert ks[0] !in ks[1..];
    }
  }

  /** When `ks` holds every label of `col` once, the per-label counts add up to
      the number of rows: the groups partition the rows. */
  lemma {:induction false} CountsPartition(rows: seq<Record>, col: Column, ks: seq<Key>)
    requires Distinct(ks)
    requires forall r :: r in rows ==> KeyOf(r, col) in ks
    ensures SumNat(Counts(rows, col, ks)) == |rows|
  {
    if rows == [] {
      ZeroCounts(col, ks);
    } else {
      assert rows == [rows[0]] + rows[1..];
      CountsPartition(rows[1..], col, ks);
      CountsCons(rows[0], rows[1..], col, ks);
    }
  }

  lemma {:induction false} ZeroCounts(col: Column, ks: seq<Key>)
    ensures SumNat(Counts([], col, ks)) == 0
  {
    if ks != [] {
      ZeroCounts(col, ks[1..]);
    }
  }

  lemma {:induction false} GridTotal(rows: seq<Record>, rowCol: Column, rks: seq<Key>, colCol: Column, cks: seq<Key>)
    requires Distinct(cks)
    requires forall r :: r in rows ==> KeyOf(r, colCol) in cks
    ensures Total(Grid(rows, rowCol, rks, colCol, cks)) == SumNat(Counts(rows, rowCol, rks))
  {
    if rks != [] {
      CountsPartition(Select(rows, rowCol, rks[0]), colCol, cks);
      GridTotal(rows, rowCol, rks[1..], colCol, cks);
    }
  }

  /** Each row of a cross-tabulation sums to the size of its group, and the
      whole table sums to the number of rows. */
  lemma CrossTabSums(rows: seq<Record>, rowCol: Column, colCol: Column)
    ensures var t := CrossTab(rows, rowCol, colCol);
      (forall i :: 0 <= i < |t.rowKeys| ==> SumNat(t.cells[i]) == |Select(rows, rowCol, t.rowKeys[i])|)
      && Total(t.cells) == |rows|
  {
    var rks := Keys(rows, rowCol);
    var cks := Keys(rows, colCol);
    var g := Grid(rows, rowCol, rks, colCol, cks);
    assert CrossTab(rows, rowCol, colCol) == Table(rks, cks, g);
    CoveredBy(rows, colCol);
    CoveredBy(rows, rowCol);
    CrossTabRowSums(rows, rowCol, colCol);
    GridTotal(rows, rowCol, rks, colCol, cks);
    CountsPartition(rows, rowCol, rks);
  }

  /** Every row's label is among the labels of its column. */
  lemma CoveredBy(rows: seq<Record>, col: Column)
    ensures forall r :: r in rows ==> KeyOf(r, col) in Keys(rows, col)
  {
    forall r | r in rows ensures KeyOf(r, col) in Keys(rows, col) {
      assert r in Select(rows, col, KeyOf(r, col));
    }
  }

  lemma CrossTabRowSums(rows: seq<Record>, rowCol: Column, colCol: Column)
    requires forall r :: r in rows ==> KeyOf(r, colCol) in Keys(rows, colCol)
    ensures forall i :: 0 <= i < |Keys(rows, rowCol)| ==>
      SumNat(Counts(Select(rows, rowCol, Keys(rows, rowCol)[i]), colCol, Keys(rows, colCol)))
      == |Select(rows, rowCol, Keys(rows, rowCol)[i])|
  {
    var rks := Keys(rows, rowCol);
    forall i | 0 <= i < |rks|
      ensures SumNat(Counts(Select(rows, rowCol, rks[i]), colCol, Keys(rows, colCol))) == |Select(rows, rowCol, rks[i])|
    {
      CountsPartition(Select(rows, rowCol, rks[i]), colCol, Keys(rows, colCol));
    }
  }
}
