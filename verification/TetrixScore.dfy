/** The five-pass board score: heights, total height, holes, bumpiness, wells,
    and their overflow-checked combination. */
module TetrixScore {
  import opened TetrixField

  // ----- columns, top row first -----

  /** Height of column `c`: rows from its topmost block down. */
  function Height(f: seq<Row>, c: nat): (h: nat)
    requires Wide(f) && c < COLS
    ensures h <= |f|
  {
    if f == [] then 0 else if f[0][c] != 0 then |f| else Height(f[1..], c)
  }

  /** Empty cells of column `c`. */
  function Gaps(f: seq<Row>, c: nat): (n: nat)
    requires Wide(f) && c < COLS
    ensures n <= |f|
  {
    if f == [] then 0 else One(f[0][c] == 0) + Gaps(f[1..], c)
  }

  /** Empty cells of column `c` below its topmost block. */
  function Holes(f: seq<Row>, c: nat): (n: nat)
    requires Wide(f) && c < COLS
    ensures n <= |f| && (f != [] ==> n < |f|)
  {
    if f == [] then 0 else if f[0][c] != 0 then Gaps(f[1..], c) else Holes(f[1..], c)
  }

  function ColumnFilled(f: seq<Row>, c: nat): nat
    requires Wide(f) && c < COLS
  {
    if f == [] then 0 else One(f[0][c] != 0) + ColumnFilled(f[1..], c)
  }

  lemma {:induction false} FilledAndGaps(f: seq<Row>, c: nat)
    requires Wide(f) && c < COLS
    ensures ColumnFilled(f, c) + Gaps(f, c) == |f|
  {
    if f != [] {
      FilledAndGaps(f[1..], c);
    }
  }

  /** A column is as high as its blocks and its holes together. */
  lemma {:induction false} HeightSplits(f: seq<Row>, c: nat)
    requires Wide(f) && c < COLS
    ensures Height(f, c) == ColumnFilled(f, c) + Holes(f, c)
  {
    if f != [] {
      FilledAndGaps(f[1..], c);
      HeightSplits(f[1..], c);
    }
  }

  /** Holes are the gaps strictly below the topmost block. */
  lemma {:induction false} HolesBelowTop(f: seq<Row>, c: nat)
    requires Wide(f) && c < COLS
    ensures Height(f, c) == 0 ==> Holes(f, c) == 0
    ensures Height(f, c) > 0 ==> Holes(f, c) == Gaps(f[|f| - Height(f, c) + 1..], c)
  {
    if f != [] && f[0][c] == 0 {
      HolesBelowTop(f[1..], c);
      var h := Height(f, c);
      if h > 0 {
        assert f[1..][|f| - 1 - h + 1..] == f[|f| - h + 1..];
      }
    }
  }

  // ----- sums over columns -----

  function Sum(s: seq<int>): int {
    if s == [] then 0 else Sum(s[..|s| - 1]) + s[|s| - 1]
  }

  function Heights(f: seq<Row>): (hs: seq<int>)
    requires Wide(f)
    ensures |hs| == COLS && forall c | 0 <= c < COLS :: hs[c] == Height(f, c)
  {
    seq(COLS, c requires 0 <= c < COLS => Height(f, c))
  }

  function HolesTo(f: seq<Row>, n: nat): nat
    requires Wide(f) && n <= COLS
  {
    if n == 0 then 0 else HolesTo(f, n - 1) + Holes(f, n - 1)
  }

  function FilledTo(f: seq<Row>, n: nat): nat
    requires Wide(f) && n <= COLS
  {
    if n == 0 then 0 else FilledTo(f, n - 1) + ColumnFilled(f, n - 1)
  }

  lemma {:induction false} HeightsSplit(f: seq<Row>, n: nat)
    requires Wide(f) && n <= COLS
    ensures Sum(Heights(f)[..n]) == FilledTo(f, n) + HolesTo(f, n)
  {
    if n > 0 {
      assert Heights(f)[..n][..n - 1] == Heights(f)[..n - 1];
      HeightsSplit(f, n - 1);
      HeightSplits(f, n - 1);
    }
  }

  lemma {:induction false} RowFilledPush(row: Row, v: int)
    ensures RowFilled(row + [v]) == RowFilled(row) + One(v != 0)
  {
    if row == [] {
      assert row + [v] == [v] && [v][1..] == [];
    } else {
      assert (row + [v])[1..] == row[1..] + [v];
      RowFilledPush(row[1..], v);
    }
  }

  /** Counting by columns, the top row split off. */
  lemma {:induction false} FilledToTop(f: seq<Row>, n: nat)
    requires Wide(f) && f != [] && n <= COLS
    ensures FilledTo(f, n) == RowFilled(f[0][..n]) + FilledTo(f[1..], n)
  {
    if n > 0 {
      FilledToTop(f, n - 1);
      RowFilledPush(f[0][..n - 1], f[0][n - 1]);
      assert f[0][..n] == f[0][..n - 1] + [f[0][n - 1]];
    }
  }

  lemma {:induction false} FilledToNothing(n: nat)
    requires n <= COLS
    ensures FilledTo([], n) == 0
  {
    if n > 0 {
      FilledToNothing(n - 1);
    }
  }

  /** Counting by columns and by rows agrees. */
  lemma {:induction false} FilledByColumns(f: seq<Row>)
    requires Wide(f)
    ensures FilledTo(f, COLS) == Filled(f)
  {
    if f == [] {
      FilledToNothing(COLS);
    } else {
      FilledToTop(f, COLS);
      assert f[0][..COLS] == f[0];
      FilledByColumns(f[1..]);
    }
  }

  /** Total height is blocks plus holes, for every field. */
  lemma TotalHeight(f: seq<Row>)
    requires Wide(f)
    ensures Sum(Heights(f)) == Filled(f) + HolesTo(f, COLS)
  {
    HeightsSplit(f, COLS);
    FilledByColumns(f);
    assert Heights(f)[..COLS] == Heights(f);
  }

  // ----- bumpiness and wells -----

  function Abs(x: int): nat {
    if x < 0 then -x else x
  }

  /** The first `n` steps between neighbours. */
  function Bumps(hs: seq<int>, n: nat): nat
    requires n == 0 || n < |hs|
  {
    if n == 0 then 0 else Bumps(hs, n - 1) + Abs(hs[n - 1] - hs[n])
  }

  function Min(a: int, b: int): int {
    if a < b then a else b
  }

  /** Depth of column `i` below its lower neighbour, walls counting as full height;
      depths under two are no well. */
  function Well(hs: seq<int>, i: nat): (d: nat)
    requires i < |hs|
  {
    var left := if i == 0 then ROWS else hs[i - 1];
    var right := if i == |hs| - 1 then ROWS else hs[i + 1];
    var depth := Min(left, right) - hs[i];
    if depth >= 2 then depth else 0
  }

  function Wells(hs: seq<int>, n: nat): nat
    requires n <= |hs|
  {
    if n == 0 then 0 else Wells(hs, n - 1) + Well(hs, n - 1)
  }

  ghost predicate Levels(hs: seq<int>) {
    forall i | 0 <= i < |hs| :: 0 <= hs[i] <= ROWS
  }

  lemma {:induction false} BumpsBound(hs: seq<int>, n: nat)
    requires Levels(hs) && (n == 0 || n < |hs|)
    ensures Bumps(hs, n) <= ROWS * n
  {
    if n > 0 {
      BumpsBound(hs, n - 1);
    }
  }

  /** Two neighbouring columns are never both wells. */
  lemma WellsNotAdjacent(hs: seq<int>, i: nat)
    requires Levels(hs) && i + 1 < |hs|
    ensures Well(hs, i) == 0 || Well(hs, i + 1) == 0
    ensures Well(hs, i) + Well(hs, i + 1) <= ROWS
  {
  }

  lemma {:induction false} WellsBound(hs: seq<int>, k: nat)
    requires Levels(hs) && 2 * k <= |hs|
    ensures Wells(hs, 2 * k) <= ROWS * k
  {
    if k > 0 {
      WellsBound(hs, k - 1);
      WellsNotAdjacent(hs, 2 * k - 2);
      assert Wells(hs, 2 * k) == Wells(hs, 2 * k - 1) + Well(hs, 2 * k - 1);
      assert Wells(hs, 2 * k - 1) == Wells(hs, 2 * k - 2) + Well(hs, 2 * k - 2);
    }
  }

  lemma {:induction false} SumBound(hs: seq<int>)
    requires Levels(hs)
    ensures 0 <= Sum(hs) <= ROWS * |hs|
  {
    if hs != [] {
      SumBound(hs[..|hs| - 1]);
    }
  }

  lemma {:induction false} HolesBound(f: seq<Row>, n: nat)
    requires Shaped(f) && n <= COLS
    ensures HolesTo(f, n) <= (ROWS - 1) * n
  {
    if n > 0 {
      HolesBound(f, n - 1);
    }
  }

  /** The five features of a field. */
  datatype Features = Features(height: int, holes: int, bumpy: int, wells: int)

  function FeaturesOf(f: seq<Row>): Features
    requires Wide(f)
  {
    Features(Sum(Heights(f)), HolesTo(f, COLS), Bumps(Heights(f), COLS - 1), Wells(Heights(f), COLS))
  }

  lemma FeatureBounds(f: seq<Row>)
    requires Shaped(f)
    ensures var x := FeaturesOf(f);
      0 <= x.height <= 200 && 0 <= x.holes <= 190 && 0 <= x.bumpy <= 180 && 0 <= x.wells <= 100
  {
    var hs := Heights(f);
    SumBound(hs);
    HolesBound(f, COLS);
    BumpsBound(hs, COLS - 1);
    WellsBound(hs, 5);
  }

  // ----- the checked combination -----

  const INT_MIN := -0x8000_0000
  const INT_MAX := 0x7fff_ffff

  datatype Checked = Exact(value: int) | Overflow

  function Fit(x: int): Checked {
    if INT_MIN <= x <= INT_MAX then Exact(x) else Overflow
  }

  /** One more product onto a sum, either operation checked. */
  function AddProduct(sum: Checked, a: int, b: int): Checked {
    if sum.Overflow? || Fit(a * b).Overflow? then Overflow else Fit(sum.value + a * b)
  }

  function Combine(lines: int, x: Features, w: seq<int>): Checked
    requires |w| == 5
  {
    var s0 := Fit(lines * w[0]);
    var s1 := AddProduct(s0, x.height, w[1]);
    var s2 := AddProduct(s1, x.holes, w[2]);
    var s3 := AddProduct(s2, x.bumpy, w[3]);
    AddProduct(s3, x.wells, w[4])
  }

  function WeightedSum(lines: int, x: Features, w: seq<int>): int
    requires |w| == 5
  {
    lines * w[0] + x.height * w[1] + x.holes * w[2] + x.bumpy * w[3] + x.wells * w[4]
  }

  /** Whenever a score comes back it is the exact integer sum. */
  lemma ScoreIsExact(lines: int, x: Features, w: seq<int>)
    requires |w| == 5
    ensures Combine(lines, x, w).Exact? ==> Combine(lines, x, w).value == WeightedSum(lines, x, w)
  {
  }

  /** The greatest magnitude whose 674-fold fits the integer type, 674 being the
      sum of the feature bounds: 4 + 200 + 190 + 180 + 100. */
  const WEIGHT_MAX := 3_186_177

  lemma TimesMonotone(a: nat, b: nat, c: nat)
    requires a <= b
    ensures a * c <= b * c
  {
  }

  lemma ProductBound(a: int, b: int, n: nat)
    requires 0 <= a <= n && -WEIGHT_MAX <= b <= WEIGHT_MAX
    ensures -(n * WEIGHT_MAX) <= a * b <= n * WEIGHT_MAX
  {
    var c: int := Abs(b);
    TimesMonotone(a, n, c);
    TimesMonotone(c, WEIGHT_MAX, n);
    if b < 0 {
      assert b == -c;
    }
  }

  /** The overflow error cannot fire for weights in range. */
  lemma ScoreFits(f: seq<Row>, lines: int, w: seq<int>)
    requires Shaped(f) && |w| == 5 && 0 <= lines <= 4
    requires forall k | 0 <= k < 5 :: -WEIGHT_MAX <= w[k] <= WEIGHT_MAX
    ensures Combine(lines, FeaturesOf(f), w) == Exact(WeightedSum(lines, FeaturesOf(f), w))
  {
    hide FeaturesOf;
    var x := FeaturesOf(f);
    FeatureBounds(f);
    ProductBound(lines, w[0], 4);
    ProductBound(x.height, w[1], 200);
    ProductBound(x.holes, w[2], 190);
    ProductBound(x.bumpy, w[3], 180);
    ProductBound(x.wells, w[4], 100);
  }

  // ----- the passes -----

  /** The field read into a matrix of integers. */
  method ReadCells(rows: seq<array<int>>) returns (cells: seq<Row>)
    requires Sized(rows)
    ensures cells == Cells(rows)
  {
    cells := [];
    var r := 0;
    while r < ROWS
      invariant 0 <= r <= ROWS && cells == Cells(rows)[..r]
    {
      cells := cells + [rows[r][..]];
      r := r + 1;
    }
  }

  method ColumnHeight(f: seq<Row>, c: nat) returns (h: int)
    requires Shaped(f) && c < COLS
    ensures h == Height(f, c)
  {
    h := 0;
    assert f[0..] == f;
    var r := 0;
    while r < ROWS
      invariant 0 <= r <= ROWS && h == 0 && Height(f, c) == Height(f[r..], c)
    {
      assert f[r..][1..] == f[r + 1..];
      if f[r][c] != 0 {
        h := ROWS - r;
        break;
      }
      r := r + 1;
    }
  }

  method ColumnHoles(f: seq<Row>, c: nat, h: int) returns (n: nat)
    requires Shaped(f) && c < COLS && h == Height(f, c)
    ensures n == Holes(f, c)
  {
    n := 0;
    HolesBelowTop(f, c);
    if h > 0 {
      var r := ROWS - h + 1;
      while r < ROWS
        invariant ROWS - h + 1 <= r <= ROWS && n + Gaps(f[r..], c) == Holes(f, c)
      {
        assert f[r..][1..] == f[r + 1..];
        if f[r][c] == 0 {
          n := n + 1;
        }
        r := r + 1;
      }
    }
  }

  method ScoreBoard(rows: seq<array<int>>, lines: int, w: seq<int>) returns (score: Checked)
    requires Sized(rows) && |w| == 5
    ensures score == Combine(lines, FeaturesOf(Cells(rows)), w)
  {
    hide Height, Holes, Combine, Cells;
    var f := ReadCells(rows);
    assert Shaped(f) by { CellsShaped(rows); }
    var hs := new int[COLS];
    var c := 0;
    while c < COLS
      invariant 0 <= c <= COLS && forall k | 0 <= k < c :: hs[k] == Height(f, k)
    {
      hs[c] := ColumnHeight(f, c);
      c := c + 1;
    }
    assert hs[..] == Heights(f);
    var sum, holes, bumpy, wells := 0, 0, 0, 0;
    for k := 0 to COLS
      invariant hs[..] == Heights(f) && sum == Sum(hs[..k])
    {
      assert hs[..k + 1][..k] == hs[..k];
      sum := sum + hs[k];
    }
    assert hs[..COLS] == hs[..];
    for k := 0 to COLS
      invariant hs[..] == Heights(f) && holes == HolesTo(f, k)
    {
      assert hs[k] == hs[..][k];
      var n := ColumnHoles(f, k, hs[k]);
      holes := holes + n;
    }
    for k := 0 to COLS - 1
      invariant hs[..] == Heights(f) && bumpy == Bumps(hs[..], k)
    {
      var d := hs[k] - hs[k + 1];
      if d < 0 {
        d := -d;
      }
      bumpy := bumpy + d;
    }
    for k := 0 to COLS
      invariant hs[..] == Heights(f) && wells == Wells(hs[..], k)
    {
      var left := if k == 0 then ROWS else hs[k - 1];
      var right := if k == COLS - 1 then ROWS else hs[k + 1];
      var side := if left < right then left else right;
      var depth := side - hs[k];
      if depth >= 2 {
        wells := wells + depth;
      }
    }
    score := Combine(lines, Features(sum, holes, bumpy, wells), w);
  }

  lemma CellsShaped(rows: seq<array<int>>)
    requires Sized(rows)
    ensures Shaped(Cells(rows))
  {
  }
}
