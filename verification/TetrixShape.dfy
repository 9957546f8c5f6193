/** The features of the board score, counted on the field: each is the number of
    cells, or of edges between cells, with a property that the picture shows. */
module TetrixShape {
  import opened TetrixField
  import opened TetrixScore

  type Spot = (int, int)   // row from the top, column

  /** Column `c` reaches up to row `r`: there is a block at `r` or above it. */
  ghost predicate Reaches(f: seq<Row>, c: int, r: int)
    requires Wide(f) && 0 <= c < COLS && 0 <= r < |f|
  {
    exists q | 0 <= q <= r :: f[q][c] != 0
  }

  lemma {:induction false} ReachesIff(f: seq<Row>, c: int, r: int)
    requires Wide(f) && 0 <= c < COLS && 0 <= r < |f|
    ensures Reaches(f, c, r) <==> |f| - Height(f, c) <= r
    decreases |f|
  {
    if f[0][c] == 0 {
      if r > 0 {
        ReachesIff(f[1..], c, r - 1);
        assert Reaches(f[1..], c, r - 1) <==> Reaches(f, c, r) by {
          if Reaches(f, c, r) {
            var q :| 0 <= q <= r && f[q][c] != 0;
            assert f[1..][q - 1][c] != 0;
          }
          if Reaches(f[1..], c, r - 1) {
            var q :| 0 <= q <= r - 1 && f[1..][q][c] != 0;
            assert f[q + 1][c] != 0;
          }
        }
      }
    }
  }

  // ----- the cells that the features count -----

  ghost function Spots(): set<Spot> {
    set r, c | 0 <= r < ROWS && 0 <= c < COLS :: (r, c)
  }

  /** Blocks and everything below them. */
  ghost function Covered(f: seq<Row>): set<Spot>
    requires Shaped(f)
  {
    set s | s in Spots() && Reaches(f, s.1, s.0)
  }

  ghost function Blocks(f: seq<Row>): set<Spot>
    requires Shaped(f)
  {
    set s | s in Spots() && f[s.0][s.1] != 0
  }

  /** Empty cells with a block somewhere above them. */
  ghost function Hollow(f: seq<Row>): set<Spot>
    requires Shaped(f)
  {
    set s | s in Spots() && f[s.0][s.1] == 0 && Reaches(f, s.1, s.0)
  }

  /** Edges between a column and its right neighbour of which one side is covered. */
  ghost function Ledges(f: seq<Row>): set<Spot>
    requires Shaped(f)
  {
    set s | s in Spots() && s.1 + 1 < COLS && Reaches(f, s.1, s.0) != Reaches(f, s.1 + 1, s.0)
  }

  /** An open cell between two covered ones; a wall is covered everywhere. */
  ghost predicate InShaft(f: seq<Row>, s: Spot)
    requires Shaped(f)
  {
    && s in Spots() && !Reaches(f, s.1, s.0)
    && (s.1 > 0 ==> Reaches(f, s.1 - 1, s.0))
    && (s.1 + 1 < COLS ==> Reaches(f, s.1 + 1, s.0))
  }

  /** Such cells in columns that have at least two of them. */
  ghost function Shafts(f: seq<Row>): set<Spot>
    requires Shaped(f)
  {
    set s | s in Spots() && InShaft(f, s) && exists t :: InShaft(f, t) && t.1 == s.1 && t.0 != s.0
  }

  // ----- counting by columns -----

  /** The cells from row `lo[c]` to below row `hi[c]` of the first `n` columns. */
  ghost function Region(lo: seq<int>, hi: seq<int>, n: nat): set<Spot>
    requires n <= |lo| && n <= |hi|
  {
    set r, c | 0 <= r < ROWS && 0 <= c < n && lo[c] <= r < hi[c] :: (r, c)
  }

  function Extent(lo: seq<int>, hi: seq<int>, n: nat): int
    requires n <= |lo| && n <= |hi|
  {
    if n == 0 then 0 else Extent(lo, hi, n - 1) + (hi[n - 1] - lo[n - 1])
  }

  ghost function Strip(lo: int, hi: int, c: int): set<Spot> {
    set r | lo <= r < hi :: (r, c)
  }

  lemma {:induction false} StripSize(lo: int, hi: int, c: int)
    requires lo <= hi
    ensures |Strip(lo, hi, c)| == hi - lo
    decreases hi - lo
  {
    if lo < hi {
      StripSize(lo, hi - 1, c);
      assert Strip(lo, hi, c) == Strip(lo, hi - 1, c) + {(hi - 1, c)};
    } else {
      assert Strip(lo, hi, c) == {};
    }
  }

  lemma {:induction false} RegionSize(lo: seq<int>, hi: seq<int>, n: nat)
    requires n <= |lo| && n <= |hi| && forall c | 0 <= c < n :: 0 <= lo[c] <= hi[c] <= ROWS
    ensures |Region(lo, hi, n)| == Extent(lo, hi, n)
  {
    if n == 0 {
      assert Region(lo, hi, n) == {};
    } else {
      var (a, b) := (Region(lo, hi, n - 1), Strip(lo[n - 1], hi[n - 1], n - 1));
      RegionSize(lo, hi, n - 1);
      StripSize(lo[n - 1], hi[n - 1], n - 1);
      assert Region(lo, hi, n) == a + b;
      assert a !! b;
    }
  }

  lemma InRegion(lo: seq<int>, hi: seq<int>, n: nat, s: Spot)
    requires n <= |lo| && n <= |hi| && n <= COLS
    ensures s in Region(lo, hi, n) <==> 0 <= s.0 < ROWS && 0 <= s.1 < n && lo[s.1] <= s.0 < hi[s.1]
  {
  }

  lemma InSpots(s: Spot)
    ensures s in Spots() <==> 0 <= s.0 < ROWS && 0 <= s.1 < COLS
  {
  }

  // ----- total height -----

  lemma {:induction false} HeightExtent(hs: seq<int>, lo: seq<int>, hi: seq<int>, n: nat)
    requires n <= |hs| == |lo| == |hi| && forall c | 0 <= c < |hs| :: lo[c] == ROWS - hs[c] && hi[c] == ROWS
    ensures Extent(lo, hi, n) == Sum(hs[..n])
  {
    if n > 0 {
      HeightExtent(hs, lo, hi, n - 1);
      assert hs[..n][..n - 1] == hs[..n - 1];
    }
  }

  lemma CoveredCount(f: seq<Row>)
    requires Shaped(f)
    ensures |Covered(f)| == FeaturesOf(f).height
  {
    hide Spots, Reaches, Height, Region, Extent;
    var hs := Heights(f);
    var lo := seq(COLS, c requires 0 <= c < COLS => ROWS - hs[c]);
    var hi := seq(COLS, _ => ROWS);
    forall s
      ensures s in Covered(f) <==> s in Region(lo, hi, COLS)
    {
      InSpots(s);
      InRegion(lo, hi, COLS, s);
      if s in Spots() { ReachesIff(f, s.1, s.0); }
    }
    assert Covered(f) == Region(lo, hi, COLS);
    RegionSize(lo, hi, COLS);
    HeightExtent(hs, lo, hi, COLS);
    assert hs[..COLS] == hs;
  }

  // ----- bumpiness -----

  function Max(a: int, b: int): int {
    if a < b then b else a
  }

  lemma {:induction false} BumpExtent(hs: seq<int>, lo: seq<int>, hi: seq<int>, n: nat)
    requires n < |hs| && n <= |lo| == |hi| < |hs|
    requires forall c | 0 <= c < |lo| :: lo[c] == ROWS - Max(hs[c], hs[c + 1]) && hi[c] == ROWS - Min(hs[c], hs[c + 1])
    ensures Extent(lo, hi, n) == Bumps(hs, n)
  {
    if n > 0 {
      BumpExtent(hs, lo, hi, n - 1);
    }
  }

  lemma LedgeCount(f: seq<Row>)
    requires Shaped(f)
    ensures |Ledges(f)| == FeaturesOf(f).bumpy
  {
    hide Spots, Reaches, Height, Region, Extent, Bumps;
    var hs := Heights(f);
    var n := COLS - 1;
    var lo := seq(n, c requires 0 <= c < n => ROWS - Max(hs[c], hs[c + 1]));
    var hi := seq(n, c requires 0 <= c < n => ROWS - Min(hs[c], hs[c + 1]));
    forall s
      ensures s in Ledges(f) <==> s in Region(lo, hi, n)
    {
      InSpots(s);
      InRegion(lo, hi, n, s);
      if s in Spots() && s.1 + 1 < COLS {
        ReachesIff(f, s.1, s.0);
        ReachesIff(f, s.1 + 1, s.0);
      }
    }
    assert Ledges(f) == Region(lo, hi, n);
    RegionSize(lo, hi, n);
    BumpExtent(hs, lo, hi, n);
  }

  // ----- wells -----

  /** The lower of the two neighbours, a wall being as high as the field. */
  function Side(hs: seq<int>, c: int): int
    requires 0 <= c < |hs|
  {
    Min(if c > 0 then hs[c - 1] else ROWS, if c + 1 < |hs| then hs[c + 1] else ROWS)
  }

  lemma ShaftRows(f: seq<Row>, s: Spot)
    requires Shaped(f)
    ensures InShaft(f, s) <==>
      0 <= s.0 < ROWS && 0 <= s.1 < COLS && ROWS - Side(Heights(f), s.1) <= s.0 < ROWS - Heights(f)[s.1]
  {
    hide Spots, Reaches, Height;
    InSpots(s);
    if s in Spots() {
      ReachesIff(f, s.1, s.0);
      if s.1 > 0 { ReachesIff(f, s.1 - 1, s.0); }
      if s.1 + 1 < COLS { ReachesIff(f, s.1 + 1, s.0); }
    }
  }

  lemma ShaftsIff(f: seq<Row>, s: Spot)
    requires Shaped(f)
    ensures s in Shafts(f) <==>
      && 0 <= s.0 < ROWS && 0 <= s.1 < COLS
      && ROWS - Side(Heights(f), s.1) <= s.0 < ROWS - Heights(f)[s.1]
      && Side(Heights(f), s.1) - Heights(f)[s.1] >= 2
  {
    hide InShaft, Side, Height;
    InSpots(s);
    ShaftRows(f, s);
    if InShaft(f, s) {
      var (a, b) := ((s.0 - 1, s.1), (s.0 + 1, s.1));
      ShaftRows(f, a);
      ShaftRows(f, b);
      SideBound(Heights(f), s.1);
      if Side(Heights(f), s.1) - Heights(f)[s.1] >= 2 {
        assert InShaft(f, a) || InShaft(f, b);
      }
      if exists t :: InShaft(f, t) && t.1 == s.1 && t.0 != s.0 {
        var t :| InShaft(f, t) && t.1 == s.1 && t.0 != s.0;
        ShaftRows(f, t);
      }
    }
  }

  lemma SideBound(hs: seq<int>, c: int)
    requires 0 <= c < |hs| && Levels(hs)
    ensures 0 <= Side(hs, c) <= ROWS
  {
  }

  lemma {:induction false} WellExtent(hs: seq<int>, lo: seq<int>, hi: seq<int>, n: nat)
    requires n <= |hs| == |lo| == |hi|
    requires forall c | 0 <= c < |hs| :: hi[c] - lo[c] == if Side(hs, c) - hs[c] >= 2 then Side(hs, c) - hs[c] else 0
    ensures Extent(lo, hi, n) == Wells(hs, n)
  {
    if n > 0 {
      WellExtent(hs, lo, hi, n - 1);
    }
  }

  lemma ShaftCount(f: seq<Row>)
    requires Shaped(f)
    ensures |Shafts(f)| == FeaturesOf(f).wells
  {
    hide Shafts, Height, Region, Extent, Wells, Side;
    var hs := Heights(f);
    var deep := seq(COLS, c requires 0 <= c < COLS => Side(hs, c) - hs[c] >= 2);
    var lo := seq(COLS, c requires 0 <= c < COLS => if deep[c] then ROWS - Side(hs, c) else 0);
    var hi := seq(COLS, c requires 0 <= c < COLS => if deep[c] then ROWS - hs[c] else 0);
    forall s
      ensures s in Shafts(f) <==> s in Region(lo, hi, COLS)
    {
      ShaftsIff(f, s);
      InRegion(lo, hi, COLS, s);
    }
    assert Shafts(f) == Region(lo, hi, COLS);
    forall c | 0 <= c < COLS
      ensures 0 <= lo[c] <= hi[c] <= ROWS
    {
      SideBound(hs, c);
    }
    RegionSize(lo, hi, COLS);
    WellExtent(hs, lo, hi, COLS);
  }

  // ----- holes -----

  function BlocksAbove(f: seq<Row>, c: int, n: nat): nat
    requires Wide(f) && 0 <= c < COLS && n <= |f|
  {
    if n == 0 then 0 else BlocksAbove(f, c, n - 1) + One(f[n - 1][c] != 0)
  }

  lemma {:induction false} BlocksAboveIs(f: seq<Row>, c: int, n: nat)
    requires Wide(f) && 0 <= c < COLS && n <= |f|
    ensures BlocksAbove(f, c, n) + ColumnFilled(f[n..], c) == ColumnFilled(f, c)
  {
    if n > 0 {
      BlocksAboveIs(f, c, n - 1);
      assert f[n - 1..][1..] == f[n..];
    } else {
      assert f[0..] == f;
    }
  }

  ghost function BlocksIn(f: seq<Row>, c: int, n: nat): set<Spot>
    requires Wide(f) && 0 <= c < COLS && n <= |f|
  {
    set r | 0 <= r < n && f[r][c] != 0 :: (r, c)
  }

  lemma {:induction false} BlocksInSize(f: seq<Row>, c: int, n: nat)
    requires Wide(f) && 0 <= c < COLS && n <= |f|
    ensures |BlocksIn(f, c, n)| == BlocksAbove(f, c, n)
  {
    if n == 0 {
      assert BlocksIn(f, c, n) == {};
    } else {
      BlocksInSize(f, c, n - 1);
      var front := BlocksIn(f, c, n - 1);
      if f[n - 1][c] != 0 {
        assert BlocksIn(f, c, n) == front + {(n - 1, c)};
      } else {
        assert BlocksIn(f, c, n) == front;
      }
    }
  }

  ghost function BlocksTo(f: seq<Row>, n: nat): set<Spot>
    requires Shaped(f) && n <= COLS
  {
    set s | s in Spots() && s.1 < n && f[s.0][s.1] != 0
  }

  lemma {:induction false} BlocksToSize(f: seq<Row>, n: nat)
    requires Shaped(f) && n <= COLS
    ensures |BlocksTo(f, n)| == FilledTo(f, n)
  {
    if n == 0 {
      assert BlocksTo(f, n) == {};
    } else {
      BlocksToSize(f, n - 1);
      BlocksInSize(f, n - 1, ROWS);
      BlocksAboveIs(f, n - 1, ROWS);
      assert f[ROWS..] == [];
      var (a, b) := (BlocksTo(f, n - 1), BlocksIn(f, n - 1, ROWS));
      assert BlocksTo(f, n) == a + b;
      assert a !! b;
    }
  }

  lemma BlockCount(f: seq<Row>)
    requires Shaped(f)
    ensures |Blocks(f)| == Filled(f)
  {
    BlocksToSize(f, COLS);
    FilledByColumns(f);
    assert Blocks(f) == BlocksTo(f, COLS);
  }

  lemma HollowCount(f: seq<Row>)
    requires Shaped(f)
    ensures |Hollow(f)| == FeaturesOf(f).holes
  {
    hide Spots, Height;
    CoveredCount(f);
    BlockCount(f);
    TotalHeight(f);
    forall s | s in Blocks(f)
      ensures s in Covered(f)
    {
      InSpots(s);
      assert f[s.0][s.1] != 0;
    }
    assert Covered(f) == Blocks(f) + Hollow(f);
    assert Blocks(f) !! Hollow(f);
  }

  // ----- the score -----

  const LEAST := -0x8000_0000
  const GREATEST := 0x7fff_ffff

  predicate Fits(x: int) {
    LEAST <= x <= GREATEST
  }

  /** Every term and every partial sum of the first `n` terms fits. */
  ghost predicate AllFit(t: seq<int>, n: nat)
    requires n <= |t|
  {
    forall k | 0 <= k < n :: Fits(t[k]) && Fits(Sum(t[..k + 1]))
  }

  /** What is summed up, term by term. */
  ghost function Terms(f: seq<Row>, lines: int, w: seq<int>): seq<int>
    requires Shaped(f) && |w| == 5
  {
    [lines * w[0], |Covered(f)| * w[1], |Hollow(f)| * w[2], |Ledges(f)| * w[3], |Shafts(f)| * w[4]]
  }

  /** The score of a field: the weighted sum of what is counted on it, if every term
      and every partial sum fits the integer type, and an overflow otherwise. */
  lemma ScoreMeaning(f: seq<Row>, lines: int, w: seq<int>)
    requires Shaped(f) && |w| == 5
    ensures var (x, t) := (Combine(lines, FeaturesOf(f), w), Terms(f, lines, w));
      x == if AllFit(t, 5) then Exact(Sum(t)) else Overflow
  {
    hide Covered, Hollow, Ledges, Shafts, FeaturesOf, Sum, Combine, AllFit;
    CoveredCount(f);
    HollowCount(f);
    LedgeCount(f);
    ShaftCount(f);
    CombineIs(lines, FeaturesOf(f), w, Terms(f, lines, w));
  }

  /** The terms summed up from the left, each sum checked. */
  function Totalled(t: seq<int>, n: nat): Checked
    requires 0 < n <= |t|
  {
    if n == 1 then Fit(t[0])
    else
      var s := Totalled(t, n - 1);
      if s.Overflow? || Fit(t[n - 1]).Overflow? then Overflow else Fit(s.value + t[n - 1])
  }

  lemma {:induction false} TotalledIs(t: seq<int>, n: nat)
    requires 0 < n <= |t|
    ensures Totalled(t, n) == if AllFit(t, n) then Exact(Sum(t[..n])) else Overflow
  {
    SumOne(t, n);
    hide Sum;
    if n == 1 {
      assert Sum(t[..0]) == 0 by { SumNothing(t); }
      assert AllFit(t, 1) <==> Fits(t[0]) && Fits(Sum(t[..0 + 1]));
    } else {
      TotalledIs(t, n - 1);
      assert AllFit(t, n) <==> AllFit(t, n - 1) && Fits(t[n - 1]) && Fits(Sum(t[..n - 1 + 1]));
    }
  }

  lemma SumNothing(t: seq<int>)
    ensures Sum(t[..0]) == 0
  {
  }

  lemma CombineIs(lines: int, x: Features, w: seq<int>, t: seq<int>)
    requires |w| == 5 && t == [lines * w[0], x.height * w[1], x.holes * w[2], x.bumpy * w[3], x.wells * w[4]]
    ensures Combine(lines, x, w) == if AllFit(t, 5) then Exact(Sum(t)) else Overflow
  {
    hide Sum, AllFit, Fit, Totalled;
    TotalledIs(t, 5);
    assert t[..5] == t;
    TotalledFirst(t);
    TotalledNext(t, 2);
    TotalledNext(t, 3);
    TotalledNext(t, 4);
    TotalledNext(t, 5);
  }

  lemma TotalledFirst(t: seq<int>)
    requires |t| > 0
    ensures Totalled(t, 1) == Fit(t[0])
  {
  }

  lemma TotalledNext(t: seq<int>, n: nat)
    requires 1 < n <= |t|
    ensures Totalled(t, n) ==
      var s := Totalled(t, n - 1);
      if s.Overflow? || Fit(t[n - 1]).Overflow? then Overflow else Fit(s.value + t[n - 1])
  {
  }

  lemma SumOne(t: seq<int>, n: nat)
    requires 0 < n <= |t|
    ensures Sum(t[..n]) == Sum(t[..n - 1]) + t[n - 1]
  {
    assert t[..n][..n - 1] == t[..n - 1];
  }
}
