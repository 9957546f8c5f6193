/** Pieces on the field: collision, merging, and the ghost row of a drop. */
module TetrixPiece {
  import opened TetrixField

  datatype Offset = Offset(dr: int, dc: int)

  predicate InField(r: int, c: int) {
    0 <= r < ROWS && 0 <= c < COLS
  }

  /** The cell at (r, c) stops a piece: outside the field, or occupied. */
  predicate Stops(f: seq<Row>, r: int, c: int)
    requires |f| == ROWS && Wide(f)
  {
    !InField(r, c) || f[r][c] != 0
  }

  ghost predicate Collides(f: seq<Row>, shape: seq<Offset>, py: int, px: int)
    requires Shaped(f)
  {
    exists k | 0 <= k < |shape| :: Stops(f, py + shape[k].dr, px + shape[k].dc)
  }

  method Hit(rows: seq<array<int>>, r: int, c: int) returns (hit: bool)
    requires Sized(rows)
    ensures hit == Stops(Cells(rows), r, c)
  {
    if r < 0 || r >= ROWS || c < 0 || c >= COLS {
      hit := true;
    } else {
      hit := rows[r][c] != 0;
    }
  }

  method PieceCollides(rows: seq<array<int>>, shape: seq<Offset>, py: int, px: int) returns (hit: bool)
    requires Sized(rows)
    ensures hit <==> Collides(Cells(rows), shape, py, px)
    ensures hit <==> exists k | 0 <= k < |shape| ::
      var (r, c) := (py + shape[k].dr, px + shape[k].dc);
      r < 0 || r >= 20 || c < 0 || c >= 10 || rows[r][c] != 0
  {
    assert forall r, c | 0 <= r < 20 && 0 <= c < 10 :: Cells(rows)[r][c] == rows[r][c];
    hit := false;
    var k := 0;
    while k < |shape| && !hit
      invariant 0 <= k <= |shape|
      invariant hit ==> Collides(Cells(rows), shape, py, px)
      invariant !hit ==> forall j | 0 <= j < k :: !Stops(Cells(rows), py + shape[j].dr, px + shape[j].dc)
    {
      hit := Hit(rows, py + shape[k].dr, px + shape[k].dc);
      k := k + 1;
    }
  }

  // ----- merging -----

  /** One cell written, if it lies in the field. */
  function Put(f: seq<Row>, r: int, c: int, color: int): (g: seq<Row>)
    requires |f| == ROWS && Wide(f)
    ensures |g| == ROWS && Wide(g)
  {
    if InField(r, c) then f[r := f[r][c := color]] else f
  }

  function Merge(f: seq<Row>, shape: seq<Offset>, color: int, py: int, px: int): (g: seq<Row>)
    requires |f| == ROWS && Wide(f)
    ensures |g| == ROWS && Wide(g)
    decreases |shape|
  {
    if shape == [] then f
    else
      var n := |shape| - 1;
      Put(Merge(f, shape[..n], color, py, px), py + shape[n].dr, px + shape[n].dc, color)
  }

  /** The piece's cells after the offset. */
  ghost predicate Occupies(shape: seq<Offset>, py: int, px: int, r: int, c: int) {
    Offset(r - py, c - px) in shape
  }

  /** Merging paints the piece's cells inside the field, and no other. */
  lemma {:induction false} MergeCells(f: seq<Row>, shape: seq<Offset>, color: int, py: int, px: int, r: int, c: int)
    requires Shaped(f) && InField(r, c)
    ensures Merge(f, shape, color, py, px)[r][c] == if Occupies(shape, py, px, r, c) then color else f[r][c]
    decreases |shape|
  {
    if shape != [] {
      var n := |shape| - 1;
      MergeCells(f, shape[..n], color, py, px, r, c);
      assert shape == shape[..n] + [shape[n]];
      assert shape[n] == Offset(r - py, c - px) <==> py + shape[n].dr == r && px + shape[n].dc == c;
    }
  }

  method PutCell(rows: seq<array<int>>, r: int, c: int, color: int)
    requires Apart(rows)
    modifies rows
    ensures Cells(rows) == Put(old(Cells(rows)), r, c, color)
  {
    ghost var was := Cells(rows);
    if r >= 0 && r < ROWS && c >= 0 && c < COLS {
      rows[r][c] := color;
      OneRowWritten(rows, was, r);
    }
  }

  method PieceMerge(rows: seq<array<int>>, shape: seq<Offset>, color: int, py: int, px: int)
    requires Apart(rows)
    modifies rows
    ensures Cells(rows) == Merge(old(Cells(rows)), shape, color, py, px)
  {
    hide Put, Cells;
    ghost var was := Cells(rows);
    MergeNothing(was, color, py, px);
    var k := 0;
    while k < |shape|
      invariant 0 <= k <= |shape|
      invariant Cells(rows) == Merge(was, shape[..k], color, py, px)
    {
      PutCell(rows, py + shape[k].dr, px + shape[k].dc, color);
      assert shape[..k + 1][..k] == shape[..k];
      k := k + 1;
    }
    assert shape[..k] == shape;
  }

  lemma MergeNothing(f: seq<Row>, color: int, py: int, px: int)
    requires Shaped(f)
    ensures Merge(f, [], color, py, px) == f
  {
  }

  // ----- counting what a merge adds -----

  lemma PutCounts(f: seq<Row>, r: int, c: int, color: int)
    requires Shaped(f) && color != 0 && !Stops(f, r, c)
    ensures Filled(Put(f, r, c, color)) == Filled(f) + 1
    ensures FullCount(Put(f, r, c, color)) <= FullCount(f) + 1
  {
    ReplaceRow(f, r, f[r][c := color]);
    ReplaceCell(f[r], c, color);
  }

  ghost predicate DistinctCells(shape: seq<Offset>) {
    forall a, b | 0 <= a < b < |shape| :: shape[a] != shape[b]
  }

  /** A piece of distinct cells that fits adds its cells, and completes at most
      one row per cell. */
  lemma {:induction false} MergeCounts(f: seq<Row>, shape: seq<Offset>, color: int, py: int, px: int)
    requires Shaped(f) && color != 0 && DistinctCells(shape) && !Collides(f, shape, py, px)
    ensures Filled(Merge(f, shape, color, py, px)) == Filled(f) + |shape|
    ensures FullCount(Merge(f, shape, color, py, px)) <= FullCount(f) + |shape|
    decreases |shape|
  {
    hide Filled, FullCount, Put;
    if shape != [] {
      var n := |shape| - 1;
      var front := shape[..n];
      var (r, c) := (py + shape[n].dr, px + shape[n].dc);
      assert !Stops(f, r, c);
      assert forall k | 0 <= k < n :: front[k] == shape[k];
      MergeCounts(f, front, color, py, px);
      MergeCells(f, front, color, py, px, r, c);
      assert Offset(r - py, c - px) == shape[n];
      PutCounts(Merge(f, front, color, py, px), r, c, color);
    }
  }

  // ----- the ghost row -----

  /** Dropping from `row` one row at a time until the next collides or the cap is met. */
  ghost function Ghost(f: seq<Row>, shape: seq<Offset>, row: int, px: int): (g: int)
    requires Shaped(f)
    decreases ROWS - row
  {
    if row < ROWS && !Collides(f, shape, row + 1, px) then Ghost(f, shape, row + 1, px) else row
  }

  method GhostRow(rows: seq<array<int>>, shape: seq<Offset>, py: int, px: int) returns (g: int)
    requires Sized(rows)
    ensures g == Ghost(Cells(rows), shape, py, px)
  {
    hide Collides;
    g := py;
    while g < ROWS
      invariant Ghost(Cells(rows), shape, py, px) == Ghost(Cells(rows), shape, g, px)
      decreases ROWS - g
    {
      var hit := PieceCollides(rows, shape, g + 1, px);
      if hit {
        break;
      }
      g := g + 1;
    }
  }

  /** Every row passed is free, and the drop ends at an obstruction or at the cap. */
  lemma {:induction false} GhostStops(f: seq<Row>, shape: seq<Offset>, py: int, px: int)
    requires Shaped(f)
    ensures var g := Ghost(f, shape, py, px);
      && py <= g && (py < ROWS ==> g <= ROWS) && (py >= ROWS ==> g == py)
      && (forall r | py < r <= g :: !Collides(f, shape, r, px))
      && (g < ROWS ==> Collides(f, shape, g + 1, px))
    decreases ROWS - py
  {
    hide Collides;
    if py < ROWS && !Collides(f, shape, py + 1, px) {
      GhostStops(f, shape, py + 1, px);
    }
  }

  /** A row deep enough for cell 0 of the piece to be below the field. */
  lemma BelowField(f: seq<Row>, shape: seq<Offset>, row: int, px: int)
    requires Shaped(f) && |shape| > 0 && row + shape[0].dr >= ROWS
    ensures Collides(f, shape, row, px)
  {
    assert Stops(f, row + shape[0].dr, px + shape[0].dc);
  }

  /** The same drop with no cap. */
  ghost function Drop(f: seq<Row>, shape: seq<Offset>, row: int, px: int): (g: int)
    requires Shaped(f) && |shape| > 0
    decreases ROWS - shape[0].dr - row
  {
    if Collides(f, shape, row + 1, px) then row
    else
      assert row + 1 + shape[0].dr < ROWS by {
        if row + 1 + shape[0].dr >= ROWS { BelowField(f, shape, row + 1, px); }
      }
      Drop(f, shape, row + 1, px)
  }

  /** The cap cuts the uncapped answer off at row 20, or at the start if that is lower. */
  lemma {:induction false} GhostIsCappedDrop(f: seq<Row>, shape: seq<Offset>, py: int, px: int)
    requires Shaped(f) && |shape| > 0
    ensures var u := Drop(f, shape, py, px);
      var cap := if py < ROWS then ROWS else py;
      Ghost(f, shape, py, px) == if u <= cap then u else cap
    ensures Drop(f, shape, py, px) >= py
    decreases ROWS - shape[0].dr - py
  {
    hide Collides;
    if !Collides(f, shape, py + 1, px) {
      if py + 1 + shape[0].dr >= ROWS { BelowField(f, shape, py + 1, px); }
      GhostIsCappedDrop(f, shape, py + 1, px);
    }
  }

  /** The cap changes nothing exactly if some row from the start to one past the
      cap collides. */
  lemma CapDecidesNothingIff(f: seq<Row>, shape: seq<Offset>, py: int, px: int)
    requires Shaped(f) && |shape| > 0
    ensures Ghost(f, shape, py, px) == Drop(f, shape, py, px) <==>
      exists r | py < r <= (if py < ROWS then ROWS else py) + 1 :: Collides(f, shape, r, px)
  {
    hide Collides, Ghost;
    var cap := if py < ROWS then ROWS else py;
    GhostIsCappedDrop(f, shape, py, px);
    DropStops(f, shape, py, px);
    var u := Drop(f, shape, py, px);
    if u <= cap {
      assert Collides(f, shape, u + 1, px);
    }
  }

  /** The uncapped drop ends right before the first row that collides. */
  lemma {:induction false} DropStops(f: seq<Row>, shape: seq<Offset>, py: int, px: int)
    requires Shaped(f) && |shape| > 0
    ensures var u := Drop(f, shape, py, px);
      py <= u && Collides(f, shape, u + 1, px) && forall r | py < r <= u :: !Collides(f, shape, r, px)
    decreases ROWS - shape[0].dr - py
  {
    hide Collides;
    if !Collides(f, shape, py + 1, px) {
      if py + 1 + shape[0].dr >= ROWS { BelowField(f, shape, py + 1, px); }
      DropStops(f, shape, py + 1, px);
    }
  }

  /** With a cell at or below the anchor row and a start inside the field, the
      cap never decides: the answer is the uncapped one and a collision follows. */
  lemma CapNeverDecides(f: seq<Row>, shape: seq<Offset>, py: int, px: int, k: nat)
    requires Shaped(f) && k < |shape| && shape[k].dr >= 0 && py < ROWS
    ensures var g := Ghost(f, shape, py, px);
      g == Drop(f, shape, py, px) && g < ROWS && Collides(f, shape, g + 1, px)
  {
    var g := Ghost(f, shape, py, px);
    GhostStops(f, shape, py, px);
    GhostIsCappedDrop(f, shape, py, px);
    assert Stops(f, ROWS + shape[k].dr, px + shape[k].dc);
    assert Collides(f, shape, ROWS, px);
  }

  /** A piece wholly above its anchor row can fall past row 20; the cap then
      stops it early. */
  lemma CapCanDecide()
    ensures var f := ZeroRows(ROWS);
      var shape := [Offset(-5, 0), Offset(-5, 1), Offset(-5, 2), Offset(-5, 3)];
      Shaped(f) && Ghost(f, shape, 19, 0) == 20 && Drop(f, shape, 19, 0) > 20
  {
    var f := ZeroRows(ROWS);
    var shape := [Offset(-5, 0), Offset(-5, 1), Offset(-5, 2), Offset(-5, 3)];
    assert forall row | 5 <= row < 25 :: !Collides(f, shape, row, 0);
    assert !Collides(f, shape, 20, 0) && !Collides(f, shape, 21, 0) && !Collides(f, shape, 22, 0);
    GhostStops(f, shape, 19, 0);
    assert Drop(f, shape, 19, 0) == Drop(f, shape, 20, 0) == Drop(f, shape, 21, 0);
    GhostIsCappedDrop(f, shape, 21, 0);
  }
}
