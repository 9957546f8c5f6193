/** Whole games: pieces dropped, merged and cleared one after the other. */
module TetrixGame {
  import opened TetrixField
  import opened TetrixPiece

  /** A piece, its colour, and where it enters. */
  datatype Move = Move(shape: seq<Offset>, color: int, py: int, px: int)

  datatype Game = Game(field: seq<Row>, pieces: nat, lines: nat)

  /** Four distinct cells, a visible colour, room at the entry position. */
  ghost predicate Legal(f: seq<Row>, m: Move)
    requires Shaped(f)
  {
    |m.shape| == 4 && DistinctCells(m.shape) && m.color != 0 && !Collides(f, m.shape, m.py, m.px)
  }

  /** The field with the piece come to rest. */
  ghost function Landed(f: seq<Row>, m: Move): (g: seq<Row>)
    requires Shaped(f)
    ensures Shaped(g)
  {
    Merge(f, m.shape, m.color, Ghost(f, m.shape, m.py, m.px), m.px)
  }

  ghost function Play(g: Game, m: Move): (r: Game)
    requires Shaped(g.field)
    ensures Shaped(r.field)
  {
    ClearedShape(Landed(g.field, m));
    Game(Cleared(Landed(g.field, m)), g.pieces + 1, g.lines + FullCount(Landed(g.field, m)))
  }

  function Empty(): (g: Game)
    ensures Shaped(g.field)
  {
    Game(ZeroRows(ROWS), 0, 0)
  }

  /** The game after a sequence of moves. */
  ghost function After(moves: seq<Move>): (g: Game)
    ensures Shaped(g.field)
  {
    if moves == [] then Empty() else Play(After(moves[..|moves| - 1]), moves[|moves| - 1])
  }

  ghost predicate LegalRun(moves: seq<Move>) {
    moves != [] ==> LegalRun(moves[..|moves| - 1]) && Legal(After(moves[..|moves| - 1]).field, moves[|moves| - 1])
  }

  /** What every game state keeps. */
  ghost predicate Balanced(g: Game) {
    && Shaped(g.field)
    && Filled(g.field) == 4 * g.pieces - COLS * g.lines
    && (forall r | 0 <= r < ROWS :: !Full(g.field[r]))
  }

  /** A legal piece rests where it fits. */
  lemma RestsFree(f: seq<Row>, m: Move)
    requires Shaped(f) && Legal(f, m)
    ensures !Collides(f, m.shape, Ghost(f, m.shape, m.py, m.px), m.px)
  {
    hide Collides;
    GhostStops(f, m.shape, m.py, m.px);
  }

  /** `g` is where a piece comes to rest: it fits there and everywhere on the way, and
      not one row lower, unless that is below row 20. */
  ghost predicate RestsAt(f: seq<Row>, m: Move, g: int)
    requires Shaped(f)
  {
    && m.py <= g && (forall r | m.py <= r <= g :: !Collides(f, m.shape, r, m.px))
    && (Collides(f, m.shape, g + 1, m.px) || g >= 20) && (g > 20 ==> g == m.py)
  }

  /** A legal piece is painted where it comes to rest, and nothing else changes. */
  lemma PieceRests(f: seq<Row>, m: Move)
    requires Shaped(f) && Legal(f, m)
    ensures exists g :: RestsAt(f, m, g) && forall r, c | 0 <= r < 20 && 0 <= c < 10 ::
      Landed(f, m)[r][c] == if Offset(r - g, c - m.px) in m.shape then m.color else f[r][c]
  {
    hide Collides, Merge, DistinctCells;
    var g := Ghost(f, m.shape, m.py, m.px);
    GhostStops(f, m.shape, m.py, m.px);
    assert RestsAt(f, m, g);
    forall r, c | 0 <= r < 20 && 0 <= c < 10
      ensures Landed(f, m)[r][c] == if Offset(r - g, c - m.px) in m.shape then m.color else f[r][c]
    {
      MergeCells(f, m.shape, m.color, g, m.px, r, c);
    }
  }

  lemma PlayBalanced(g: Game, m: Move)
    requires Balanced(g) && Legal(g.field, m)
    ensures Balanced(Play(g, m))
    ensures g.lines <= Play(g, m).lines <= g.lines + 4
  {
    hide Collides, Merge, Filled, FullCount, Ghost, DistinctCells, Cleared, Full;
    var f := g.field;
    var landed := Landed(f, m);
    RestsFree(f, m);
    MergeCounts(f, m.shape, m.color, Ghost(f, m.shape, m.py, m.px), m.px);
    NoneFull(f);
    ClearConserves(landed);
    ClearedShape(landed);
  }

  /** Over every game: cells are conserved, no full row is left, and a piece
      clears at most four rows. */
  lemma {:induction false} GameBalanced(moves: seq<Move>)
    requires LegalRun(moves)
    ensures Balanced(After(moves)) && After(moves).pieces == |moves|
    ensures moves != [] ==> After(moves).lines <= After(moves[..|moves| - 1]).lines + 4
    decreases |moves|
  {
    if moves == [] {
      FilledZeros(ROWS);
      assert ZeroRow()[0] == 0;
    } else {
      var front := moves[..|moves| - 1];
      GameBalanced(front);
      PlayBalanced(After(front), moves[|moves| - 1]);
    }
  }

  /** What a game can reach: the field holds 200 cells, so lines keep pace. */
  lemma LinesKeepPace(moves: seq<Move>)
    requires LegalRun(moves)
    ensures 4 * |moves| - 180 <= COLS * After(moves).lines <= 4 * |moves|
  {
    hide After, Balanced;
    GameBalanced(moves);
    BalancedBounds(After(moves));
  }

  lemma BalancedBounds(g: Game)
    requires Balanced(g)
    ensures 4 * g.pieces - 180 <= COLS * g.lines <= 4 * g.pieces
  {
    NotFullBound(g.field);
  }

  lemma {:induction false} NotFullBound(f: seq<Row>)
    requires Wide(f) && forall r | 0 <= r < |f| :: !Full(f[r])
    ensures Filled(f) <= (COLS - 1) * |f|
  {
    if f != [] {
      FullIsCount(f[0]);
      NotFullBound(f[1..]);
    }
  }

  /** The kernels in sequence play one move on the field in memory, or refuse a
      piece that does not fit where it enters. */
  method PlayMove(rows: seq<array<int>>, m: Move) returns (fits: bool, cleared: nat)
    requires Apart(rows)
    modifies rows
    ensures fits <==> !Collides(old(Cells(rows)), m.shape, m.py, m.px)
    ensures !fits ==> Cells(rows) == old(Cells(rows)) && cleared == 0
    ensures fits ==> Cells(rows) == Cleared(Landed(old(Cells(rows)), m))
    ensures fits ==> cleared == FullCount(Landed(old(Cells(rows)), m))
  {
    hide Collides, Merge, FullCount, Ghost, Cleared, Cells;
    var hit := PieceCollides(rows, m.shape, m.py, m.px);
    if hit {
      return false, 0;
    }
    var row := GhostRow(rows, m.shape, m.py, m.px);
    PieceMerge(rows, m.shape, m.color, row, m.px);
    cleared := ClearRows(rows);
    fits := true;
  }
}
