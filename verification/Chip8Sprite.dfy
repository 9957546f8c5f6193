/** Sprite drawing: the wrapped cells of a sprite are pairwise distinct, so
    toggling them one by one is toggling a set, and the collision flag speaks
    about the screen as it was before the draw. */
module Chip8Sprite {
  import opened Prelude
  import opened Chip8Machine

  // ----- what a draw covers, said without an order -----

  /** Pixel rows and columns of the sprite that a draw reads. */
  function Height(nyb: nat, hires: bool): nat {
    if nyb == 0 && hires then 16 else nyb
  }

  function Width(nyb: nat, hires: bool): nat {
    if nyb == 0 && hires then 16 else 8
  }

  /** Sprite pixel (row, col) of `m`'s sprite, most significant bit leftmost. */
  ghost predicate PixelSet(m: Machine, op: Ins, row: nat, col: nat)
    requires Shaped(m) && op.nyb < 16 && InMem(m.i, SpriteBytes(op.nyb, m.hires))
    requires row < Height(op.nyb, m.hires) && col < Width(op.nyb, m.hires)
  {
    if op.nyb == 0 && m.hires then Bit(m.mem[m.i + 2 * row + col / 8], 7 - col % 8) else Bit(m.mem[m.i + row], 7 - col)
  }

  ghost predicate Drawable(m: Machine, op: Ins) {
    Shaped(m) && op.x < 16 && op.y < 16 && op.nyb < 16 && InMem(m.i, SpriteBytes(op.nyb, m.hires))
  }

  /** Some set sprite pixel lands on framebuffer cell `p`. */
  ghost predicate Covers(m: Machine, op: Ins, p: nat)
    requires Drawable(m, op)
  {
    exists row: nat, col: nat | row < Height(op.nyb, m.hires) && col < Width(op.nyb, m.hires) ::
      p == CellAt(m.v[op.x] % Cols(m.hires), m.v[op.y] % Rows(m.hires), row, col, m.hires) && PixelSet(m, op, row, col)
  }

  // ----- wrapped cells are distinct -----

  /** Wrapping is injective on a window no larger than the screen. */
  lemma WrapInjective(a: nat, i: nat, j: nat, n: nat)
    requires (n == 32 || n == 64 || n == 128) && a < n && i < n && j < n && (a + i) % n == (a + j) % n
    ensures i == j
  {
    if n == 32 {
      assert (a + i) % 32 == (a + j) % 32;
    } else if n == 64 {
      assert (a + i) % 64 == (a + j) % 64;
    }
  }

  lemma CellInjective(x0: nat, y0: nat, r1: nat, c1: nat, r2: nat, c2: nat, hires: bool)
    requires x0 < Cols(hires) && y0 < Rows(hires)
    requires r1 < Rows(hires) && r2 < Rows(hires) && c1 < Cols(hires) && c2 < Cols(hires)
    requires CellAt(x0, y0, r1, c1, hires) == CellAt(x0, y0, r2, c2, hires)
    ensures r1 == r2 && c1 == c2
  {
    var (w, h) := (Cols(hires), Rows(hires));
    assert (y0 + r1) % h == (y0 + r2) % h && (x0 + c1) % w == (x0 + c2) % w;
    WrapInjective(y0, r1, r2, h);
    WrapInjective(x0, c1, c2, w);
  }

  ghost predicate Distinct(ps: seq<nat>) {
    forall a, b | 0 <= a < b < |ps| :: ps[a] != ps[b]
  }

  lemma DistinctConcat(a: seq<nat>, b: seq<nat>)
    requires Distinct(a) && Distinct(b) && forall p | p in a :: p !in b
    ensures Distinct(a + b)
  {
    var s := a + b;
    forall i, j | 0 <= i < j < |s|
      ensures s[i] != s[j]
    {
      if i < |a| && j >= |a| {
        assert s[i] in a && s[j] == b[j - |a|];
      }
    }
  }

  // ----- the cells of one row -----

  /** Where the cells of a sprite are: on its rows and columns, at set bits. */
  ghost predicate NarrowAt(byte: Byte, x0: nat, y0: nat, row: nat, col: nat, hires: bool, p: nat) {
    exists c: nat | c < col && c < 8 :: p == CellAt(x0, y0, row, c, hires) && Bit(byte, 7 - c)
  }

  lemma {:induction false} NarrowRowCells(byte: Byte, x0: nat, y0: nat, row: nat, col: nat, hires: bool)
    requires col <= 8 && x0 < Cols(hires) && y0 < Rows(hires) && row < Rows(hires)
    ensures var ps := NarrowRow(byte, x0, y0, row, col, hires);
      Distinct(ps) && forall p: nat :: p in ps <==> NarrowAt(byte, x0, y0, row, col, hires, p)
  {
    hide CellAt, Bit;
    if col > 0 {
      var front := NarrowRow(byte, x0, y0, row, col - 1, hires);
      var last := CellAt(x0, y0, row, col - 1, hires);
      NarrowRowCells(byte, x0, y0, row, col - 1, hires);
      forall c: nat | c < col - 1
        ensures CellAt(x0, y0, row, c, hires) != last
      {
        if CellAt(x0, y0, row, c, hires) == last { CellInjective(x0, y0, row, c, row, col - 1, hires); }
      }
      DistinctConcat(front, OneIf(Bit(byte, 7 - (col - 1)), last));
    }
  }

  ghost predicate WideAt(b0: Byte, b1: Byte, x0: nat, y0: nat, row: nat, col: nat, hires: bool, p: nat) {
    exists c: nat | c < 16 && c % 8 < col ::
      p == CellAt(x0, y0, row, c, hires) && Bit(if c < 8 then b0 else b1, 7 - c % 8)
  }

  lemma {:induction false} WideRowCells(b0: Byte, b1: Byte, x0: nat, y0: nat, row: nat, col: nat, hires: bool)
    requires col <= 8 && x0 < Cols(hires) && y0 < Rows(hires) && row < Rows(hires)
    ensures var ps := WideRow(b0, b1, x0, y0, row, col, hires);
      Distinct(ps) && forall p: nat :: p in ps <==> WideAt(b0, b1, x0, y0, row, col, hires, p)
  {
    hide CellAt, Bit, Rows, Cols;
    if col > 0 {
      var front := WideRow(b0, b1, x0, y0, row, col - 1, hires);
      var l0 := CellAt(x0, y0, row, col - 1, hires);
      var l1 := CellAt(x0, y0, row, col - 1 + 8, hires);
      WideRowCells(b0, b1, x0, y0, row, col - 1, hires);
      forall c: nat | c < 16
        ensures CellAt(x0, y0, row, c, hires) == l0 ==> c == col - 1
        ensures CellAt(x0, y0, row, c, hires) == l1 ==> c == col - 1 + 8
      {
        if CellAt(x0, y0, row, c, hires) == l0 { CellInjective(x0, y0, row, c, row, col - 1, hires); }
        if CellAt(x0, y0, row, c, hires) == l1 { CellInjective(x0, y0, row, c, row, col - 1 + 8, hires); }
      }
      var t0 := OneIf(Bit(b0, 7 - (col - 1)), l0);
      var t1 := OneIf(Bit(b1, 7 - (col - 1)), l1);
      assert (col - 1) % 8 == col - 1 && (col - 1 + 8) % 8 == col - 1;
      DistinctConcat(front, t0);
      DistinctConcat(front + t0, t1);
    }
  }

  // ----- the cells of the whole sprite -----

  ghost predicate NarrowIn(bytes: seq<Byte>, x0: nat, y0: nat, rows: nat, hires: bool, p: nat)
    requires rows <= |bytes|
  {
    exists row: nat | row < rows :: NarrowAt(bytes[row], x0, y0, row, 8, hires, p)
  }

  lemma RowsApart(x0: nat, y0: nat, r1: nat, r2: nat, c1: nat, c2: nat, hires: bool)
    requires x0 < Cols(hires) && y0 < Rows(hires) && r1 < r2 < Rows(hires) && c1 < 16 && c2 < 16
    ensures CellAt(x0, y0, r1, c1, hires) != CellAt(x0, y0, r2, c2, hires)
  {
    hide CellAt;
    if CellAt(x0, y0, r1, c1, hires) == CellAt(x0, y0, r2, c2, hires) {
      CellInjective(x0, y0, r1, c1, r2, c2, hires);
    }
  }

  lemma NarrowApart(bytes: seq<Byte>, x0: nat, y0: nat, rows: nat, hires: bool, p: nat)
    requires 0 < rows <= |bytes| && rows <= 16 && x0 < Cols(hires) && y0 < Rows(hires)
    requires NarrowIn(bytes, x0, y0, rows - 1, hires, p)
    ensures !NarrowAt(bytes[rows - 1], x0, y0, rows - 1, 8, hires, p)
  {
    hide CellAt, Bit;
    var r: nat :| r < rows - 1 && NarrowAt(bytes[r], x0, y0, r, 8, hires, p);
    var c1: nat :| c1 < 8 && p == CellAt(x0, y0, r, c1, hires);
    var last: nat := rows - 1;
    forall c2: nat | c2 < 8
      ensures p != CellAt(x0, y0, last, c2, hires)
    {
      RowsApart(x0, y0, r, last, c1, c2, hires);
    }
  }

  lemma {:induction false} NarrowSprite(bytes: seq<Byte>, x0: nat, y0: nat, rows: nat, hires: bool)
    requires rows <= |bytes| && rows <= 16 && x0 < Cols(hires) && y0 < Rows(hires)
    ensures var ps := NarrowCells(bytes, x0, y0, rows, hires);
      Distinct(ps) && forall p: nat :: p in ps <==> NarrowIn(bytes, x0, y0, rows, hires, p)
  {
    hide CellAt, Bit, NarrowRow;
    if rows > 0 {
      var front := NarrowCells(bytes, x0, y0, rows - 1, hires);
      var last := NarrowRow(bytes[rows - 1], x0, y0, rows - 1, 8, hires);
      NarrowSprite(bytes, x0, y0, rows - 1, hires);
      NarrowRowCells(bytes[rows - 1], x0, y0, rows - 1, 8, hires);
      forall p: nat | p in front
        ensures p !in last
      {
        NarrowApart(bytes, x0, y0, rows, hires, p);
      }
      DistinctConcat(front, last);
    }
  }

  ghost predicate WideIn(bytes: seq<Byte>, x0: nat, y0: nat, rows: nat, hires: bool, p: nat)
    requires 2 * rows <= |bytes|
  {
    exists row: nat | row < rows :: WideAt(bytes[2 * row], bytes[2 * row + 1], x0, y0, row, 8, hires, p)
  }

  lemma WideApart(bytes: seq<Byte>, x0: nat, y0: nat, rows: nat, hires: bool, p: nat)
    requires 0 < 2 * rows <= |bytes| && rows <= 16 && x0 < Cols(hires) && y0 < Rows(hires)
    requires WideIn(bytes, x0, y0, rows - 1, hires, p)
    ensures !WideAt(bytes[2 * rows - 2], bytes[2 * rows - 1], x0, y0, rows - 1, 8, hires, p)
  {
    hide CellAt, Bit;
    var r: nat :| r < rows - 1 && WideAt(bytes[2 * r], bytes[2 * r + 1], x0, y0, r, 8, hires, p);
    var c1: nat :| c1 < 16 && p == CellAt(x0, y0, r, c1, hires);
    var last: nat := rows - 1;
    forall c2: nat | c2 < 16
      ensures p != CellAt(x0, y0, last, c2, hires)
    {
      RowsApart(x0, y0, r, last, c1, c2, hires);
    }
  }

  lemma WideInNone(bytes: seq<Byte>, x0: nat, y0: nat, hires: bool)
    ensures forall p: nat :: !WideIn(bytes, x0, y0, 0, hires, p)
  {
  }

  /** The last row of a wide sprite, apart from the rows before it. */
  lemma WideInLast(bytes: seq<Byte>, x0: nat, y0: nat, rows: nat, hires: bool, p: nat)
    requires 0 < 2 * rows <= |bytes|
    ensures WideIn(bytes, x0, y0, rows, hires, p) <==>
      WideIn(bytes, x0, y0, rows - 1, hires, p)
      || WideAt(bytes[2 * rows - 2], bytes[2 * rows - 1], x0, y0, rows - 1, 8, hires, p)
  {
    hide WideAt;
    assert bytes[2 * (rows - 1)] == bytes[2 * rows - 2] && bytes[2 * (rows - 1) + 1] == bytes[2 * rows - 1];
    if WideAt(bytes[2 * rows - 2], bytes[2 * rows - 1], x0, y0, rows - 1, 8, hires, p) {
      assert WideAt(bytes[2 * (rows - 1)], bytes[2 * (rows - 1) + 1], x0, y0, rows - 1, 8, hires, p);
    }
  }

  lemma {:induction false} WideSprite(bytes: seq<Byte>, x0: nat, y0: nat, rows: nat, hires: bool)
    requires 2 * rows <= |bytes| && rows <= 16 && x0 < Cols(hires) && y0 < Rows(hires)
    ensures var ps := WideCells(bytes, x0, y0, rows, hires);
      Distinct(ps) && forall p: nat :: p in ps <==> WideIn(bytes, x0, y0, rows, hires, p)
  {
    hide CellAt, Bit, WideRow, WideAt, WideIn;
    assert rows == 0 ==> forall p: nat :: !WideIn(bytes, x0, y0, 0, hires, p) by { WideInNone(bytes, x0, y0, hires); }
    if rows > 0 {
      var front := WideCells(bytes, x0, y0, rows - 1, hires);
      var last := WideRow(bytes[2 * rows - 2], bytes[2 * rows - 1], x0, y0, rows - 1, 8, hires);
      WideSprite(bytes, x0, y0, rows - 1, hires);
      WideRowCells(bytes[2 * rows - 2], bytes[2 * rows - 1], x0, y0, rows - 1, 8, hires);
      forall p: nat | p in front
        ensures p !in last
      {
        WideApart(bytes, x0, y0, rows, hires, p);
      }
      DistinctConcat(front, last);
      forall p: nat
        ensures p in front + last <==> WideIn(bytes, x0, y0, rows, hires, p)
      {
        WideInLast(bytes, x0, y0, rows, hires, p);
      }
    }
  }

  /** Both modes: the cells toggled are the covered ones, each once. */
  lemma SpriteIsCover(m: Machine, op: Ins)
    requires Drawable(m, op)
    ensures var ps := SpriteCells(m, op);
      Distinct(ps) && forall p: nat :: p in ps <==> Covers(m, op, p)
  {
    hide CellAt, Bit, NarrowCells, WideCells;
    var bytes := m.mem[m.i..m.i + SpriteBytes(op.nyb, m.hires)];
    var x0 := m.v[op.x] % Cols(m.hires);
    var y0 := m.v[op.y] % Rows(m.hires);
    if op.nyb == 0 && m.hires {
      WideSprite(bytes, x0, y0, 16, true);
      forall p: nat
        ensures WideIn(bytes, x0, y0, 16, true, p) <==> Covers(m, op, p)
      {
        WideIsCover(m, op, bytes, x0, y0, p);
      }
    } else {
      NarrowSprite(bytes, x0, y0, op.nyb, m.hires);
      forall p: nat
        ensures NarrowIn(bytes, x0, y0, op.nyb, m.hires, p) <==> Covers(m, op, p)
      {
        NarrowIsCover(m, op, bytes, x0, y0, p);
      }
    }
  }

  lemma NarrowIsCover(m: Machine, op: Ins, bytes: seq<Byte>, x0: nat, y0: nat, p: nat)
    requires Drawable(m, op) && !(op.nyb == 0 && m.hires)
    requires bytes == m.mem[m.i..m.i + op.nyb] && x0 == m.v[op.x] % Cols(m.hires) && y0 == m.v[op.y] % Rows(m.hires)
    ensures NarrowIn(bytes, x0, y0, op.nyb, m.hires, p) <==> Covers(m, op, p)
  {
    hide CellAt, Bit;
    if NarrowIn(bytes, x0, y0, op.nyb, m.hires, p) {
      var row: nat :| row < op.nyb && NarrowAt(bytes[row], x0, y0, row, 8, m.hires, p);
      var c: nat :| c < 8 && p == CellAt(x0, y0, row, c, m.hires) && Bit(bytes[row], 7 - c);
      assert PixelSet(m, op, row, c);
    }
    if Covers(m, op, p) {
      var row: nat, col: nat :| row < op.nyb && col < 8 && p == CellAt(x0, y0, row, col, m.hires) && PixelSet(m, op, row, col);
      assert Bit(bytes[row], 7 - col);
      assert NarrowAt(bytes[row], x0, y0, row, 8, m.hires, p);
    }
  }

  lemma WideIsCover(m: Machine, op: Ins, bytes: seq<Byte>, x0: nat, y0: nat, p: nat)
    requires Drawable(m, op) && op.nyb == 0 && m.hires
    requires bytes == m.mem[m.i..m.i + 32] && x0 == m.v[op.x] % Cols(true) && y0 == m.v[op.y] % Rows(true)
    ensures WideIn(bytes, x0, y0, 16, true, p) <==> Covers(m, op, p)
  {
    hide CellAt, Bit;
    if WideIn(bytes, x0, y0, 16, true, p) {
      var row: nat :| row < 16 && WideAt(bytes[2 * row], bytes[2 * row + 1], x0, y0, row, 8, true, p);
      var c: nat :| c < 16 && p == CellAt(x0, y0, row, c, true)
        && Bit(if c < 8 then bytes[2 * row] else bytes[2 * row + 1], 7 - c % 8);
      assert PixelSet(m, op, row, c);
    }
    if Covers(m, op, p) {
      var row: nat, col: nat :| row < 16 && col < 16 && p == CellAt(x0, y0, row, col, true) && PixelSet(m, op, row, col);
      assert bytes[2 * row + col / 8] == m.mem[m.i + 2 * row + col / 8];
      assert Bit(if col < 8 then bytes[2 * row] else bytes[2 * row + 1], 7 - col % 8);
      assert WideAt(bytes[2 * row], bytes[2 * row + 1], x0, y0, row, 8, true, p);
    }
  }

  // ----- toggling distinct cells -----

  lemma {:induction false} ToggleDistinct(fb: seq<Byte>, ps: seq<nat>)
    requires Distinct(ps) && forall p | p in ps :: p < |fb|
    ensures forall p | 0 <= p < |fb| :: ToggleAll(fb, ps)[p] == if p in ps then Flip(fb[p]) else fb[p]
    ensures AnyHit(fb, ps) <==> exists p | p in ps :: fb[p] == 1
    decreases |ps|
  {
    hide Flip;
    if ps != [] {
      var (front, last) := (ps[..|ps| - 1], ps[|ps| - 1]);
      DistinctSplit(ps);
      ToggleDistinct(fb, front);
      assert ToggleAll(fb, front)[last] == fb[last];
    }
  }

  lemma DistinctSplit(ps: seq<nat>)
    requires Distinct(ps) && ps != []
    ensures var (front, last) := (ps[..|ps| - 1], ps[|ps| - 1]);
      Distinct(front) && last !in front && forall p :: p in ps <==> p in front || p == last
  {
    assert ps == ps[..|ps| - 1] + [ps[|ps| - 1]];
  }

  // ----- the draw instruction -----

  ghost predicate Binary(fb: seq<Byte>) {
    forall p | 0 <= p < |fb| :: fb[p] <= 1
  }

  lemma CoverInScreen(m: Machine, op: Ins, p: nat)
    requires Drawable(m, op) && Covers(m, op, p)
    ensures p < Rows(m.hires) * Cols(m.hires) <= FB_SIZE
  {
  }

  /** A draw toggles exactly the covered cells, all of them on the active screen;
      VF is 1 exactly if a covered cell was lit before the draw. */
  lemma DrawMeaning(m: Machine, op: Ins)
    requires Drawable(m, op)
    ensures var t := Draw(m, op);
      && Shaped(t)
      && (forall p: nat | p < FB_SIZE :: t.fb[p] == if Covers(m, op, p) then Flip(m.fb[p]) else m.fb[p])
      && (forall p: nat | Rows(m.hires) * Cols(m.hires) <= p < FB_SIZE :: t.fb[p] == m.fb[p])
      && t.v[15] <= 1
      && (t.v[15] == 1 <==> exists p: nat | p < FB_SIZE :: Covers(m, op, p) && m.fb[p] == 1)
      && (forall k | 0 <= k < 15 :: t.v[k] == m.v[k])
      && (Binary(m.fb) ==> Binary(t.fb))
      && t == m.(fb := t.fb, v := t.v, dirty := true)
  {
    hide ToggleAll, AnyHit, SpriteCells, Covers;
    var ps := SpriteCells(m, op);
    SpriteIsCover(m, op);
    forall p: nat | Covers(m, op, p)
      ensures p < Rows(m.hires) * Cols(m.hires) <= FB_SIZE
    {
      CoverInScreen(m, op, p);
    }
    ToggleDistinct(m.fb, ps);
  }

  /** Cover depends on the sprite bytes, the mode and the position only. */
  lemma CoverSame(m: Machine, op: Ins, m2: Machine, op2: Ins, p: nat)
    requires Drawable(m, op) && Drawable(m2, op2) && op.nyb == op2.nyb && m.hires == m2.hires
    requires m2.mem == m.mem && m2.i == m.i && m2.v[op2.x] == m.v[op.x] && m2.v[op2.y] == m.v[op.y]
    ensures Covers(m, op, p) == Covers(m2, op2, p)
  {
    hide CellAt, Bit;
    assert forall row: nat, col: nat | row < Height(op.nyb, m.hires) && col < Width(op.nyb, m.hires) ::
      PixelSet(m, op, row, col) == PixelSet(m2, op2, row, col);
  }

  /** Drawing the same sprite at the same position again restores the screen,
      and reports a collision exactly if the sprite had lit some cell. */
  lemma DrawTwice(m: Machine, op: Ins, m2: Machine, op2: Ins)
    requires Drawable(m, op) && Drawable(m2, op2) && op.nyb == op2.nyb && m.hires == m2.hires
    requires m2.mem == m.mem && m2.i == m.i && m2.v[op2.x] == m.v[op.x] && m2.v[op2.y] == m.v[op.y]
    requires m2.fb == Draw(m, op).fb
    ensures Draw(m2, op2).fb == m.fb
    ensures Binary(m.fb) ==> (Draw(m2, op2).v[15] == 1 <==> exists p: nat | p < FB_SIZE :: Covers(m, op, p) && m.fb[p] == 0)
  {
    hide Covers, Draw;
    DrawMeaning(m, op);
    DrawMeaning(m2, op2);
    forall p: nat
      ensures Covers(m, op, p) == Covers(m2, op2, p)
    {
      CoverSame(m, op, m2, op2, p);
    }
    assert Draw(m2, op2).fb == m.fb;
    assert Binary(m.fb) ==> forall p: nat | p < FB_SIZE && Covers(m, op, p) :: m2.fb[p] == 1 <==> m.fb[p] == 0;
  }

  /** The same instruction twice in a row restores the screen unless one of its
      own position registers is VF. */
  lemma DrawInstructionTwice(m: Machine, op: Ins)
    requires Drawable(m, op) && op.x != 15 && op.y != 15
    ensures Drawable(Draw(m, op), op)
    ensures Draw(Draw(m, op), op).fb == m.fb
  {
    hide Covers, Draw;
    DrawMeaning(m, op);
    DrawTwice(m, op, Draw(m, op), op);
  }
}
