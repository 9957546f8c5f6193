/** What a draw does to the pixels, and how instructions fit together: laws between
    two of them, whatever the machine. */
module Chip8Laws {
  import opened Prelude
  import opened Chip8Machine
  import opened Chip8Sprite
  import opened Chip8Effects

  // ----- DXYN by rows and columns -----

  /** DXY0 in hi-res mode draws sixteen by sixteen. */
  predicate IsWide(m: Machine, w: nat) {
    w % 16 == 0 && m.hires
  }

  /** Pixel of the sprite at I; the leftmost is the most significant bit. */
  ghost predicate SpriteBit(m: Machine, w: nat, row: nat, col: nat)
    requires |m.mem| == 4096
  {
    var p := m.i + if IsWide(m, w) then 2 * row + col / 8 else row;
    0 <= p < 4096 && m.mem[p] / Pow2(7 - col % 8) % 2 == 1
  }

  /** A set pixel of the sprite falls on row `r` and column `c`, both wrapping
      around the edges. */
  ghost predicate Falls(m: Machine, w: nat, r: nat, c: nat, row: nat, col: nat)
    requires Shaped(m)
  {
    && row < (if IsWide(m, w) then 16 else w % 16) && col < (if IsWide(m, w) then 16 else 8)
    && (m.v[w / 16 % 16] + row) % Tall(m) == r && (m.v[w / 256 % 16] + col) % Broad(m) == c
    && SpriteBit(m, w, row, col)
  }

  ghost predicate Hit(m: Machine, w: nat, r: nat, c: nat)
    requires Shaped(m)
  {
    exists row: nat, col: nat :: Falls(m, w, r, c, row, col)
  }

  lemma Wraps32(a: nat, k: nat)
    ensures (a % 32 + k) % 32 == (a + k) % 32
  {
  }

  lemma Wraps64(a: nat, k: nat)
    ensures (a % 64 + k) % 64 == (a + k) % 64
  {
  }

  lemma Wraps128(a: nat, k: nat)
    ensures (a % 128 + k) % 128 == (a + k) % 128
  {
  }

  lemma Wraps(a: nat, k: nat, n: nat)
    requires n == 32 || n == 64 || n == 128
    ensures (a % n + k) % n == (a + k) % n
  {
    Wraps32(a, k);
    Wraps64(a, k);
    Wraps128(a, k);
  }

  lemma CellMeets(m: Machine, op: Ins, r: nat, c: nat, row: nat, col: nat)
    requires Drawable(m, op) && r < Tall(m) && c < Broad(m)
    ensures
      CellAt(m.v[op.x] % Cols(m.hires), m.v[op.y] % Rows(m.hires), row, col, m.hires) == r * Broad(m) + c
      <==> (m.v[op.y] + row) % Tall(m) == r && (m.v[op.x] + col) % Broad(m) == c
  {
    Wraps(m.v[op.y], row, Tall(m));
    Wraps(m.v[op.x], col, Broad(m));
    Cell(r, c, Broad(m), Tall(m));
    Cell((m.v[op.y] + row) % Tall(m), (m.v[op.x] + col) % Broad(m), Broad(m), Tall(m));
  }

  lemma PixelIs(m: Machine, w: nat, op: Ins, row: nat, col: nat)
    requires Drawable(m, op) && op.nyb == w % 16 && row < Height(op.nyb, m.hires) && col < Width(op.nyb, m.hires)
    ensures PixelSet(m, op, row, col) <==> SpriteBit(m, w, row, col)
  {
    hide Pow2;
  }

  lemma CoversIff(m: Machine, w: nat, op: Ins, r: nat, c: nat)
    requires Drawable(m, op) && op.x == w / 256 % 16 && op.y == w / 16 % 16 && op.nyb == w % 16
    requires r < Tall(m) && c < Broad(m)
    ensures Covers(m, op, r * Broad(m) + c) <==> Hit(m, w, r, c)
  {
    hide CellAt, PixelSet, SpriteBit;
    var p := r * Broad(m) + c;
    if Covers(m, op, p) {
      var row: nat, col: nat :| row < Height(op.nyb, m.hires) && col < Width(op.nyb, m.hires)
        && p == CellAt(m.v[op.x] % Cols(m.hires), m.v[op.y] % Rows(m.hires), row, col, m.hires) && PixelSet(m, op, row, col);
      CellMeets(m, op, r, c, row, col);
      PixelIs(m, w, op, row, col);
      assert Falls(m, w, r, c, row, col);
    }
    if Hit(m, w, r, c) {
      var row: nat, col: nat :| Falls(m, w, r, c, row, col);
      CellMeets(m, op, r, c, row, col);
      PixelIs(m, w, op, row, col);
    }
  }

  /** Drawing over a pixel turns it off or on. */
  function Opposite(b: Byte): Byte {
    if b % 2 == 1 then b - 1 else b + 1
  }

  ghost predicate Lit(m: Machine, w: nat, r: nat, c: nat)
    requires Shaped(m)
  {
    r < Tall(m) && c < Broad(m) && Hit(m, w, r, c) && Pixel(m, r, c) == 1
  }

  lemma DrawReady(m: Machine, w: nat)
    requires Runs(m, w) && w / 4096 == 13
    ensures Drawable(m.(pc := m.pc + 2), Fetch(m))
  {
    FetchWord(m, w);
  }

  lemma HitIgnoresPc(m: Machine, n: Machine, w: nat, r: nat, c: nat)
    requires Shaped(m) && n == m.(pc := m.pc + 2)
    ensures Hit(n, w, r, c) == Hit(m, w, r, c)
  {
    hide Pow2;
    assert forall row: nat, col: nat :: Falls(n, w, r, c, row, col) == Falls(m, w, r, c, row, col);
  }

  /** Some covered cell is lit, found by its row and column. */
  lemma LitIff(m: Machine, n: Machine, op: Ins, w: nat)
    requires Drawable(n, op) && n == m.(pc := m.pc + 2)
    requires forall r: nat, c: nat | r < Tall(m) && c < Broad(m) :: Covers(n, op, At(m, r, c)) <==> Hit(m, w, r, c)
    ensures (exists p: nat | p < FB_SIZE :: Covers(n, op, p) && n.fb[p] == 1) <==> exists r: nat, c: nat :: Lit(m, w, r, c)
  {
    hide Covers, Hit;
    if exists p: nat | p < FB_SIZE :: Covers(n, op, p) && n.fb[p] == 1 {
      var p: nat :| p < FB_SIZE && Covers(n, op, p) && n.fb[p] == 1;
      CoverInScreen(n, op, p);
      var (r, c) := (p / Broad(m), p % Broad(m));
      Place(m, p);
      assert Lit(m, w, r, c);
    }
    if exists r: nat, c: nat :: Lit(m, w, r, c) {
      var r: nat, c: nat :| Lit(m, w, r, c);
      Cell(r, c, Broad(m), Tall(m));
      assert Covers(n, op, At(m, r, c)) && n.fb[At(m, r, c)] == 1;
    }
  }

  lemma Place(m: Machine, p: nat)
    requires p < Tall(m) * Broad(m)
    ensures p / Broad(m) < Tall(m) && p % Broad(m) < Broad(m) && At(m, p / Broad(m), p % Broad(m)) == p
  {
    if m.hires {
      assert p / 128 < 64;
    } else {
      assert p / 64 < 32;
    }
  }

  function At(m: Machine, r: nat, c: nat): nat {
    r * Broad(m) + c
  }

  /** DXYN flips the pixels the sprite falls on and no others; VF says whether one
      of them was lit. */
  lemma DrawEffect(m: Machine, w: nat, rand: nat -> Byte)
    requires Runs(m, w) && w / 4096 == 13
    ensures Step(m, rand).Done? && var t := Step(m, rand).m;
      && |t.fb| == 8192 && |t.v| == 16 && RestKept(m, t)
      && t == m.(pc := m.pc + 2, fb := t.fb, v := m.v[15 := t.v[15]], dirty := true)
      && (forall r: nat, c: nat | r < Tall(m) && c < Broad(m) ::
        Pixel(t, r, c) == if Hit(m, w, r, c) then Opposite(Pixel(m, r, c)) else Pixel(m, r, c))
      && t.v[15] <= 1
      && (t.v[15] == 1 <==> exists r: nat, c: nat :: Lit(m, w, r, c))
  {
    hide Deferred, LeftOver, Sys, Alu, Misc, Draw, Covers, Hit, Lit;
    StepRuns(m, w, rand);
    var (n, op) := (m.(pc := m.pc + 2), Fetch(m));
    DrawReady(m, w);
    DrawMeaning(n, op);
    forall r: nat, c: nat | r < Tall(m) && c < Broad(m)
      ensures At(m, r, c) < 8192 && (Covers(n, op, At(m, r, c)) <==> Hit(m, w, r, c))
    {
      Cell(r, c, Broad(m), Tall(m));
      CoversIff(n, w, op, r, c);
      HitIgnoresPc(m, n, w, r, c);
    }
    LitIff(m, n, op, w);
  }

  // ----- laws -----

  /** What VX was set to by 6XNN, 3XNN finds there and 4XNN does not miss. */
  lemma SetThenCompare(m: Machine, w: nat, t: Machine, u: nat, rand: nat -> Byte)
    requires Runs(m, w) && w / 4096 == 6 && Step(m, rand) == Done(t)
    requires Runs(t, u) && u / 4096 in {3, 4} && u % 4096 == w % 4096
    ensures Step(t, rand) == Done(t.(pc := if u / 4096 == 3 then t.pc + 4 else t.pc + 2))
  {
    hide Step, LeftOver;
    LoadEffect(m, w, rand);
    SkipEffect(t, u, rand);
    SameFields(w, u);
  }

  lemma SameFields(w: nat, u: nat)
    requires u % 4096 == w % 4096
    ensures u / 256 % 16 == w / 256 % 16 && u % 256 == w % 256 && u / 16 % 16 == w / 16 % 16 && u % 16 == w % 16
  {
    Fields(w / 4096, w % 4096);
    Fields(u / 4096, u % 4096);
  }

  /** The low three nibbles depend on the low twelve bits. */
  lemma Fields(q: nat, r: nat)
    requires r < 4096
    ensures var w := 4096 * q + r; w / 256 % 16 == r / 256 && w % 256 == r % 256 && w / 16 % 16 == r / 16 % 16 && w % 16 == r % 16
  {
    var w := 4096 * q + r;
    assert w / 256 == 16 * q + r / 256;
    assert w / 16 == 256 * q + r / 16;
  }

  /** After 8XY0 the registers are equal: 5XY0 skips, 9XY0 does not. */
  lemma CopyThenCompare(m: Machine, w: nat, t: Machine, u: nat, rand: nat -> Byte)
    requires Runs(m, w) && w / 4096 == 8 && w % 16 == 0 && Step(m, rand) == Done(t)
    requires Runs(t, u) && u / 4096 in {5, 9} && u % 4096 == w % 4096
    ensures Step(t, rand) == Done(t.(pc := if u / 4096 == 5 then t.pc + 4 else t.pc + 2))
  {
    hide Step, LeftOver;
    LogicEffect(m, w, rand);
    SkipEffect(t, u, rand);
    SameFields(w, u);
  }

  /** Two machines that differ in memory only. */
  ghost predicate OtherProgram(m: Machine, n: Machine) {
    n == m.(mem := n.mem)
  }

  /** Each skip and its opposite: exactly one of the two skips. */
  lemma Opposites(m: Machine, w: nat, n: Machine, u: nat, rand: nat -> Byte)
    requires Runs(m, w) && Runs(n, u) && OtherProgram(m, n)
    requires
      || (w / 4096 == 3 && u / 4096 == 4 && u % 4096 == w % 4096)
      || (w / 4096 == 5 && u / 4096 == 9 && u % 4096 == w % 4096 && w % 16 == 0)
      || (w / 4096 == 14 && u / 4096 == 14 && w / 256 == u / 256 && w % 256 == 0x9E && u % 256 == 0xA1)
    ensures Step(m, rand).Done? && Step(n, rand).Done?
    ensures {Step(m, rand).m.pc, Step(n, rand).m.pc} == {m.pc + 2, m.pc + 4}
  {
    hide Step, LeftOver, Pow2;
    SkipEffect(m, w, rand);
    SkipEffect(n, u, rand);
    if u % 4096 == w % 4096 { SameFields(w, u); }
    var a: int := m.v[w / 256 % 16];
    OneOrOther(m.keys / Pow2(a));
  }

  lemma OneOrOther(n: int)
    ensures n % 2 == 0 || n % 2 == 1
  {
  }

  /** BNNN with V0 = 0 goes where 1NNN goes. */
  lemma JumpFromZero(m: Machine, w: nat, n: Machine, u: nat, rand: nat -> Byte)
    requires Runs(m, w) && w / 4096 == 11 && m.v[0] == 0
    requires Runs(n, u) && u / 4096 == 1 && u % 4096 == w % 4096 && OtherProgram(m, n)
    ensures Step(m, rand).Done? && Step(n, rand).Done? && OtherProgram(Step(m, rand).m, Step(n, rand).m)
  {
    hide Step, LeftOver;
    JumpEffect(m, w, rand);
    JumpEffect(n, u, rand);
  }

  /** FX15 then FY07 copies a register through the timer. */
  lemma TimerReadsBack(m: Machine, w: nat, t: Machine, u: nat, rand: nat -> Byte)
    requires Runs(m, w) && w / 4096 == 15 && w % 256 == 0x15 && Step(m, rand) == Done(t)
    requires Runs(t, u) && u / 4096 == 15 && u % 256 == 0x07
    ensures Step(t, rand) == Done(t.(pc := t.pc + 2, v := m.v[u / 256 % 16 := m.v[w / 256 % 16]]))
  {
    hide Step, LeftOver;
    TimerEffect(m, w, rand);
    TimerEffect(t, u, rand);
  }

  /** FX55 and later FX65: V0 to VX come back, whatever happened to the registers in
      between, if I and the memory did not change. */
  lemma StoreThenLoad(m: Machine, w: nat, t: Machine, n: Machine, u: nat, rand: nat -> Byte)
    requires Runs(m, w) && w / 4096 == 15 && w % 256 == 0x55 && Step(m, rand) == Done(t)
    requires Runs(n, u) && u / 4096 == 15 && u % 256 == 0x65 && u / 256 == w / 256 && n.mem == t.mem && n.i == t.i
    ensures Step(n, rand).Done? && var r := Step(n, rand).m;
      |r.v| == 16 && forall k | 0 <= k < 16 :: r.v[k] == if k <= w / 256 % 16 then m.v[k] else n.v[k]
  {
    hide Step, LeftOver;
    CopyEffect(m, w, rand);
    CopyEffect(n, u, rand);
    var r := Step(n, rand).m;
    var x := w / 256 % 16;
    forall k | 0 <= k < 16
      ensures r.v[k] == if k <= x then m.v[k] else n.v[k]
    {
      if k <= x {
        assert t.mem[m.i + k] == m.v[k];
      }
    }
  }

  /** 7XNN and then the complement brings VX back. */
  lemma AddThenComplement(m: Machine, w: nat, t: Machine, u: nat, rand: nat -> Byte)
    requires Runs(m, w) && w / 4096 == 7 && Step(m, rand) == Done(t)
    requires Runs(t, u) && u / 4096 == 7 && u / 256 == w / 256 && (w % 256 + u % 256) % 256 == 0
    ensures Step(t, rand) == Done(m.(pc := m.pc + 4))
  {
    hide Step, LeftOver;
    LoadEffect(m, w, rand);
    LoadEffect(t, u, rand);
    var x := w / 256 % 16;
    ComplementUndoes(m.v[x], w % 256, u % 256);
    assert m.v[x := m.v[x]] == m.v;
  }

  lemma ComplementUndoes(a: Byte, b: Byte, c: Byte)
    requires (b + c) % 256 == 0
    ensures ((a + b) % 256 + c) % 256 == a
  {
  }

  /** Scrolling right and then left keeps all columns but the last four. */
  lemma ScrollBack(m: Machine, t: Machine, rand: nat -> Byte)
    requires Runs(m, 0x00FB) && Step(m, rand) == Done(t) && Runs(t, 0x00FC)
    ensures Step(t, rand).Done? && var u := Step(t, rand).m;
      && |u.fb| == 8192 && u.hires == m.hires
      && forall r: nat, c: nat | r < Tall(m) && c < Broad(m) ::
        Pixel(u, r, c) == if c + 4 < Broad(m) then Pixel(m, r, c) else 0
  {
    hide Step, LeftOver, Pixel;
    ScrollRightEffect(m, 0x00FB, rand);
    ScrollLeftEffect(t, 0x00FC, rand);
    var u := Step(t, rand).m;
    forall r: nat, c: nat | r < Tall(m) && c < Broad(m)
      ensures Pixel(u, r, c) == if c + 4 < Broad(m) then Pixel(m, r, c) else 0
    {
      if c + 4 < Broad(m) {
        assert Pixel(t, r, c + 4) == Pixel(m, r, c);
      }
    }
  }
}
