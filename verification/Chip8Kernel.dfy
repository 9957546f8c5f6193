/** The kernel as it runs: one loop over byte arrays, updated in place, proved
    equal to the meaning of a call. */
module Chip8Kernel {
  import opened Prelude
  import opened Chip8Machine

  // ----- byte moves -----

  /** memmove within one array: the source bytes are read before any is written. */
  method MoveBytes(a: array<Byte>, dst: nat, src: nat, n: nat)
    requires dst + n <= a.Length && src + n <= a.Length
    modifies a
    ensures a[..] == Overlay(old(a[..]), dst, old(a[src..src + n]))
  {
    WriteBytes(a, dst, a[src..src + n]);
  }

  method ZeroBytes(a: array<Byte>, dst: nat, n: nat)
    requires dst + n <= a.Length
    modifies a
    ensures a[..] == Overlay(old(a[..]), dst, Zeros(n))
  {
    WriteBytes(a, dst, Zeros(n));
  }

  method WriteBytes(a: array<Byte>, dst: nat, part: seq<Byte>)
    requires dst + |part| <= a.Length
    modifies a
    ensures a[..] == Overlay(old(a[..]), dst, part)
  {
    var k := 0;
    while k < |part|
      invariant 0 <= k <= |part|
      invariant forall j | 0 <= j < k :: a[dst + j] == part[j]
      invariant forall p | 0 <= p < a.Length && !(dst <= p < dst + k) :: a[p] == old(a[p])
    {
      a[dst + k] := part[k];
      k := k + 1;
    }
    var want := Overlay(old(a[..]), dst, part);
    forall p | 0 <= p < a.Length
      ensures a[p] == want[p]
    {
      if dst <= p < dst + |part| {
        assert a[dst + (p - dst)] == part[p - dst];
      }
    }
    assert a[..] == want;
  }

  // ----- scrolling -----

  /** Row `row` of a screen `cols` wide: its cells and their columns. */
  lemma {:induction false} RowCells(row: nat, cols: nat, p: nat)
    requires (cols == 64 || cols == 128) && row * cols <= p < row * cols + cols
    ensures p % cols == p - row * cols
  {
    if row > 0 {
      assert row * cols == (row - 1) * cols + cols;
      RowCells(row - 1, cols, p - cols);
      WrapOnce(p, cols);
    }
  }

  lemma WrapOnce(p: nat, cols: nat)
    requires (cols == 64 || cols == 128) && cols <= p
    ensures p % cols == (p - cols) % cols
  {
  }

  /** One row of `cols` cells from `base` on, moved right by four. */
  lemma RightCells(now: seq<Byte>, base: nat, cols: nat, p: nat)
    requires 4 <= cols && base + cols <= |now| && base <= p < base + cols
    ensures var moved := Overlay(now, base + 4, now[base..base + (cols - 4)]);
      Overlay(moved, base, Zeros(4))[p] == if p < base + 4 then 0 else now[p - 4]
  {
  }

  lemma LeftCells(now: seq<Byte>, base: nat, cols: nat, p: nat)
    requires 4 <= cols && base + cols <= |now| && base <= p < base + cols
    ensures var moved := Overlay(now, base, now[base + 4..base + cols]);
      Overlay(moved, base + (cols - 4), Zeros(4))[p] == if p >= base + cols - 4 then 0 else now[p + 4]
  {
  }

  /** Cells outside a row are not written. */
  lemma OtherCells(now: seq<Byte>, at: nat, part: seq<Byte>, p: nat)
    requires at + |part| <= |now| && p < |now| && !(at <= p < at + |part|)
    ensures Overlay(now, at, part)[p] == now[p]
  {
  }

  lemma RightRow(was: seq<Byte>, now: seq<Byte>, row: nat, cols: nat, rows: nat, base: nat, next: seq<Byte>)
    requires (cols == 64 || cols == 128) && base == row * cols && base + cols <= rows * cols <= |was| == |now|
    requires forall p | base <= p < |was| :: now[p] == was[p]
    requires next == Overlay(Overlay(now, base + 4, now[base..base + (cols - 4)]), base, Zeros(4))
    ensures forall p | 0 <= p < base || base + cols <= p < |was| :: next[p] == now[p]
    ensures forall p | base <= p < base + cols :: next[p] == ScrollRight(was, cols, rows)[p]
  {
    hide Overlay;
    var moved := Overlay(now, base + 4, now[base..base + (cols - 4)]);
    forall p | 0 <= p < |was|
      ensures if base <= p < base + cols then next[p] == ScrollRight(was, cols, rows)[p] else next[p] == now[p]
    {
      if base <= p < base + cols {
        RightCells(now, base, cols, p);
        RowCells(row, cols, p);
      } else {
        OtherCells(now, base + 4, now[base..base + (cols - 4)], p);
        OtherCells(moved, base, Zeros(4), p);
      }
    }
  }

  lemma LeftRow(was: seq<Byte>, now: seq<Byte>, row: nat, cols: nat, rows: nat, base: nat, next: seq<Byte>)
    requires (cols == 64 || cols == 128) && base == row * cols && base + cols <= rows * cols <= |was| == |now|
    requires forall p | base <= p < |was| :: now[p] == was[p]
    requires next == Overlay(Overlay(now, base, now[base + 4..base + cols]), base + (cols - 4), Zeros(4))
    ensures forall p | 0 <= p < base || base + cols <= p < |was| :: next[p] == now[p]
    ensures forall p | base <= p < base + cols :: next[p] == ScrollLeft(was, cols, rows)[p]
  {
    hide Overlay;
    var moved := Overlay(now, base, now[base + 4..base + cols]);
    forall p | 0 <= p < |was|
      ensures if base <= p < base + cols then next[p] == ScrollLeft(was, cols, rows)[p] else next[p] == now[p]
    {
      if base <= p < base + cols {
        LeftCells(now, base, cols, p);
        RowCells(row, cols, p);
      } else {
        OtherCells(now, base, now[base + 4..base + cols], p);
        OtherCells(moved, base + (cols - 4), Zeros(4), p);
      }
    }
  }

  method ScreenRight(fb: array<Byte>, cols: nat, rows: nat)
    requires (cols == 64 || cols == 128) && rows * cols <= fb.Length
    modifies fb
    ensures fb[..] == ScrollRight(old(fb[..]), cols, rows)
  {
    hide Overlay, ScrollRight;
    ghost var was := fb[..];
    ghost var want := ScrollRight(was, cols, rows);
    var row := 0;
    while row < rows
      invariant 0 <= row <= rows && row * cols <= rows * cols
      invariant forall p | 0 <= p < row * cols :: fb[p] == want[p]
      invariant forall p | row * cols <= p < fb.Length :: fb[p] == was[p]
    {
      ghost var now := fb[..];
      MulMono(row + 1, rows, cols);
      var base := row * cols;
      assert (row + 1) * cols == base + cols;
      MoveBytes(fb, base + 4, base, cols - 4);
      ZeroBytes(fb, base, 4);
      RightRow(was, now, row, cols, rows, base, fb[..]);
      assert forall p | 0 <= p < fb.Length :: fb[p] == fb[..][p];
      row := row + 1;
    }
  }

  method ScreenLeft(fb: array<Byte>, cols: nat, rows: nat)
    requires (cols == 64 || cols == 128) && rows * cols <= fb.Length
    modifies fb
    ensures fb[..] == ScrollLeft(old(fb[..]), cols, rows)
  {
    hide Overlay, ScrollLeft;
    ghost var was := fb[..];
    ghost var want := ScrollLeft(was, cols, rows);
    var row := 0;
    while row < rows
      invariant 0 <= row <= rows && row * cols <= rows * cols
      invariant forall p | 0 <= p < row * cols :: fb[p] == want[p]
      invariant forall p | row * cols <= p < fb.Length :: fb[p] == was[p]
    {
      ghost var now := fb[..];
      MulMono(row + 1, rows, cols);
      var base := row * cols;
      assert (row + 1) * cols == base + cols;
      MoveBytes(fb, base, base + 4, cols - 4);
      ZeroBytes(fb, base + (cols - 4), 4);
      LeftRow(was, now, row, cols, rows, base, fb[..]);
      assert forall p | 0 <= p < fb.Length :: fb[p] == fb[..][p];
      row := row + 1;
    }
  }

  lemma Down(was: seq<Byte>, cols: nat, rows: nat, n: nat, shift: nat, kept: nat)
    requires n < rows && shift == n * cols && shift + kept == rows * cols <= |was|
    ensures Overlay(Overlay(was, shift, was[0..kept]), 0, Zeros(shift)) == ScrollDown(was, cols, rows, n)
  {
    MulMono(n, rows, cols);
    var r := Overlay(Overlay(was, shift, was[0..kept]), 0, Zeros(shift));
    assert r == Zeros(shift) + was[..kept] + was[shift + kept..];
  }

  lemma DownAll(was: seq<Byte>, cols: nat, rows: nat, n: nat)
    requires rows * cols <= |was|
    ensures n >= rows ==> Overlay(was, 0, Zeros(|was|)) == ScrollDown(was, cols, rows, n)
    ensures n == 0 < rows ==> was == ScrollDown(was, cols, rows, n)
  {
    assert n == 0 < rows ==> ScrollDown(was, cols, rows, n) == Zeros(0) + was[..rows * cols] + was[rows * cols..];
  }

  method ScreenDown(fb: array<Byte>, cols: nat, rows: nat, n: nat)
    requires rows * cols <= fb.Length
    modifies fb
    ensures fb[..] == ScrollDown(old(fb[..]), cols, rows, n)
  {
    hide Overlay, ScrollDown;
    DownAll(fb[..], cols, rows, n);
    if n >= rows {
      ZeroBytes(fb, 0, fb.Length);
    } else if n > 0 {
      MulMono(n, rows, cols);
      var shift := n * cols;
      var kept := (rows - n) * cols;
      MulSplit(rows, n, cols);
      Down(fb[..], cols, rows, n, shift, kept);
      MoveBytes(fb, shift, 0, kept);
      ZeroBytes(fb, 0, shift);
    }
  }

  lemma MulSplit(rows: nat, n: nat, cols: nat)
    requires n <= rows
    ensures n * cols + (rows - n) * cols == rows * cols
  {
  }

  // ----- drawing -----

  /** One sprite pixel: if it is set, note a lit cell, then flip it. */
  method Toggle(fb: array<Byte>, pixel: bool, p: nat, hit: bool, ghost was: seq<Byte>, ghost ps: seq<nat>) returns (hit': bool)
    requires p < fb.Length && |was| == fb.Length && fb[..] == ToggleAll(was, ps) && hit == AnyHit(was, ps)
    modifies fb
    ensures fb[..] == ToggleAll(was, ps + OneIf(pixel, p)) && hit' == AnyHit(was, ps + OneIf(pixel, p))
  {
    hit' := hit;
    if pixel {
      assert (ps + [p])[..|ps + [p]| - 1] == ps;
      hit' := hit || fb[p] == 1;
      fb[p] := Flip(fb[p]);
    } else {
      assert ps + [] == ps;
    }
  }

  method NarrowSprite(fb: array<Byte>, bytes: seq<Byte>, x0: nat, y0: nat, hires: bool) returns (hit: bool)
    requires fb.Length == FB_SIZE
    modifies fb
    ensures var ps := NarrowCells(bytes, x0, y0, |bytes|, hires);
      fb[..] == ToggleAll(old(fb[..]), ps) && hit == AnyHit(old(fb[..]), ps)
  {
    hide ToggleAll, AnyHit, CellAt, Bit, OneIf;
    ghost var was := fb[..];
    hit := false;
    NothingToggled(was);
    var row := 0;
    while row < |bytes|
      invariant 0 <= row <= |bytes|
      invariant var ps := NarrowCells(bytes, x0, y0, row, hires); fb[..] == ToggleAll(was, ps) && hit == AnyHit(was, ps)
    {
      ghost var before := NarrowCells(bytes, x0, y0, row, hires);
      assert before + [] == before;
      var col := 0;
      while col < 8
        invariant 0 <= col <= 8
        invariant var ps := before + NarrowRow(bytes[row], x0, y0, row, col, hires);
          fb[..] == ToggleAll(was, ps) && hit == AnyHit(was, ps)
      {
        ghost var front := NarrowRow(bytes[row], x0, y0, row, col, hires);
        var pixel := Bit(bytes[row], 7 - col);
        var p := CellAt(x0, y0, row, col, hires);
        hit := Toggle(fb, pixel, p, hit, was, before + front);
        assert before + front + OneIf(pixel, p) == before + (front + OneIf(pixel, p));
        col := col + 1;
      }
      row := row + 1;
    }
  }

  lemma NothingToggled(was: seq<Byte>)
    ensures ToggleAll(was, []) == was && !AnyHit(was, [])
  {
  }

  method WideSprite(fb: array<Byte>, bytes: seq<Byte>, x0: nat, y0: nat, hires: bool) returns (hit: bool)
    requires fb.Length == FB_SIZE && |bytes| == 32
    modifies fb
    ensures var ps := WideCells(bytes, x0, y0, 16, hires);
      fb[..] == ToggleAll(old(fb[..]), ps) && hit == AnyHit(old(fb[..]), ps)
  {
    hide ToggleAll, AnyHit, CellAt, Bit, OneIf;
    ghost var was := fb[..];
    hit := false;
    NothingToggled(was);
    var row := 0;
    while row < 16
      invariant 0 <= row <= 16
      invariant var ps := WideCells(bytes, x0, y0, row, hires); fb[..] == ToggleAll(was, ps) && hit == AnyHit(was, ps)
    {
      ghost var before := WideCells(bytes, x0, y0, row, hires);
      assert before + [] == before;
      var (b0, b1) := (bytes[2 * row], bytes[2 * row + 1]);
      var col := 0;
      while col < 8
        invariant 0 <= col <= 8
        invariant var ps := before + WideRow(b0, b1, x0, y0, row, col, hires);
          fb[..] == ToggleAll(was, ps) && hit == AnyHit(was, ps)
      {
        ghost var front := WideRow(b0, b1, x0, y0, row, col, hires);
        var (bit0, bit1) := (Bit(b0, 7 - col), Bit(b1, 7 - col));
        var (p0, p1) := (CellAt(x0, y0, row, col, hires), CellAt(x0, y0, row, col + 8, hires));
        hit := Toggle(fb, bit0, p0, hit, was, before + front);
        hit := Toggle(fb, bit1, p1, hit, was, before + front + OneIf(bit0, p0));
        Regroup(before, front, OneIf(bit0, p0), OneIf(bit1, p1));
        col := col + 1;
      }
      row := row + 1;
    }
  }

  lemma Regroup(a: seq<nat>, b: seq<nat>, c: seq<nat>, d: seq<nat>)
    ensures a + b + c + d == a + (b + c + d)
  {
  }

  // ----- the kernel -----

  datatype Reply = BadBudget | Reply(consumed: nat, reason: Reason)

  /** How a turn ended: instruction completed, left to the reference, or
      waiting for a key. */
  datatype Verdict = Ran | Left | Waits

  ghost function VerdictOf(t: Turn): Verdict {
    if t.Done? then Ran else if t.Defer? then Left else Waits
  }

  /** A result reached after `k` more units of budget. */
  ghost function Later(r: Result, k: nat): Result {
    Result(r.m, k + r.consumed, r.reason)
  }

  class Cpu {
    const mem: array<Byte>
    const v: array<Byte>
    const fb: array<Byte>
    const stack: array<int>
    var pc: int
    var i: int
    var dt: int
    var st: int
    var sp: int
    var keys: int
    var hires: bool
    var dirty: bool
    var bell: bool
    var drawn: nat

    /** Over the caller's buffers and the scalars of its state array. */
    constructor (mem: array<Byte>, v: array<Byte>, fb: array<Byte>, stack: array<int>, m: Machine)
      requires mem.Length == MEM_SIZE && v.Length == 16 && fb.Length == FB_SIZE && stack.Length == STACK_SLOTS
      requires mem as object != stack && v as object != stack && fb as object != stack && 0 <= m.sp <= STACK_SLOTS
      ensures Valid() && this.mem == mem && this.v == v && this.fb == fb && this.stack == stack
      ensures Abs() == m.(mem := mem[..], v := v[..], fb := fb[..], stack := stack[..])
    {
      this.mem, this.v, this.fb, this.stack := mem, v, fb, stack;
      pc, i, dt, st, sp, keys := m.pc, m.i, m.dt, m.st, m.sp, m.keys;
      hires, dirty, bell, drawn := m.hires, m.dirty, m.bell, m.drawn;
    }

    /** Operand sizes as validated on entry, buffers apart, call depth as the
        script keeps it. */
    ghost predicate Valid()
      reads this
    {
      && mem.Length == MEM_SIZE && v.Length == 16 && fb.Length == FB_SIZE && stack.Length == STACK_SLOTS
      && mem as object != stack && v as object != stack && fb as object != stack
      && 0 <= sp <= STACK_SLOTS
    }

    ghost function Abs(): (m: Machine)
      reads this, mem, v, fb, stack
    {
      Machine(mem[..], v[..], fb[..], stack[..], pc, i, dt, st, sp, keys, hires, dirty, bell, drawn)
    }

    method SkipIf(c: bool)
      requires Valid()
      modifies this`pc
      ensures Abs() == Skip(old(Abs()), c)
    {
      if c {
        pc := pc + 2;
      }
    }

    method ExecSys(op: Ins)
      requires Valid() && op.n0 == 0 && (op.x == 0 && op.nn == 0xEE ==> sp > 0)
      modifies this`pc, this`sp, this`dirty, fb
      ensures Valid() && Abs() == Sys(old(Abs()), op)
    {
      hide ScrollRight, ScrollLeft, ScrollDown, Overlay;
      var cols := Cols(hires);
      var rows := Rows(hires);
      if op.x == 0 {
        if op.nn == 0xE0 {
          ZeroBytes(fb, 0, FB_SIZE);
          OverlayWhole(old(fb[..]), Zeros(FB_SIZE));
          dirty := true;
        } else if op.nn == 0xEE {
          sp := sp - 1;
          pc := stack[sp];
        } else if op.nn == 0xFB {
          ScreenRight(fb, cols, rows);
          dirty := true;
        } else if op.nn == 0xFC {
          ScreenLeft(fb, cols, rows);
          dirty := true;
        } else if op.y == 0xC {
          ScreenDown(fb, cols, rows, op.nyb);
          dirty := true;
        }
      }
    }

    method ExecCall(op: Ins)
      requires Valid() && sp < STACK_SLOTS
      modifies this`pc, this`sp, stack
      ensures Valid()
      ensures var m := old(Abs()); Abs() == m.(stack := m.stack[m.sp := m.pc], sp := m.sp + 1, pc := op.nnn)
    {
      stack[sp] := pc;
      sp := sp + 1;
      pc := op.nnn;
    }

    method SetReg(x: nat, b: Byte)
      requires Valid() && x < 16
      modifies v
      ensures Abs() == SetV(old(Abs()), x, b)
    {
      v[x] := b;
    }

    /** Result first, flag second, so that VF as target ends up holding the flag. */
    method SetRegFlag(x: nat, b: Byte, flag: bool)
      requires Valid() && x < 16
      modifies v
      ensures Abs() == SetVF(old(Abs()), x, b, flag)
    {
      v[x] := b;
      v[15] := if flag then 1 else 0;
    }

    method ExecAlu(op: Ins)
      requires Valid() && op.x < 16 && op.y < 16
      modifies v
      ensures Abs() == Alu(old(Abs()), op)
    {
      hide Or, And, Xor, Low, SetV, SetVF;
      var x := op.x;
      var a: int := v[op.x];
      var b: int := v[op.y];
      if op.nyb == 0 {
        SetReg(x, b);
      } else if op.nyb == 1 {
        SetReg(x, Or(a, b));
      } else if op.nyb == 2 {
        SetReg(x, And(a, b));
      } else if op.nyb == 3 {
        SetReg(x, Xor(a, b));
      } else if op.nyb == 4 {
        var sum := a + b;
        SetRegFlag(x, Low(sum), sum >= 0x100);
      } else if op.nyb == 5 {
        SetRegFlag(x, Low(a - b), a >= b);
      } else if op.nyb == 6 {
        SetRegFlag(x, a / 2, a % 2 == 1);
      } else if op.nyb == 7 {
        SetRegFlag(x, Low(b - a), b >= a);
      } else if op.nyb == 0xE {
        SetRegFlag(x, Low(a * 2), a >= 128);
      }
    }

    method ExecDraw(op: Ins)
      requires Valid() && op.x < 16 && op.y < 16 && InMem(i, SpriteBytes(op.nyb, hires))
      modifies this`dirty, v, fb
      ensures Abs() == Draw(old(Abs()), op)
    {
      hide ToggleAll, AnyHit, NarrowCells, WideCells;
      var x0 := v[op.x] % Cols(hires);
      var y0 := v[op.y] % Rows(hires);
      var bytes := mem[i..i + SpriteBytes(op.nyb, hires)];
      var hit: bool;
      if op.nyb == 0 && hires {
        hit := WideSprite(fb, bytes, x0, y0, true);
      } else {
        hit := NarrowSprite(fb, bytes, x0, y0, hires);
      }
      v[15] := if hit then 1 else 0;
      dirty := true;
    }

    method Store(x: nat)
      requires Valid() && x < 16 && InMem(i, x + 1)
      modifies mem
      ensures mem[..] == Overlay(old(mem[..]), i, v[..x + 1])
    {
      WriteBytes(mem, i, v[..x + 1]);
    }

    method Load(x: nat)
      requires Valid() && x < 16 && InMem(i, x + 1)
      modifies v
      ensures v[..] == Overlay(old(v[..]), 0, mem[i..i + x + 1])
    {
      WriteBytes(v, 0, mem[i..i + x + 1]);
    }

    method ExecMisc(op: Ins)
      requires Valid() && op.x < 16 && op.n0 == 15 && !Deferred(Abs(), op) && !(op.nn == 0x0A && keys == 0)
      modifies this`dt, this`st, this`bell, this`i, mem, v
      ensures Abs() == Misc(old(Abs()), op)
    {
      hide TrailingZeros, Overlay, Rem, SetV;
      var x := op.x;
      var a: int := v[op.x];
      if op.nn == 0x07 {
        SetReg(x, dt % 256);
      } else if op.nn == 0x0A {
        SetReg(x, TrailingZeros(keys) % 256);
      } else if op.nn == 0x15 {
        dt := a;
      } else if op.nn == 0x18 {
        var before := st;
        st := a;
        if before == 0 && st > 0 {
          bell := true;
        }
      } else if op.nn == 0x1E {
        i := Rem(i + a, 0x10000);
      } else if op.nn == 0x29 {
        i := a * 5;
      } else if op.nn == 0x30 {
        i := a * 10 + 0x50;
      } else if op.nn == 0x33 {
        mem[i] := a / 100 % 10;
        mem[i + 1] := a / 10 % 10;
        mem[i + 2] := a % 10;
      } else if op.nn == 0x55 {
        Store(x);
      } else {
        Load(x);
      }
    }

    /** The conditional skips. */
    method ExecSkip(op: Ins, rand: nat -> Byte)
      requires Valid() && op.n0 in {3, 4, 5, 9, 14} && op.x < 16 && op.y < 16 && !Deferred(Abs(), op)
      modifies this`pc
      ensures Valid() && Abs() == Exec(old(Abs()), op, rand)
    {
      hide Bit, Skip, Sys, Alu, Draw, Misc;
      var x := op.x;
      if op.n0 == 3 {
        SkipIf(v[x] == op.nn);
      } else if op.n0 == 4 {
        SkipIf(v[x] != op.nn);
      } else if op.n0 == 5 {
        SkipIf(op.nyb == 0 && v[x] == v[op.y]);
      } else if op.n0 == 9 {
        SkipIf(op.nyb == 0 && v[x] != v[op.y]);
      } else {
        var down := Bit(keys, v[x]);
        SkipIf((op.nn == 0x9E && down) || (op.nn == 0xA1 && !down));
      }
    }

    method Execute(op: Ins, rand: nat -> Byte)
      requires Valid() && op.n0 < 16 && op.x < 16 && op.y < 16 && !Deferred(Abs(), op)
      requires !(op.n0 == 15 && op.nn == 0x0A && keys == 0)
      modifies this, mem, v, fb, stack
      ensures Valid() && Abs() == Exec(old(Abs()), op, rand)
    {
      hide And, Bit, Sys, Alu, Draw, Misc, Skip, SetV;
      var x := op.x;
      if op.n0 in {3, 4, 5, 9, 14} {
        ExecSkip(op, rand);
      } else if op.n0 == 0 {
        ExecSys(op);
      } else if op.n0 == 1 {
        pc := op.nnn;
      } else if op.n0 == 2 {
        ExecCall(op);
      } else if op.n0 == 6 {
        SetReg(x, op.nn);
      } else if op.n0 == 7 {
        SetReg(x, (v[x] + op.nn) % 256);
      } else if op.n0 == 8 {
        ExecAlu(op);
      } else if op.n0 == 10 {
        i := op.nnn;
      } else if op.n0 == 11 {
        pc := (op.nnn + v[0]) % 0x1000;
      } else if op.n0 == 12 {
        SetReg(x, And(rand(drawn), op.nn));
        drawn := drawn + 1;
      } else if op.n0 == 13 {
        ExecDraw(op);
      } else {
        ExecMisc(op);
      }
    }

    /** One turn of the loop: fetch, screen, execute. */
    method OneTurn(rand: nat -> Byte) returns (t: Verdict)
      requires Valid()
      modifies this, mem, v, fb, stack
      ensures Valid()
      ensures t == VerdictOf(Step(old(Abs()), rand))
      ensures Abs() == if t.Ran? then Step(old(Abs()), rand).m else old(Abs())
    {
      hide Exec, Deferred;
      ghost var m := Abs();
      if !Fetchable(pc) {
        return Left;
      }
      var op := Decode(mem[pc], mem[pc + 1]);
      assert op == Fetch(m);
      var deferred := Screen(op);
      if deferred {
        return Left;
      }
      DeferIgnoresPc(m, op);
      pc := pc + 2;
      assert Abs() == m.(pc := m.pc + 2);
      if op.n0 == 15 && op.nn == 0x0A && keys == 0 {
        pc := pc - 2;
        assert Abs() == m;
        return Waits;
      }
      Execute(op, rand);
      return Ran;
    }

    /** One burst, in place, is the call it stands for. */
    method StepFast(n: int, rand: nat -> Byte) returns (r: Reply)
      requires Valid()
      modifies this, mem, v, fb, stack
      ensures Valid()
      ensures n < 1 ==> r == BadBudget && Abs() == old(Abs())
      ensures n >= 1 ==> var c := Call(old(Abs()), n, rand); r == Reply(c.consumed, c.reason) && Abs() == c.m
    {
      hide Step, Burst;
      if n < 1 {
        return BadBudget;
      }
      dirty, bell := false, false;
      ghost var start := Abs();
      assert start == Clean(old(Abs()));
      var consumed := 0;
      while consumed < n
        invariant 0 <= consumed <= n && Valid()
        invariant Burst(start, n, rand) == Later(Burst(Abs(), n - consumed, rand), consumed)
      {
        BurstOnce(Abs(), n - consumed, rand);
        var t := OneTurn(rand);
        if t.Left? {
          return Reply(consumed, Deferral);
        } else if t.Waits? {
          return Reply(consumed + 1, KeyWait);
        }
        consumed := consumed + 1;
      }
      BurstOnce(Abs(), 0, rand);
      return Reply(consumed, Ok);
    }

    /** The defer screening, free of side effects. */
    method Screen(op: Ins) returns (deferred: bool)
      requires Valid() && op.x < 16
      ensures deferred == Deferred(Abs(), op)
    {
      deferred := false;
      match op.n0 {
        case 0 =>
          if op.x == 0 && (op.nn == 0xFD || op.nn == 0xFE || op.nn == 0xFF) {
            deferred := true;
          } else if op.x == 0 && op.nn == 0xEE && sp <= 0 {
            deferred := true;
          }
        case 2 => deferred := sp >= STACK_SLOTS;
        case 8 => deferred := op.nyb > 7 && op.nyb != 0xE;
        case 13 => deferred := !InMem(i, SpriteBytes(op.nyb, hires));
        case 14 => deferred := (op.nn != 0x9E && op.nn != 0xA1) || v[op.x] > 15;
        case 15 =>
          if op.nn == 0x33 {
            deferred := !InMem(i, 3);
          } else if op.nn == 0x55 || op.nn == 0x65 {
            deferred := !InMem(i, op.x + 1);
          } else {
            deferred := op.nn !in {0x07, 0x0A, 0x15, 0x18, 0x1E, 0x29, 0x30};
          }
        case _ =>
      }
    }
  }

  lemma OverlayWhole(s: seq<Byte>, part: seq<Byte>)
    requires |s| == |part|
    ensures Overlay(s, 0, part) == part
  {
  }

  /** One unfolding of a burst. */
  lemma BurstOnce(m: Machine, budget: nat, rand: nat -> Byte)
    requires Shaped(m)
    ensures budget == 0 ==> Burst(m, budget, rand) == Result(m, 0, Ok)
    ensures budget > 0 && Step(m, rand).Defer? ==> Burst(m, budget, rand) == Result(m, 0, Deferral)
    ensures budget > 0 && Step(m, rand).Wait? ==> Burst(m, budget, rand) == Result(m, 1, KeyWait)
    ensures budget > 0 && Step(m, rand).Done? ==>
      Shaped(Step(m, rand).m) &&
      var r := Burst(Step(m, rand).m, budget - 1, rand); Burst(m, budget, rand) == Result(r.m, r.consumed + 1, r.reason)
  {
    hide Step;
    StepShaped(m, rand);
  }
}
