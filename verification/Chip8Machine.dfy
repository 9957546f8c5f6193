/** The CHIP-8 machine and the meaning of one instruction: fetch, defer
    screening, execute. */
module Chip8Machine {
  import opened Prelude

  const MEM_SIZE := 4096
  const FB_SIZE := 8192
  const STACK_SLOTS := 16

  /** `drawn` counts the values taken from the random stream so far. */
  datatype Machine = Machine(
    mem: seq<Byte>, v: seq<Byte>, fb: seq<Byte>, stack: seq<int>,
    pc: int, i: int, dt: int, st: int, sp: int, keys: int,
    hires: bool, dirty: bool, bell: bool, drawn: nat)

  /** What the operands are validated for, and the call-stack bound that the
      script keeps. */
  ghost predicate Shaped(m: Machine) {
    |m.mem| == MEM_SIZE && |m.v| == 16 && |m.fb| == FB_SIZE && |m.stack| == STACK_SLOTS && 0 <= m.sp <= STACK_SLOTS
  }

  function Cols(hires: bool): (n: int)
    ensures n == 64 || n == 128
  {
    if hires then 128 else 64
  }

  function Rows(hires: bool): (n: int)
    ensures n == 32 || n == 64
  {
    if hires then 64 else 32
  }

  /** The nibbles of an instruction word. */
  datatype Ins = Ins(n0: nat, x: nat, y: nat, nyb: nat, nn: Byte, nnn: nat)

  function Decode(hi: Byte, lo: Byte): (r: Ins)
    ensures r.n0 < 16 && r.x < 16 && r.y < 16 && r.nyb < 16 && r.nnn < 4096
  {
    Ins(hi / 16, hi % 16, lo / 16, lo % 16, lo, (hi % 16) * 256 + lo)
  }

  /** The fields are those of the big-endian 16-bit word. */
  lemma DecodeWord(hi: Byte, lo: Byte)
    ensures var op := hi * 256 + lo;
      Decode(hi, lo) == Ins(op / 4096 % 16, op / 256 % 16, op / 16 % 16, op % 16, op % 256, op % 4096)
  {
    var op := hi * 256 + lo;
    assert op / 256 == hi && op % 256 == lo;
    assert op / 16 == hi * 16 + lo / 16;
    assert op / 4096 == hi / 16;
  }

  /** The C remainder: sign of the dividend. */
  function Rem(a: int, b: int): int
    requires b > 0
  {
    if a >= 0 then a % b else -((-a) % b)
  }

  /** The low eight bits. */
  function Low(n: int): Byte {
    n % 256
  }

  /** Bit `k` of an integer in two's complement. */
  predicate Bit(n: int, k: nat) {
    n / Pow2(k) % 2 == 1
  }

  /** Index of the lowest set bit. */
  function TrailingZeros(n: int): nat
    requires n != 0
    decreases if n < 0 then -n else n
  {
    if n % 2 == 1 then 0 else 1 + TrailingZeros(n / 2)
  }

  /** The low `k` binary digits of a bitwise or. */
  function OrDigits(a: nat, b: nat, k: nat): (r: nat)
    ensures r < Pow2(k)
  {
    if k == 0 then 0 else (if a % 2 == 1 || b % 2 == 1 then 1 else 0) + 2 * OrDigits(a / 2, b / 2, k - 1)
  }

  function AndDigits(a: nat, b: nat, k: nat): (r: nat)
    ensures r < Pow2(k)
  {
    if k == 0 then 0 else (if a % 2 == 1 && b % 2 == 1 then 1 else 0) + 2 * AndDigits(a / 2, b / 2, k - 1)
  }

  function Or(a: Byte, b: Byte): Byte {
    assert Pow2(8) == 256;
    OrDigits(a, b, 8)
  }

  function And(a: Byte, b: Byte): Byte {
    assert Pow2(8) == 256;
    AndDigits(a, b, 8)
  }

  // ----- defer screening -----

  /** Sprite bytes read by a draw: 32 for the 16x16 sprite of hi-res mode. */
  function SpriteBytes(nyb: nat, hires: bool): nat {
    if nyb == 0 && hires then 32 else nyb
  }

  predicate InMem(i: int, n: int) {
    0 <= i && i + n <= MEM_SIZE
  }

  /** Instructions left to the reference implementation. */
  predicate Deferred(m: Machine, op: Ins)
    requires |m.v| == 16 && op.x < 16
  {
    match op.n0
    case 0 => op.x == 0 && (op.nn == 0xFD || op.nn == 0xFE || op.nn == 0xFF || (op.nn == 0xEE && m.sp <= 0))
    case 2 => m.sp >= STACK_SLOTS
    case 8 => op.nyb > 7 && op.nyb != 0xE
    case 13 => !InMem(m.i, SpriteBytes(op.nyb, m.hires))
    case 14 => (op.nn != 0x9E && op.nn != 0xA1) || m.v[op.x] > 15
    case 15 =>
      if op.nn == 0x33 then !InMem(m.i, 3)
      else if op.nn == 0x55 || op.nn == 0x65 then !InMem(m.i, op.x + 1)
      else op.nn !in {0x07, 0x0A, 0x15, 0x18, 0x1E, 0x29, 0x30}
    case _ => false
  }

  // ----- the framebuffer -----

  /** Every row moves right by four columns, zeros coming in. */
  function ScrollRight(fb: seq<Byte>, cols: nat, rows: nat): (r: seq<Byte>)
    requires cols >= 4 && rows * cols <= |fb|
    ensures |r| == |fb| && forall p | rows * cols <= p < |fb| :: r[p] == fb[p]
  {
    seq(|fb|, p requires 0 <= p < |fb| =>
      if p >= rows * cols then fb[p] else if p % cols < 4 then 0 else fb[p - 4])
  }

  function ScrollLeft(fb: seq<Byte>, cols: nat, rows: nat): (r: seq<Byte>)
    requires cols >= 4 && rows * cols <= |fb|
    ensures |r| == |fb| && forall p | rows * cols <= p < |fb| :: r[p] == fb[p]
  {
    seq(|fb|, p requires 0 <= p < |fb| =>
      if p >= rows * cols then fb[p]
      else if p % cols >= cols - 4 || p + 4 >= |fb| then 0 else fb[p + 4])
  }

  /** The active rows move down by `n` rows, zero rows coming in on top. */
  function ScrollDown(fb: seq<Byte>, cols: nat, rows: nat, n: nat): (r: seq<Byte>)
    requires rows * cols <= |fb|
    ensures |r| == |fb|
  {
    if n >= rows then Zeros(|fb|)
    else
      assert n * cols <= rows * cols by { MulMono(n, rows, cols); }
      Zeros(n * cols) + fb[..rows * cols - n * cols] + fb[rows * cols..]
  }

  lemma MulMono(a: nat, b: nat, c: nat)
    requires a <= b
    ensures a * c <= b * c
  {
  }

  /** Framebuffer index of sprite pixel (row, col), wrapped at the screen edges. */
  function CellAt(x0: nat, y0: nat, row: nat, col: nat, hires: bool): (p: nat)
    ensures p < FB_SIZE
  {
    (y0 + row) % Rows(hires) * Cols(hires) + (x0 + col) % Cols(hires)
  }

  function OneIf(b: bool, p: nat): seq<nat> {
    if b then [p] else []
  }

  /** Cells of the set bits among the first `col` columns of an 8-wide row. */
  function NarrowRow(byte: Byte, x0: nat, y0: nat, row: nat, col: nat, hires: bool): seq<nat>
    requires col <= 8
  {
    if col == 0 then []
    else
      NarrowRow(byte, x0, y0, row, col - 1, hires)
      + OneIf(Bit(byte, 7 - (col - 1)), CellAt(x0, y0, row, col - 1, hires))
  }

  /** The same for a 16-wide row, whose two bytes are scanned side by side. */
  function WideRow(b0: Byte, b1: Byte, x0: nat, y0: nat, row: nat, col: nat, hires: bool): seq<nat>
    requires col <= 8
  {
    if col == 0 then []
    else
      WideRow(b0, b1, x0, y0, row, col - 1, hires)
      + OneIf(Bit(b0, 7 - (col - 1)), CellAt(x0, y0, row, col - 1, hires))
      + OneIf(Bit(b1, 7 - (col - 1)), CellAt(x0, y0, row, col - 1 + 8, hires))
  }

  /** All cells a sprite toggles, in drawing order, after `rows` rows. */
  function NarrowCells(bytes: seq<Byte>, x0: nat, y0: nat, rows: nat, hires: bool): seq<nat>
    requires rows <= |bytes|
  {
    if rows == 0 then []
    else NarrowCells(bytes, x0, y0, rows - 1, hires) + NarrowRow(bytes[rows - 1], x0, y0, rows - 1, 8, hires)
  }

  function WideCells(bytes: seq<Byte>, x0: nat, y0: nat, rows: nat, hires: bool): seq<nat>
    requires 2 * rows <= |bytes|
  {
    if rows == 0 then []
    else
      WideCells(bytes, x0, y0, rows - 1, hires)
      + WideRow(bytes[2 * rows - 2], bytes[2 * rows - 1], x0, y0, rows - 1, 8, hires)
  }

  function SpriteCells(m: Machine, op: Ins): seq<nat>
    requires Shaped(m) && op.x < 16 && op.y < 16 && InMem(m.i, SpriteBytes(op.nyb, m.hires))
  {
    var bytes := m.mem[m.i..m.i + SpriteBytes(op.nyb, m.hires)];
    var x0 := m.v[op.x] % Cols(m.hires);
    var y0 := m.v[op.y] % Rows(m.hires);
    if op.nyb == 0 && m.hires then WideCells(bytes, x0, y0, 16, true)
    else NarrowCells(bytes, x0, y0, op.nyb, m.hires)
  }

  /** Exclusive-or of a pixel byte with 1. */
  function Flip(b: Byte): Byte {
    if b % 2 == 0 then b + 1 else b - 1
  }

  /** Toggling cells one after the other. */
  function ToggleAll(fb: seq<Byte>, ps: seq<nat>): (r: seq<Byte>)
    ensures |r| == |fb|
  {
    if ps == [] then fb
    else
      var f := ToggleAll(fb, ps[..|ps| - 1]);
      var p := ps[|ps| - 1];
      if p < |f| then f[p := Flip(f[p])] else f
  }

  /** Whether some cell was lit at the moment it was toggled. */
  predicate AnyHit(fb: seq<Byte>, ps: seq<nat>) {
    ps != [] &&
    (AnyHit(fb, ps[..|ps| - 1])
     || (var f := ToggleAll(fb, ps[..|ps| - 1]); ps[|ps| - 1] < |f| && f[ps[|ps| - 1]] == 1))
  }

  // ----- execution; `m.pc` is already past the instruction -----

  function Skip(m: Machine, c: bool): Machine {
    if c then m.(pc := m.pc + 2) else m
  }

  function SetV(m: Machine, x: nat, b: Byte): Machine
    requires x < |m.v|
  {
    m.(v := m.v[x := b])
  }

  /** Result first, then the flag register. */
  function SetVF(m: Machine, x: nat, b: Byte, flag: bool): Machine
    requires x < |m.v| && 15 < |m.v|
  {
    m.(v := m.v[x := b][15 := if flag then 1 else 0])
  }

  function Sys(m: Machine, op: Ins): Machine
    requires Shaped(m) && op.n0 == 0 && (op.x == 0 && op.nn == 0xEE ==> m.sp > 0)
  {
    var (cols, rows) := (Cols(m.hires), Rows(m.hires));
    if op.x != 0 then m
    else if op.nn == 0xE0 then m.(fb := Zeros(FB_SIZE), dirty := true)
    else if op.nn == 0xEE then m.(sp := m.sp - 1, pc := m.stack[m.sp - 1])
    else if op.nn == 0xFB then m.(fb := ScrollRight(m.fb, cols, rows), dirty := true)
    else if op.nn == 0xFC then m.(fb := ScrollLeft(m.fb, cols, rows), dirty := true)
    else if op.y == 0xC then m.(fb := ScrollDown(m.fb, cols, rows, op.nyb), dirty := true)
    else m
  }

  function Alu(m: Machine, op: Ins): Machine
    requires Shaped(m) && op.x < 16 && op.y < 16
  {
    var x := op.x;
    var a: int := m.v[op.x];
    var b: int := m.v[op.y];
    match op.nyb
    case 0 => SetV(m, x, b)
    case 1 => SetV(m, x, Or(a, b))
    case 2 => SetV(m, x, And(a, b))
    case 3 => SetV(m, x, Xor(a, b))
    case 4 => SetVF(m, x, Low(a + b), a + b >= 256)
    case 5 => SetVF(m, x, Low(a - b), a >= b)
    case 6 => SetVF(m, x, a / 2, a % 2 == 1)
    case 7 => SetVF(m, x, Low(b - a), b >= a)
    case 14 => SetVF(m, x, Low(a * 2), a >= 128)
    case _ => m
  }

  function Draw(m: Machine, op: Ins): Machine
    requires Shaped(m) && op.x < 16 && op.y < 16 && InMem(m.i, SpriteBytes(op.nyb, m.hires))
  {
    var ps := SpriteCells(m, op);
    m.(fb := ToggleAll(m.fb, ps), v := m.v[15 := if AnyHit(m.fb, ps) then 1 else 0], dirty := true)
  }

  /** `s` with `part` written over it from `at` on. */
  function Overlay(s: seq<Byte>, at: int, part: seq<Byte>): (r: seq<Byte>)
    requires 0 <= at && at + |part| <= |s|
    ensures |r| == |s|
  {
    s[..at] + part + s[at + |part|..]
  }

  /** The three decimal digits of `a` stored at `at`, hundreds first. */
  function Digits(mem: seq<Byte>, at: int, a: Byte): (r: seq<Byte>)
    requires 0 <= at && at + 3 <= |mem|
    ensures |r| == |mem|
    ensures
      var (h: int, t: int, u: int) := (r[at], r[at + 1], r[at + 2]);
      h < 10 && t < 10 && u < 10 && a == 100 * h + 10 * t + u
    ensures forall p | 0 <= p < |mem| && !(at <= p < at + 3) :: r[p] == mem[p]
  {
    mem[at := a / 100 % 10][at + 1 := a / 10 % 10][at + 2 := a % 10]
  }

  function Misc(m: Machine, op: Ins): Machine
    requires Shaped(m) && op.x < 16 && op.n0 == 15 && !Deferred(m, op) && !(op.nn == 0x0A && m.keys == 0)
  {
    var x := op.x;
    var a: int := m.v[op.x];
    if op.nn == 0x07 then SetV(m, x, m.dt % 256)
    else if op.nn == 0x0A then SetV(m, x, TrailingZeros(m.keys) % 256)
    else if op.nn == 0x15 then m.(dt := a)
    else if op.nn == 0x18 then m.(st := a, bell := m.bell || (m.st == 0 && a > 0))
    else if op.nn == 0x1E then m.(i := Rem(m.i + a, 0x10000))
    else if op.nn == 0x29 then m.(i := a * 5)
    else if op.nn == 0x30 then m.(i := a * 10 + 0x50)
    else if op.nn == 0x33 then m.(mem := Digits(m.mem, m.i, a))
    else if op.nn == 0x55 then m.(mem := Overlay(m.mem, m.i, m.v[..x + 1]))
    else m.(v := Overlay(m.v, 0, m.mem[m.i..m.i + x + 1]))
  }

  function Exec(m: Machine, op: Ins, rand: nat -> Byte): Machine
    requires Shaped(m) && op.x < 16 && op.y < 16 && !Deferred(m, op)
    requires !(op.n0 == 15 && op.nn == 0x0A && m.keys == 0)
  {
    var x := op.x;
    match op.n0
    case 0 => Sys(m, op)
    case 1 => m.(pc := op.nnn)
    case 2 => m.(stack := m.stack[m.sp := m.pc], sp := m.sp + 1, pc := op.nnn)
    case 3 => Skip(m, m.v[x] == op.nn)
    case 4 => Skip(m, m.v[x] != op.nn)
    case 5 => Skip(m, op.nyb == 0 && m.v[x] == m.v[op.y])
    case 6 => SetV(m, x, op.nn)
    case 7 => SetV(m, x, (m.v[x] + op.nn) % 256)
    case 8 => Alu(m, op)
    case 9 => Skip(m, op.nyb == 0 && m.v[x] != m.v[op.y])
    case 10 => m.(i := op.nnn)
    case 11 => m.(pc := (op.nnn + m.v[0]) % 0x1000)
    case 12 => SetV(m, x, And(rand(m.drawn), op.nn)).(drawn := m.drawn + 1)
    case 13 => Draw(m, op)
    case 14 => Skip(m, if op.nn == 0x9E then Bit(m.keys, m.v[x]) else !Bit(m.keys, m.v[x]))
    case 15 => Misc(m, op)
    case _ => m
  }

  // ----- one turn of the loop -----

  /** `Done` completed an instruction; `Wait` is FX0A with no key down, the program
      counter back at it. */
  datatype Turn = Done(m: Machine) | Defer | Wait

  predicate Fetchable(pc: int) {
    0 <= pc && pc + 1 < MEM_SIZE
  }

  function Fetch(m: Machine): (op: Ins)
    requires |m.mem| == MEM_SIZE && Fetchable(m.pc)
    ensures op.n0 < 16 && op.x < 16 && op.y < 16 && op.nyb < 16 && op.nnn < 4096
  {
    Decode(m.mem[m.pc], m.mem[m.pc + 1])
  }

  function Step(m: Machine, rand: nat -> Byte): Turn
    requires Shaped(m)
  {
    if !Fetchable(m.pc) then Defer
    else
      var op := Fetch(m);
      if Deferred(m, op) then Defer
      else if op.n0 == 15 && op.nn == 0x0A && m.keys == 0 then Wait
      else
        DeferIgnoresPc(m, op);
        Done(Exec(m.(pc := m.pc + 2), op, rand))
  }

  lemma DeferIgnoresPc(m: Machine, op: Ins)
    requires |m.v| == 16 && op.x < 16
    ensures Deferred(m.(pc := m.pc + 2), op) == Deferred(m, op)
  {
  }

  /** The same sizes, stack bound, keys and mode. */
  ghost predicate SameShape(m: Machine, t: Machine) {
    Shaped(t) && t.hires == m.hires && t.keys == m.keys
  }

  lemma SysShaped(m: Machine, op: Ins)
    requires Shaped(m) && op.n0 == 0 && (op.x == 0 && op.nn == 0xEE ==> m.sp > 0)
    ensures SameShape(m, Sys(m, op))
  {
    hide ScrollRight, ScrollLeft, ScrollDown;
  }

  lemma AluShaped(m: Machine, op: Ins)
    requires Shaped(m) && op.x < 16 && op.y < 16
    ensures SameShape(m, Alu(m, op)) && Alu(m, op) == m.(v := Alu(m, op).v)
  {
    hide Or, And, Xor, Low;
    if op.nyb <= 3 {
    } else if op.nyb <= 5 {
    }
  }

  lemma DrawShaped(m: Machine, op: Ins)
    requires Shaped(m) && op.x < 16 && op.y < 16 && InMem(m.i, SpriteBytes(op.nyb, m.hires))
    ensures SameShape(m, Draw(m, op))
    ensures Draw(m, op) == m.(v := Draw(m, op).v, fb := Draw(m, op).fb, dirty := true)
  {
    hide ToggleAll, AnyHit, SpriteCells;
  }

  lemma MiscShaped(m: Machine, op: Ins)
    requires Shaped(m) && op.x < 16 && op.n0 == 15 && !Deferred(m, op) && !(op.nn == 0x0A && m.keys == 0)
    ensures SameShape(m, Misc(m, op))
  {
    hide TrailingZeros, Rem, Digits, Overlay;
  }

  /** An instruction keeps the sizes, the stack bound, the keys and the mode. */
  lemma ExecShaped(m: Machine, op: Ins, rand: nat -> Byte)
    requires Shaped(m) && op.n0 < 16 && op.x < 16 && op.y < 16 && !Deferred(m, op)
    requires !(op.n0 == 15 && op.nn == 0x0A && m.keys == 0)
    ensures SameShape(m, Exec(m, op, rand))
  {
    hide And, Bit, Sys, Alu, Draw, Misc;
    if op.n0 == 0 {
      SysShaped(m, op);
    } else if op.n0 == 8 {
      AluShaped(m, op);
    } else if op.n0 == 13 {
      DrawShaped(m, op);
    } else if op.n0 == 15 {
      MiscShaped(m, op);
    }
  }

  lemma StepShaped(m: Machine, rand: nat -> Byte)
    requires Shaped(m)
    ensures var r := Step(m, rand); r.Done? ==> Shaped(r.m) && r.m.hires == m.hires && r.m.keys == m.keys
  {
    hide Exec, Deferred;
    if Fetchable(m.pc) && Step(m, rand).Done? {
      DeferIgnoresPc(m, Fetch(m));
      ExecShaped(m.(pc := m.pc + 2), Fetch(m), rand);
    }
  }

  // ----- a burst -----

  datatype Reason = Ok | Deferral | KeyWait

  datatype Result = Result(m: Machine, consumed: nat, reason: Reason)

  function Burst(m: Machine, budget: nat, rand: nat -> Byte): (r: Result)
    requires Shaped(m)
    ensures Shaped(r.m) && r.consumed <= budget
    decreases budget
  {
    if budget == 0 then Result(m, 0, Ok)
    else
      var t := Step(m, rand);
      StepShaped(m, rand);
      match t
      case Defer => Result(m, 0, Deferral)
      case Wait => Result(m, 1, KeyWait)
      case Done(m') =>
        var r := Burst(m', budget - 1, rand);
        Result(r.m, r.consumed + 1, r.reason)
  }

  function Clean(m: Machine): Machine {
    m.(dirty := false, bell := false)
  }

  /** One call of the kernel: the dirty and bell reports start afresh. */
  function Call(m: Machine, budget: nat, rand: nat -> Byte): (r: Result)
    requires Shaped(m)
    ensures Shaped(r.m) && r.consumed <= budget
  {
    Burst(Clean(m), budget, rand)
  }
}
