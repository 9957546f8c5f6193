/** What each instruction does, from its 16-bit word: the whole state after it.
    Nothing but the field that an equation names changes. */
module Chip8Effects {
  import opened Prelude
  import opened Chip8Machine

  /** The machine is about to run the instruction word `w`. */
  ghost predicate Facing(m: Machine, w: nat) {
    Shaped(m) && 0 <= m.pc <= 4094 && (var hi: int := m.mem[m.pc]; w == 256 * hi + m.mem[m.pc + 1])
  }

  lemma FetchWord(m: Machine, w: nat)
    requires Facing(m, w)
    ensures w < 0x1_0000 && Fetchable(m.pc)
    ensures Fetch(m) == Ins(w / 4096, w / 256 % 16, w / 16 % 16, w % 16, w % 256, w % 4096)
  {
    DecodeWord(m.mem[m.pc], m.mem[m.pc + 1]);
    assert w / 4096 < 16;
  }

  /** Words that are left to the reference implementation, and when. */
  ghost predicate LeftOver(m: Machine, w: nat)
    requires |m.v| == 16
  {
    var x := w / 256 % 16;
    || w in {0x00FD, 0x00FE, 0x00FF}
    || (w == 0x00EE && m.sp <= 0)
    || (w / 4096 == 2 && m.sp >= 16)
    || (w / 4096 == 8 && w % 16 in {8, 9, 10, 11, 12, 13, 15})
    || (w / 4096 == 13 && !(0 <= m.i <= 4096 - (if w % 16 == 0 && m.hires then 32 else w % 16)))
    || (w / 4096 == 14 && (w % 256 !in {0x9E, 0xA1} || m.v[x] > 15))
    || (w / 4096 == 15 && w % 256 !in {0x07, 0x0A, 0x15, 0x18, 0x1E, 0x29, 0x30, 0x33, 0x55, 0x65})
    || (w / 4096 == 15 && w % 256 == 0x33 && !(0 <= m.i <= 4093))
    || (w / 4096 == 15 && w % 256 in {0x55, 0x65} && !(0 <= m.i <= 4095 - x))
  }

  lemma SmallWord(w: nat)
    requires w < 0x1_0000 && w / 4096 == 0 && w / 256 % 16 == 0
    ensures w == w % 256
  {
  }

  lemma DeferredWord(m: Machine, w: nat)
    requires Facing(m, w)
    ensures Deferred(m, Fetch(m)) <==> LeftOver(m, w)
  {
    FetchWord(m, w);
    if w / 4096 == 0 && w / 256 % 16 == 0 {
      SmallWord(w);
    }
  }

  /** Which instructions are deferred, and which wait for a key. */
  lemma DefersIff(m: Machine, w: nat, rand: nat -> Byte)
    requires Facing(m, w)
    ensures Step(m, rand).Defer? <==> LeftOver(m, w)
    ensures Step(m, rand).Wait? <==> w / 4096 == 15 && w % 256 == 0x0A && m.keys == 0
  {
    hide Deferred, Exec, LeftOver;
    FetchWord(m, w);
    DeferredWord(m, w);
    if w / 4096 == 15 && w % 256 == 0x0A {
      KeyWordRuns(m, w);
    }
  }

  lemma KeyWordRuns(m: Machine, w: nat)
    requires |m.v| == 16 && w / 4096 == 15 && w % 256 == 0x0A
    ensures !LeftOver(m, w)
  {
  }

  /** A program counter outside the memory is deferred. */
  lemma DefersOutside(m: Machine, rand: nat -> Byte)
    requires Shaped(m) && !(0 <= m.pc <= 4094)
    ensures Step(m, rand).Defer?
  {
  }

  /** `w` runs: neither deferred nor waiting. */
  ghost predicate Runs(m: Machine, w: nat) {
    Facing(m, w) && !LeftOver(m, w) && !(w / 4096 == 15 && w % 256 == 0x0A && m.keys == 0)
  }

  lemma StepRuns(m: Machine, w: nat, rand: nat -> Byte)
    requires Runs(m, w)
    ensures var (op, n) := (Fetch(m), m.(pc := m.pc + 2));
      && op == Ins(w / 4096, w / 256 % 16, w / 16 % 16, w % 16, w % 256, w % 4096)
      && Shaped(n) && !Deferred(n, op) && !(op.n0 == 15 && op.nn == 0x0A && n.keys == 0)
      && Step(m, rand) == Done(Exec(n, op, rand))
  {
    hide Deferred, Exec, LeftOver;
    FetchWord(m, w);
    DeferredWord(m, w);
    DeferIgnoresPc(m, Fetch(m));
  }

  // ----- control -----

  /** Skips: 3XNN, 4XNN, 5XY0, 9XY0, EX9E and EXA1. */
  ghost predicate SkipWord(w: nat) {
    w / 4096 in {3, 4, 5, 9, 14}
  }

  ghost predicate Skips(m: Machine, w: nat)
    requires |m.v| == 16
  {
    var (a: int, b: int) := (m.v[w / 256 % 16], m.v[w / 16 % 16]);
    || (w / 4096 == 3 && a == w % 256)
    || (w / 4096 == 4 && a != w % 256)
    || (w / 4096 == 5 && w % 16 == 0 && a == b)
    || (w / 4096 == 9 && w % 16 == 0 && a != b)
    || (w / 4096 == 14 && w % 256 == 0x9E && m.keys / Pow2(a) % 2 == 1)
    || (w / 4096 == 14 && w % 256 == 0xA1 && m.keys / Pow2(a) % 2 == 0)
  }

  lemma SkipEffect(m: Machine, w: nat, rand: nat -> Byte)
    requires Runs(m, w) && SkipWord(w)
    ensures Step(m, rand) == Done(m.(pc := if Skips(m, w) then m.pc + 4 else m.pc + 2))
  {
    hide Sys, Alu, Draw, Misc, Pow2, Deferred;
    StepRuns(m, w, rand);
  }

  /** 1NNN, 2NNN, BNNN and 00EE. */
  lemma JumpEffect(m: Machine, w: nat, rand: nat -> Byte)
    requires Runs(m, w)
    ensures w / 4096 == 1 ==> Step(m, rand) == Done(m.(pc := w % 4096))
    ensures w / 4096 == 2 ==>
      Step(m, rand) == Done(m.(pc := w % 4096, stack := m.stack[m.sp := m.pc + 2], sp := m.sp + 1))
    ensures w / 4096 == 11 ==> Step(m, rand) == Done(m.(pc := (w % 4096 + m.v[0]) % 4096))
    ensures w == 0x00EE ==> m.sp > 0 && Step(m, rand) == Done(m.(pc := m.stack[m.sp - 1], sp := m.sp - 1))
  {
    hide Alu, Draw, Misc, Deferred;
    StepRuns(m, w, rand);
  }

  // ----- registers -----

  /** 6XNN, 7XNN, ANNN and CXNN. */
  lemma LoadEffect(m: Machine, w: nat, rand: nat -> Byte)
    requires Runs(m, w)
    ensures var (x, n) := (w / 256 % 16, m.(pc := m.pc + 2));
      && (w / 4096 == 6 ==> Step(m, rand) == Done(n.(v := m.v[x := w % 256])))
      && (w / 4096 == 7 ==> Step(m, rand) == Done(n.(v := m.v[x := (m.v[x] + w % 256) % 256])))
      && (w / 4096 == 10 ==> Step(m, rand) == Done(n.(i := w % 4096)))
      && (w / 4096 == 12 ==> Step(m, rand) == Done(n.(v := m.v[x := And(rand(m.drawn), w % 256)], drawn := m.drawn + 1)))
  {
    hide Sys, Alu, Draw, Misc, Deferred, And;
    StepRuns(m, w, rand);
  }

  /** 8XY0 to 8XY3. */
  lemma LogicEffect(m: Machine, w: nat, rand: nat -> Byte)
    requires Runs(m, w) && w / 4096 == 8
    ensures var (x, a, b, n) := (w / 256 % 16, m.v[w / 256 % 16], m.v[w / 16 % 16], m.(pc := m.pc + 2));
      && (w % 16 == 0 ==> Step(m, rand) == Done(n.(v := m.v[x := b])))
      && (w % 16 == 1 ==> Step(m, rand) == Done(n.(v := m.v[x := Or(a, b)])))
      && (w % 16 == 2 ==> Step(m, rand) == Done(n.(v := m.v[x := And(a, b)])))
      && (w % 16 == 3 ==> Step(m, rand) == Done(n.(v := m.v[x := Xor(a, b)])))
  {
    hide Sys, Draw, Misc, Deferred, And, Or, Xor, Low;
    StepRuns(m, w, rand);
  }

  /** The exact value of an arithmetic instruction. */
  function Exact(n: nat, a: int, b: int): int {
    if n == 4 then a + b else if n == 5 then a - b else if n == 6 then a / 2 else if n == 7 then b - a else 2 * a
  }

  /** Carry, no borrow, or the bit shifted out. */
  predicate Flag(n: nat, a: int, b: int) {
    if n == 4 then a + b > 255 else if n == 5 then a >= b else if n == 6 then a % 2 == 1 else if n == 7 then b >= a else a > 127
  }

  /** 8XY4 to 8XY7 and 8XYE: the result in VX, then the flag in VF, which wins if
      they are the same register. */
  lemma ArithmeticEffect(m: Machine, w: nat, rand: nat -> Byte)
    requires Runs(m, w) && w / 4096 == 8 && w % 16 >= 4
    ensures var (n, x, a, b) := (w % 16, w / 256 % 16, m.v[w / 256 % 16], m.v[w / 16 % 16]);
      Step(m, rand) == Done(m.(pc := m.pc + 2, v := m.v[x := Exact(n, a, b) % 256][15 := if Flag(n, a, b) then 1 else 0]))
  {
    hide Sys, Draw, Misc, Deferred, And, Or, Xor, LeftOver, Low, Exact, Flag;
    StepRuns(m, w, rand);
    ArithmeticWord(m, w);
    LowExact(w % 16, m.v[w / 256 % 16], m.v[w / 16 % 16]);
  }

  lemma ArithmeticWord(m: Machine, w: nat)
    requires |m.v| == 16 && !LeftOver(m, w) && w / 4096 == 8
    ensures w % 16 <= 7 || w % 16 == 14
  {
  }

  lemma LowExact(n: nat, a: Byte, b: Byte)
    ensures n == 4 ==> Exact(n, a, b) % 256 == Low(a + b) && Flag(n, a, b) == (a + b >= 256)
    ensures n == 5 ==> Exact(n, a, b) % 256 == Low(a - b) && Flag(n, a, b) == (a >= b)
    ensures n == 6 ==> Exact(n, a, b) % 256 == a / 2 && Flag(n, a, b) == (a % 2 == 1)
    ensures n == 7 ==> Exact(n, a, b) % 256 == Low(b - a) && Flag(n, a, b) == (b >= a)
    ensures n == 14 ==> Exact(n, a, b) % 256 == Low(a * 2) && Flag(n, a, b) == (a >= 128)
  {
  }

  // ----- timers, keys, index and memory -----

  /** FX07, FX15, FX18, FX1E, FX29 and FX30. */
  lemma TimerEffect(m: Machine, w: nat, rand: nat -> Byte)
    requires Runs(m, w) && w / 4096 == 15
    ensures var (x, n) := (w / 256 % 16, m.(pc := m.pc + 2));
      var a: int := m.v[x];
      && (w % 256 == 0x07 ==> Step(m, rand) == Done(n.(v := m.v[x := m.dt % 256])))
      && (w % 256 == 0x15 ==> Step(m, rand) == Done(n.(dt := a)))
      && (w % 256 == 0x18 ==> Step(m, rand) == Done(n.(st := a, bell := m.bell || (m.st == 0 && a != 0))))
      && (w % 256 == 0x1E ==> var s := m.i + a;
        Step(m, rand) == Done(n.(i := if s >= 0 then s % 0x1_0000 else -((-s) % 0x1_0000))))
      && (w % 256 == 0x29 ==> Step(m, rand) == Done(n.(i := 5 * a)))
      && (w % 256 == 0x30 ==> Step(m, rand) == Done(n.(i := 80 + 10 * a)))
  {
    hide Sys, Draw, Alu, Deferred, LeftOver, TrailingZeros, Digits, Overlay;
    StepRuns(m, w, rand);
  }

  /** `k` is the lowest set bit of `n`. */
  ghost predicate Lowest(n: int, k: nat) {
    n / Pow2(k) % 2 == 1 && forall j: nat | j < k :: n / Pow2(j) % 2 == 0
  }

  /** FX0A stores the least key that is down. */
  lemma KeyEffect(m: Machine, w: nat, rand: nat -> Byte, k: nat)
    requires Runs(m, w) && w / 4096 == 15 && w % 256 == 0x0A && Lowest(m.keys, k)
    ensures Step(m, rand) == Done(m.(pc := m.pc + 2, v := m.v[w / 256 % 16 := k % 256]))
  {
    hide Sys, Draw, Alu, Deferred, LeftOver, TrailingZeros, Digits, Overlay, Lowest;
    StepRuns(m, w, rand);
    LowestIs(m.keys, k);
  }

  /** FX33: the decimal digits of VX. */
  lemma DigitsEffect(m: Machine, w: nat, rand: nat -> Byte)
    requires Runs(m, w) && w / 4096 == 15 && w % 256 == 0x33
    ensures 0 <= m.i <= 4093
    ensures var a: int := m.v[w / 256 % 16];
      Step(m, rand) == Done(m.(pc := m.pc + 2, mem := m.mem[m.i := a / 100][m.i + 1 := a / 10 % 10][m.i + 2 := a % 10]))
  {
    hide Sys, Draw, Alu, Deferred, TrailingZeros, Overlay;
    StepRuns(m, w, rand);
    var a: int := m.v[w / 256 % 16];
    assert a / 100 % 10 == a / 100;
  }

  /** FX55 copies V0 to VX into memory from I on, FX65 back; I stays. */
  lemma CopyEffect(m: Machine, w: nat, rand: nat -> Byte)
    requires Runs(m, w) && w / 4096 == 15 && w % 256 in {0x55, 0x65}
    ensures var x := w / 256 % 16;
      && 0 <= m.i <= 4095 - x
      && Step(m, rand).Done?
      && var t := Step(m, rand).m;
      && t == m.(pc := m.pc + 2, mem := t.mem, v := t.v) && |t.mem| == 4096 && |t.v| == 16
      && (w % 256 == 0x55 ==> t.v == m.v && forall p | 0 <= p < 4096 ::
        t.mem[p] == if m.i <= p <= m.i + x then m.v[p - m.i] else m.mem[p])
      && (w % 256 == 0x65 ==> t.mem == m.mem && forall k | 0 <= k < 16 ::
        t.v[k] == if k <= x then m.mem[m.i + k] else m.v[k])
  {
    hide Sys, Draw, Alu, Deferred, TrailingZeros, Digits;
    StepRuns(m, w, rand);
  }

  // ----- bits -----

  lemma Quotient(n: int, d: int, q: int, r: int)
    requires d > 0 && n == q * d + r && 0 <= r < d
    ensures n / d == q
  {
    var e := n / d - q;
    assert d * e == r - n % d;
    Multiple(d, e);
  }

  lemma Multiple(d: int, e: int)
    requires d > 0
    ensures e >= 1 ==> d * e >= d
    ensures e <= -1 ==> d * e <= -d
  {
  }

  /** Halving first and dividing then. */
  lemma HalfFirst(n: int, k: nat)
    requires k > 0
    ensures n / Pow2(k) == (n / 2) / Pow2(k - 1)
  {
    var (p, h) := (Pow2(k - 1), n / 2);
    var (q, r) := (h / p, h % p);
    assert Pow2(k) == 2 * p;
    assert h == q * p + r;
    assert n == q * (2 * p) + (2 * r + n % 2);
    Quotient(n, 2 * p, q, 2 * r + n % 2);
  }

  lemma {:induction false} LowestIs(n: int, k: nat)
    requires n != 0 && Lowest(n, k)
    ensures TrailingZeros(n) == k
    decreases k
  {
    assert n / Pow2(0) == n;
    if k > 0 {
      assert n / Pow2(0) % 2 == 0;
      HalfFirst(n, k);
      forall j: nat | j < k - 1
        ensures (n / 2) / Pow2(j) % 2 == 0
      {
        HalfFirst(n, j + 1);
        assert n / Pow2(j + 1) % 2 == 0;
      }
      LowestIs(n / 2, k - 1);
    }
  }

  /** Some key is down whenever the key word is not zero. */
  lemma {:induction false} LowestExists(n: int) returns (k: nat)
    requires n != 0
    ensures Lowest(n, k)
    ensures -0x8000_0000 <= n <= 0x7FFF_FFFF ==> k < 32
    decreases if n < 0 then -n else n
  {
    EightMore(7);
    EightMore(15);
    EightMore(23);
    assert Pow2(7) == 128;
    k := LowestBelow(n, 32);
  }

  lemma EightMore(k: nat)
    ensures Pow2(k + 8) == 256 * Pow2(k)
  {
    assert Pow2(k + 8) == 4 * Pow2(k + 6) && Pow2(k + 6) == 4 * Pow2(k + 4);
    assert Pow2(k + 4) == 4 * Pow2(k + 2) && Pow2(k + 2) == 4 * Pow2(k);
  }

  lemma {:induction false} LowestBelow(n: int, b: nat) returns (k: nat)
    requires n != 0
    ensures Lowest(n, k)
    ensures b > 0 && 0 <= n + Pow2(b - 1) < 2 * Pow2(b - 1) ==> k < b
    decreases if n < 0 then -n else n
  {
    assert n / Pow2(0) == n;
    if n % 2 == 1 {
      k := 0;
    } else {
      var j := LowestBelow(n / 2, if b > 0 then b - 1 else 0);
      k := j + 1;
      HalfFirst(n, k);
      forall i: nat | i < k
        ensures n / Pow2(i) % 2 == 0
      {
        if i > 0 {
          HalfFirst(n, i);
          assert (n / 2) / Pow2(i - 1) % 2 == 0;
        }
      }
    }
  }

  /** The digits of a number written as its last digit and the rest. */
  lemma DigitAt(d: nat, y: nat, k: nat)
    requires d < 2
    ensures (d + 2 * y) / Pow2(k) % 2 == if k == 0 then d else y / Pow2(k - 1) % 2
  {
    if k == 0 {
      assert Pow2(0) == 1;
    } else {
      HalfFirst(d + 2 * y, k);
      assert (d + 2 * y) / 2 == y;
    }
  }

  lemma Digit(a: nat, k: nat)
    ensures a / Pow2(k) % 2 == if k == 0 then a % 2 else (a / 2) / Pow2(k - 1) % 2
  {
    DigitAt(a % 2, a / 2, k);
  }

  lemma {:induction false} AndBits(a: nat, b: nat, n: nat, k: nat)
    requires k < n
    ensures AndDigits(a, b, n) / Pow2(k) % 2 == 1 <==> a / Pow2(k) % 2 == 1 && b / Pow2(k) % 2 == 1
  {
    var y := AndDigits(a / 2, b / 2, n - 1);
    assert AndDigits(a, b, n) == (if a % 2 == 1 && b % 2 == 1 then 1 else 0) + 2 * y;
    hide AndDigits, Pow2;
    DigitAt(if a % 2 == 1 && b % 2 == 1 then 1 else 0, y, k);
    Digit(a, k);
    Digit(b, k);
    if k > 0 { AndBits(a / 2, b / 2, n - 1, k - 1); }
  }

  lemma {:induction false} OrBits(a: nat, b: nat, n: nat, k: nat)
    requires k < n
    ensures OrDigits(a, b, n) / Pow2(k) % 2 == 1 <==> a / Pow2(k) % 2 == 1 || b / Pow2(k) % 2 == 1
  {
    var y := OrDigits(a / 2, b / 2, n - 1);
    assert OrDigits(a, b, n) == (if a % 2 == 1 || b % 2 == 1 then 1 else 0) + 2 * y;
    hide OrDigits, Pow2;
    DigitAt(if a % 2 == 1 || b % 2 == 1 then 1 else 0, y, k);
    Digit(a, k);
    Digit(b, k);
    if k > 0 { OrBits(a / 2, b / 2, n - 1, k - 1); }
  }

  lemma XorSplit(a: nat, b: nat, n: nat)
    requires n > 0
    ensures XorDigits(a, b, n) == (a + b) % 2 + 2 * XorDigits(a / 2, b / 2, n - 1)
    ensures (a + b) % 2 == 1 <==> a % 2 != b % 2
  {
  }

  lemma {:induction false} XorBits(a: nat, b: nat, n: nat, k: nat)
    requires k < n
    ensures XorDigits(a, b, n) / Pow2(k) % 2 == 1 <==> a / Pow2(k) % 2 != b / Pow2(k) % 2
  {
    hide XorDigits, Pow2;
    var (d, y) := ((a + b) % 2, XorDigits(a / 2, b / 2, n - 1));
    XorSplit(a, b, n);
    DigitAt(d, y, k);
    Digit(a, k);
    Digit(b, k);
    if k > 0 { XorBits(a / 2, b / 2, n - 1, k - 1); }
  }

  /** And, or and exclusive-or work bit by bit. */
  lemma LogicBits(a: Byte, b: Byte, k: nat)
    requires k < 8
    ensures And(a, b) / Pow2(k) % 2 == 1 <==> a / Pow2(k) % 2 == 1 && b / Pow2(k) % 2 == 1
    ensures Or(a, b) / Pow2(k) % 2 == 1 <==> a / Pow2(k) % 2 == 1 || b / Pow2(k) % 2 == 1
    ensures Xor(a, b) / Pow2(k) % 2 == 1 <==> a / Pow2(k) % 2 != b / Pow2(k) % 2
  {
    hide AndDigits, OrDigits, XorDigits, Pow2;
    AndBits(a, b, 8, k);
    OrBits(a, b, 8, k);
    XorBits(a, b, 8, k);
  }

  // ----- the screen -----

  /** Pixel at row `r` and column `c`. */
  function Pixel(m: Machine, r: nat, c: nat): Byte
    requires |m.fb| == 8192 && r < Tall(m) && c < Broad(m)
  {
    m.fb[r * Broad(m) + c]
  }

  function Tall(m: Machine): (n: nat)
    ensures n == 32 || n == 64
  {
    if m.hires then 64 else 32
  }

  function Broad(m: Machine): (n: nat)
    ensures n == 2 * Tall(m)
  {
    if m.hires then 128 else 64
  }

  /** The same machine after an instruction that changes the screen only. */
  ghost predicate ScreenStep(m: Machine, t: Machine) {
    |m.fb| == 8192 && |t.fb| == 8192 && t == m.(pc := m.pc + 2, fb := t.fb, dirty := true)
  }

  /** Outside the active screen nothing changes. */
  ghost predicate RestKept(m: Machine, t: Machine) {
    |m.fb| == 8192 && |t.fb| == 8192 && forall p | Tall(m) * Broad(m) <= p < 8192 :: t.fb[p] == m.fb[p]
  }

  /** 00E0 clears, words of the first row that mean nothing are skipped over. */
  lemma ClearEffect(m: Machine, w: nat, rand: nat -> Byte)
    requires Runs(m, w) && w / 4096 == 0 && w !in {0x00EE, 0x00FB, 0x00FC} && w / 16 != 0x00C
    ensures Step(m, rand) == Done(if w == 0x00E0 then m.(pc := m.pc + 2, fb := Zeros(8192), dirty := true) else m.(pc := m.pc + 2))
  {
    hide Alu, Draw, Misc, Deferred, ScrollLeft, ScrollRight, ScrollDown;
    StepRuns(m, w, rand);
    FetchWord(m, w);
    if w / 256 % 16 == 0 { SmallWord(w); }
  }

  lemma ScrollStep(m: Machine, w: nat, rand: nat -> Byte)
    requires Runs(m, w) && (w in {0x00FB, 0x00FC} || w / 16 == 0x00C)
    ensures Cols(m.hires) == Broad(m) && Rows(m.hires) == Tall(m) && Tall(m) * Broad(m) <= 8192
    ensures Step(m, rand) == Done(m.(pc := m.pc + 2, dirty := true, fb :=
      if w == 0x00FB then ScrollRight(m.fb, Broad(m), Tall(m))
      else if w == 0x00FC then ScrollLeft(m.fb, Broad(m), Tall(m))
      else ScrollDown(m.fb, Broad(m), Tall(m), w % 16)))
  {
    hide Alu, Draw, Misc, Deferred, ScrollLeft, ScrollRight, ScrollDown;
    StepRuns(m, w, rand);
  }

  lemma Cell(r: nat, c: nat, w: nat, h: nat)
    requires (w == 64 || w == 128) && h == w / 2 && r < h && c < w
    ensures r * w + c < h * w <= 8192 && (r * w + c) % w == c && (r * w + c) / w == r
  {
  }

  /** 00FB moves every row four columns to the right, zeros coming in. */
  lemma ScrollRightEffect(m: Machine, w: nat, rand: nat -> Byte)
    requires Runs(m, w) && w == 0x00FB
    ensures Step(m, rand).Done? && var t := Step(m, rand).m;
      && ScreenStep(m, t) && RestKept(m, t)
      && forall r: nat, c: nat | r < Tall(m) && c < Broad(m) :: Pixel(t, r, c) == if c < 4 then 0 else Pixel(m, r, c - 4)
  {
    hide Deferred, LeftOver, Exec;
    ScrollStep(m, w, rand);
    forall r: nat, c: nat | r < Tall(m) && c < Broad(m)
      ensures Pixel(Step(m, rand).m, r, c) == if c < 4 then 0 else Pixel(m, r, c - 4)
    {
      Cell(r, c, Broad(m), Tall(m));
    }
  }

  /** 00FC moves every row four columns to the left. */
  lemma ScrollLeftEffect(m: Machine, w: nat, rand: nat -> Byte)
    requires Runs(m, w) && w == 0x00FC
    ensures Step(m, rand).Done? && var t := Step(m, rand).m;
      && ScreenStep(m, t) && RestKept(m, t)
      && forall r: nat, c: nat | r < Tall(m) && c < Broad(m) ::
        Pixel(t, r, c) == if c + 4 >= Broad(m) then 0 else Pixel(m, r, c + 4)
  {
    hide Deferred, LeftOver, Exec;
    ScrollStep(m, w, rand);
    forall r: nat, c: nat | r < Tall(m) && c < Broad(m)
      ensures Pixel(Step(m, rand).m, r, c) == if c + 4 >= Broad(m) then 0 else Pixel(m, r, c + 4)
    {
      Cell(r, c, Broad(m), Tall(m));
      if c + 4 < Broad(m) { Cell(r, c + 4, Broad(m), Tall(m)); }
    }
  }

  /** 00CN moves the rows N down. */
  lemma ScrollDownEffect(m: Machine, w: nat, rand: nat -> Byte)
    requires Runs(m, w) && w / 16 == 0x00C
    ensures Step(m, rand).Done? && var t := Step(m, rand).m;
      && ScreenStep(m, t) && RestKept(m, t)
      && forall r: nat, c: nat | r < Tall(m) && c < Broad(m) ::
        Pixel(t, r, c) == if r < w % 16 then 0 else Pixel(m, r - w % 16, c)
  {
    hide Deferred, LeftOver, Exec, ScrollDown;
    ScrollStep(m, w, rand);
    var (n, b, h) := (w % 16, Broad(m), Tall(m));
    forall r: nat, c: nat | r < h && c < b
      ensures Pixel(Step(m, rand).m, r, c) == if r < n then 0 else Pixel(m, r - n, c)
    {
      DownAt(m.fb, n, b, h, r, c);
    }
    forall p | h * b <= p < 8192
      ensures Step(m, rand).m.fb[p] == m.fb[p]
    {
      DownRest(m.fb, n, b, h, p);
    }
  }

  lemma DownAt(fb: seq<Byte>, n: nat, w: nat, h: nat, r: nat, c: nat)
    requires |fb| == 8192 && (w == 64 || w == 128) && h == w / 2 && n < 16 && r < h && c < w
    ensures r * w + c < h * w <= 8192 && (r >= n ==> (r - n) * w + c < 8192)
    ensures ScrollDown(fb, w, h, n)[r * w + c] == if r < n then 0 else fb[(r - n) * w + c]
  {
    Cell(r, c, w, h);
    DownCell(r, c, n, w, h);
  }

  lemma DownRest(fb: seq<Byte>, n: nat, w: nat, h: nat, p: nat)
    requires |fb| == 8192 && (w == 64 || w == 128) && h == w / 2 && n < 16 && h * w <= p < 8192
    ensures ScrollDown(fb, w, h, n)[p] == fb[p]
  {
    DownCell(0, 0, n, w, h);
  }

  lemma DownCell(r: nat, c: nat, n: nat, w: nat, h: nat)
    requires (w == 64 || w == 128) && h == w / 2 && r < h && c < w && n < 16
    ensures n * w <= h * w
    ensures r < n ==> r * w + c < n * w
    ensures r >= n ==> r * w + c - n * w == (r - n) * w + c
  {
  }
}
