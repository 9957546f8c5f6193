/** Bursts of the CHIP-8 kernel: they split anywhere, the exit reasons mean what
    they say, and the arithmetic carries exact values. */
module Chip8Theorems {
  import opened Prelude
  import opened Chip8Machine

  // ----- bursts split anywhere -----

  /** The reports of an earlier call, or-ed into a later state. */
  function Report(m: Machine, dirty: bool, bell: bool): Machine {
    m.(dirty := m.dirty || dirty, bell := m.bell || bell)
  }

  function ReportTurn(t: Turn, dirty: bool, bell: bool): Turn {
    if t.Done? then Done(Report(t.m, dirty, bell)) else t
  }

  lemma SysReport(m: Machine, op: Ins, dirty: bool, bell: bool)
    requires Shaped(m) && op.n0 == 0 && (op.x == 0 && op.nn == 0xEE ==> m.sp > 0)
    ensures Sys(Report(m, dirty, bell), op) == Report(Sys(m, op), dirty, bell)
  {
    hide ScrollRight, ScrollLeft, ScrollDown;
  }

  lemma AluReport(m: Machine, op: Ins, dirty: bool, bell: bool)
    requires Shaped(m) && op.x < 16 && op.y < 16
    ensures Alu(Report(m, dirty, bell), op) == Report(Alu(m, op), dirty, bell)
  {
    hide Or, And, Xor, Low;
    if op.nyb <= 3 {
    } else if op.nyb <= 5 {
    }
  }

  lemma DrawReport(m: Machine, op: Ins, dirty: bool, bell: bool)
    requires Shaped(m) && op.x < 16 && op.y < 16 && InMem(m.i, SpriteBytes(op.nyb, m.hires))
    ensures Draw(Report(m, dirty, bell), op) == Report(Draw(m, op), dirty, bell)
  {
    hide ToggleAll, AnyHit, NarrowCells, WideCells;
    assert SpriteCells(Report(m, dirty, bell), op) == SpriteCells(m, op);
  }

  lemma DeferIgnoresReports(m: Machine, op: Ins, dirty: bool, bell: bool)
    requires |m.v| == 16 && op.x < 16
    ensures Deferred(Report(m, dirty, bell), op) == Deferred(m, op)
  {
  }

  lemma MiscReport(m: Machine, op: Ins, dirty: bool, bell: bool)
    requires Shaped(m) && op.x < 16 && op.n0 == 15 && !Deferred(m, op) && !(op.nn == 0x0A && m.keys == 0)
    requires !Deferred(Report(m, dirty, bell), op)
    ensures Misc(Report(m, dirty, bell), op) == Report(Misc(m, op), dirty, bell)
  {
    hide Misc, Deferred;
    if op.nn in {0x07, 0x0A, 0x65} {
      MiscRegisters(m, op, dirty, bell);
    } else if op.nn in {0x15, 0x18, 0x33, 0x55} {
      MiscTimers(m, op, dirty, bell);
    } else {
      MiscIndex(m, op, dirty, bell);
    }
  }

  lemma MiscRegisters(m: Machine, op: Ins, dirty: bool, bell: bool)
    requires Shaped(m) && op.x < 16 && op.n0 == 15 && !Deferred(m, op) && !(op.nn == 0x0A && m.keys == 0)
    requires !Deferred(Report(m, dirty, bell), op) && op.nn in {0x07, 0x0A, 0x65}
    ensures Misc(Report(m, dirty, bell), op) == Report(Misc(m, op), dirty, bell)
  {
    hide TrailingZeros, Overlay, Deferred, InMem;
  }

  lemma MiscTimers(m: Machine, op: Ins, dirty: bool, bell: bool)
    requires Shaped(m) && op.x < 16 && op.n0 == 15 && !Deferred(m, op) && !(op.nn == 0x0A && m.keys == 0)
    requires !Deferred(Report(m, dirty, bell), op) && op.nn in {0x15, 0x18, 0x33, 0x55}
    ensures Misc(Report(m, dirty, bell), op) == Report(Misc(m, op), dirty, bell)
  {
    hide Digits, Overlay, Deferred, InMem;
  }

  lemma MiscIndex(m: Machine, op: Ins, dirty: bool, bell: bool)
    requires Shaped(m) && op.x < 16 && op.n0 == 15 && !Deferred(m, op) && !(op.nn == 0x0A && m.keys == 0)
    requires !Deferred(Report(m, dirty, bell), op) && op.nn !in {0x07, 0x0A, 0x65, 0x15, 0x18, 0x33, 0x55}
    ensures Misc(Report(m, dirty, bell), op) == Report(Misc(m, op), dirty, bell)
  {
    hide Rem, InMem;
  }

  /** The conditional skips. */
  lemma SkipsReport(m: Machine, op: Ins, rand: nat -> Byte, dirty: bool, bell: bool)
    requires Shaped(m) && op.n0 in {3, 4, 5, 9, 14} && op.x < 16 && op.y < 16
    requires !Deferred(m, op) && !Deferred(Report(m, dirty, bell), op)
    ensures Exec(Report(m, dirty, bell), op, rand) == Report(Exec(m, op, rand), dirty, bell)
  {
    hide Bit, Sys, Alu, Draw, Misc;
  }

  /** The register loads. */
  lemma SetsReport(m: Machine, op: Ins, rand: nat -> Byte, dirty: bool, bell: bool)
    requires Shaped(m) && op.n0 in {6, 7, 12} && op.x < 16 && op.y < 16
    requires !Deferred(m, op) && !Deferred(Report(m, dirty, bell), op)
    ensures Exec(Report(m, dirty, bell), op, rand) == Report(Exec(m, op, rand), dirty, bell)
  {
    hide And, Sys, Alu, Draw, Misc;
  }

  /** Jumps, calls and the index register. */
  lemma JumpsReport(m: Machine, op: Ins, rand: nat -> Byte, dirty: bool, bell: bool)
    requires Shaped(m) && op.n0 in {1, 2, 10, 11} && op.x < 16 && op.y < 16
    requires !Deferred(m, op) && !Deferred(Report(m, dirty, bell), op)
    ensures Exec(Report(m, dirty, bell), op, rand) == Report(Exec(m, op, rand), dirty, bell)
  {
    hide Sys, Alu, Draw, Misc;
  }

  /** No instruction reads the reports, and each only ever sets them. */
  lemma ExecReport(m: Machine, op: Ins, rand: nat -> Byte, dirty: bool, bell: bool)
    requires Shaped(m) && op.n0 < 16 && op.x < 16 && op.y < 16 && !Deferred(m, op)
    requires !(op.n0 == 15 && op.nn == 0x0A && m.keys == 0)
    ensures !Deferred(Report(m, dirty, bell), op)
    ensures Exec(Report(m, dirty, bell), op, rand) == Report(Exec(m, op, rand), dirty, bell)
  {
    hide And, Bit, Sys, Alu, Draw, Misc, Skip, SetV;
    DeferIgnoresReports(m, op, dirty, bell);
    if op.n0 == 0 {
      SysReport(m, op, dirty, bell);
    } else if op.n0 == 8 {
      AluReport(m, op, dirty, bell);
    } else if op.n0 == 13 {
      DrawReport(m, op, dirty, bell);
    } else if op.n0 == 15 {
      MiscReport(m, op, dirty, bell);
    } else if op.n0 in {3, 4, 5, 9, 14} {
      SkipsReport(m, op, rand, dirty, bell);
    } else if op.n0 in {6, 7, 12} {
      SetsReport(m, op, rand, dirty, bell);
    } else {
      JumpsReport(m, op, rand, dirty, bell);
    }
  }

  lemma StepReport(m: Machine, rand: nat -> Byte, dirty: bool, bell: bool)
    requires Shaped(m)
    ensures Step(Report(m, dirty, bell), rand) == ReportTurn(Step(m, rand), dirty, bell)
  {
    hide Exec;
    if Step(m, rand).Done? {
      var m2 := m.(pc := m.pc + 2);
      DeferIgnoresPc(m, Fetch(m));
      ExecReport(m2, Fetch(m), rand, dirty, bell);
      assert Report(m, dirty, bell).(pc := m.pc + 2) == Report(m2, dirty, bell);
    }
  }

  lemma {:induction false} BurstReport(m: Machine, n: nat, rand: nat -> Byte, dirty: bool, bell: bool)
    requires Shaped(m)
    ensures var r := Burst(m, n, rand);
      Burst(Report(m, dirty, bell), n, rand) == Result(Report(r.m, dirty, bell), r.consumed, r.reason)
    decreases n
  {
    hide Step;
    if n > 0 {
      StepReport(m, rand, dirty, bell);
      StepShaped(m, rand);
      var t := Step(m, rand);
      if t.Done? {
        BurstReport(t.m, n - 1, rand, dirty, bell);
      }
    }
  }

  /** A burst is its first part and, if the budget was what ended that, the rest. */
  lemma {:induction false} BurstSplit(m: Machine, a: nat, b: nat, rand: nat -> Byte)
    requires Shaped(m)
    ensures var r := Burst(m, a, rand);
      var s := Burst(r.m, b, rand);
      Burst(m, a + b, rand) == if r.reason.Ok? then Result(s.m, r.consumed + s.consumed, s.reason) else r
    decreases a
  {
    hide Step;
    if a > 0 {
      StepShaped(m, rand);
      var t := Step(m, rand);
      if t.Done? {
        BurstSplit(t.m, a - 1, b, rand);
      }
    }
  }

  /** The second call's outcome seen from before the first: reports or-ed, counts added. */
  function Join(r: Result, s: Result): Result {
    Result(Report(s.m, r.m.dirty, r.m.bell), r.consumed + s.consumed, s.reason)
  }

  /** One call with budget a + b is a call with a, then a call with b. */
  lemma CallSplit(m: Machine, a: nat, b: nat, rand: nat -> Byte)
    requires Shaped(m)
    ensures var r := Call(m, a, rand);
      Call(m, a + b, rand) == if r.reason.Ok? then Join(r, Call(r.m, b, rand)) else r
  {
    hide Burst;
    var r := Call(m, a, rand);
    BurstSplit(Clean(m), a, b, rand);
    BurstReport(Clean(r.m), b, rand, r.m.dirty, r.m.bell);
    assert Report(Clean(r.m), r.m.dirty, r.m.bell) == r.m;
  }

  /** `n` calls of one instruction each, stopping at the first that does not end Ok. */
  function Singles(m: Machine, n: nat, rand: nat -> Byte): (r: Result)
    requires Shaped(m)
    decreases n
  {
    if n == 0 then Result(Clean(m), 0, Ok)
    else
      var r := Call(m, 1, rand);
      if r.reason.Ok? then Join(r, Singles(r.m, n - 1, rand)) else r
  }

  /** Any burst equals that many single-instruction calls, whatever the program
      writes into its own code. */
  lemma {:induction false} CallIsSingles(m: Machine, n: nat, rand: nat -> Byte)
    requires Shaped(m)
    ensures Call(m, n, rand) == Singles(m, n, rand)
    decreases n
  {
    hide Call, Join;
    if n > 0 {
      CallSplit(m, 1, n - 1, rand);
      CallIsSingles(Call(m, 1, rand).m, n - 1, rand);
    } else {
      CallNothing(m, rand);
    }
  }

  lemma CallNothing(m: Machine, rand: nat -> Byte)
    requires Shaped(m)
    ensures Call(m, 0, rand) == Result(Clean(m), 0, Ok)
  {
  }

  // ----- exit reasons -----

  /** The machine after `k` completed instructions, or where it first stopped. */
  function After(m: Machine, k: nat, rand: nat -> Byte): (r: Machine)
    requires Shaped(m)
    ensures Shaped(r) && r.hires == m.hires && r.keys == m.keys
    decreases k
  {
    if k == 0 then m
    else
      var p := After(m, k - 1, rand);
      StepShaped(p, rand);
      if Step(p, rand).Done? then Step(p, rand).m else p
  }

  /** The first `k` instructions all complete. */
  ghost predicate Completes(m: Machine, k: nat, rand: nat -> Byte)
    requires Shaped(m)
  {
    forall j: nat | j < k :: Step(After(m, j, rand), rand).Done?
  }

  lemma {:induction false} AfterFirst(m: Machine, k: nat, rand: nat -> Byte)
    requires Shaped(m) && Step(m, rand).Done?
    ensures Shaped(Step(m, rand).m)
    ensures After(m, k + 1, rand) == After(Step(m, rand).m, k, rand)
    decreases k
  {
    hide Step;
    StepShaped(m, rand);
    if k > 0 {
      AfterFirst(m, k - 1, rand);
    } else {
      assert After(m, 0, rand) == m;
    }
  }

  lemma CompletesFirst(m: Machine, k: nat, rand: nat -> Byte)
    requires Shaped(m) && Step(m, rand).Done? && Shaped(Step(m, rand).m)
    ensures Completes(m, k + 1, rand) == Completes(Step(m, rand).m, k, rand)
  {
    hide Step, After;
    var t := Step(m, rand).m;
    assert After(m, 0, rand) == m by { AfterZero(m, rand); }
    forall j: nat | j < k
      ensures After(m, j + 1, rand) == After(t, j, rand)
    {
      AfterFirst(m, j, rand);
    }
    if Completes(m, k + 1, rand) {
      forall j: nat | j < k
        ensures Step(After(t, j, rand), rand).Done?
      {
        assert Step(After(m, j + 1, rand), rand).Done?;
      }
    }
    if Completes(t, k, rand) {
      forall j: nat | j < k + 1
        ensures Step(After(m, j, rand), rand).Done?
      {
        if j > 0 {
          assert Step(After(t, j - 1, rand), rand).Done?;
        }
      }
    }
  }

  lemma AfterZero(m: Machine, rand: nat -> Byte)
    requires Shaped(m)
    ensures After(m, 0, rand) == m
  {
  }

  /** Ok: all `n` instructions completed. Otherwise the state is the one after
      the completed instructions, in front of the untouched next one; a key wait
      has consumed one unit of budget more. */
  ghost predicate Explained(m: Machine, n: nat, r: Result, rand: nat -> Byte)
    requires Shaped(m)
  {
    match r.reason
    case Ok => r.consumed == n && Completes(m, n, rand) && r.m == After(m, n, rand)
    case Deferral =>
      r.consumed < n && Completes(m, r.consumed, rand) && r.m == After(m, r.consumed, rand)
      && Step(r.m, rand).Defer?
    case KeyWait =>
      1 <= r.consumed <= n && Completes(m, r.consumed - 1, rand) && r.m == After(m, r.consumed - 1, rand)
      && Step(r.m, rand).Wait?
  }

  lemma {:induction false} BurstExplained(m: Machine, n: nat, rand: nat -> Byte)
    requires Shaped(m)
    ensures Explained(m, n, Burst(m, n, rand), rand)
    decreases n
  {
    hide Step, After, Completes;
    AfterZero(m, rand);
    CompletesZero(m, rand);
    if n > 0 {
      StepShaped(m, rand);
      var t := Step(m, rand);
      if t.Done? {
        BurstExplained(t.m, n - 1, rand);
        var r := Burst(t.m, n - 1, rand);
        var k: nat := if r.reason.KeyWait? then r.consumed - 1 else r.consumed;
        CompletesFirst(m, k, rand);
        AfterFirst(m, k, rand);
      }
    }
  }

  lemma CompletesZero(m: Machine, rand: nat -> Byte)
    requires Shaped(m)
    ensures Completes(m, 0, rand)
  {
  }

  /** The exit report has exactly one explanation. */
  lemma ExplanationUnique(m: Machine, n: nat, r: Result, s: Result, rand: nat -> Byte)
    requires Shaped(m) && Explained(m, n, r, rand) && Explained(m, n, s, rand)
    ensures r == s
  {
    hide Step, After;
    var a := Completed(r);
    var b := Completed(s);
    assert forall j: nat | j < a :: Step(After(m, j, rand), rand).Done?;
    assert forall j: nat | j < b :: Step(After(m, j, rand), rand).Done?;
  }

  /** Completed instructions of a report. */
  function Completed(r: Result): int {
    if r.reason.KeyWait? then r.consumed - 1 else r.consumed
  }

  /** The exit-reason contract of a call, and what a retry sees: with the same
      keys the same exit, nothing else changed. */
  lemma ExitContract(m: Machine, n: nat, rand: nat -> Byte)
    requires Shaped(m)
    ensures var r := Call(m, n, rand);
      && (forall s :: s == r <==> Explained(Clean(m), n, s, rand))
      && (r.reason.Ok? <==> Completes(Clean(m), n, rand))
      && (r.reason.KeyWait? ==> forall k: nat | k > 0 :: Call(r.m, k, rand) == Result(Clean(r.m), 1, KeyWait))
      && (r.reason.Deferral? ==> forall k: nat | k > 0 :: Call(r.m, k, rand) == Result(Clean(r.m), 0, Deferral))
  {
    hide Step, After, Completes;
    var r := Call(m, n, rand);
    BurstExplained(Clean(m), n, rand);
    forall s | Explained(Clean(m), n, s, rand)
      ensures s == r
    {
      ExplanationUnique(Clean(m), n, s, r, rand);
    }
    if Completes(Clean(m), n, rand) {
      var s := Result(After(Clean(m), n, rand), n, Ok);
      assert Explained(Clean(m), n, s, rand);
    }
    StepReport(Clean(r.m), rand, r.m.dirty, r.m.bell);
    assert Report(Clean(r.m), r.m.dirty, r.m.bell) == r.m;
  }

  // ----- carry and borrow -----

  /** Result and flag together carry the exact sum, difference or shift. */
  lemma AluArithmetic(m: Machine, op: Ins)
    requires Shaped(m) && op.x < 15 && op.y < 16
    ensures var t := Alu(m, op);
      var (a: int, b: int, r: int, f: int) := (m.v[op.x], m.v[op.y], t.v[op.x], t.v[15]);
      && (4 <= op.nyb <= 7 || op.nyb == 14 ==> 0 <= f <= 1)
      && (op.nyb == 4 ==> r + 256 * f == a + b)
      && (op.nyb == 5 ==> r == a - b + 256 * (1 - f))
      && (op.nyb == 6 ==> 2 * r + f == a)
      && (op.nyb == 7 ==> r == b - a + 256 * (1 - f))
      && (op.nyb == 14 ==> r + 256 * f == 2 * a)
  {
    hide Or, And, Xor, Low;
    var (a: int, b: int) := (m.v[op.x], m.v[op.y]);
    if op.nyb == 4 {
      LowIs(a + b);
    } else if op.nyb == 5 {
      LowIs(a - b);
    } else if op.nyb == 7 {
      LowIs(b - a);
    } else if op.nyb == 14 {
      LowIs(a * 2);
    }
  }

  lemma LowIs(n: int)
    requires -256 < n < 512
    ensures Low(n) == if n < 0 then n + 256 else if n >= 256 then n - 256 else n
  {
  }
}
