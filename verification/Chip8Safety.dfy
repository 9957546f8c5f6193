/** What holds in every state a CHIP-8 run can reach: registers stay in range,
    a changed screen is reported, and a call returns to where it was made. */
module Chip8Safety {
  import opened Prelude
  import opened Chip8Machine
  import opened Chip8Sprite
  import opened Chip8Theorems

  // ----- ranges -----

  /** A skip at the last fetchable address, 4094. */
  const PC_MAX := 4098

  ghost predicate Slots(stack: seq<int>) {
    forall k | 0 <= k < |stack| :: 0 <= stack[k] <= PC_MAX
  }

  ghost predicate InRange(m: Machine) {
    && Shaped(m)
    && 0 <= m.pc <= PC_MAX
    && Slots(m.stack)
    && 0 <= m.i < 0x10000 && 0 <= m.keys < 0x10000
  }

  lemma SysInRange(m: Machine, op: Ins)
    requires InRange(m) && op.n0 == 0 && (op.x == 0 && op.nn == 0xEE ==> m.sp > 0)
    ensures InRange(Sys(m, op))
  {
    hide ScrollRight, ScrollLeft, ScrollDown;
  }

  lemma SlotsPush(stack: seq<int>, k: nat, pc: int)
    requires Slots(stack) && k < |stack| && 0 <= pc <= PC_MAX
    ensures Slots(stack[k := pc])
  {
  }

  lemma MiscInRange(m: Machine, op: Ins)
    requires InRange(m) && op.x < 16 && op.n0 == 15 && !Deferred(m, op) && !(op.nn == 0x0A && m.keys == 0)
    ensures InRange(Misc(m, op))
  {
    hide TrailingZeros, Digits, Overlay, Deferred, Slots;
    MiscShaped(m, op);
  }

  lemma ExecInRange(m: Machine, op: Ins, rand: nat -> Byte)
    requires InRange(m) && m.pc <= 4096 && op.n0 < 16 && op.x < 16 && op.y < 16 && op.nnn < 4096 && !Deferred(m, op)
    requires !(op.n0 == 15 && op.nn == 0x0A && m.keys == 0)
    ensures InRange(Exec(m, op, rand))
  {
    hide And, Bit, Sys, Alu, Draw, Misc, Slots;
    if op.n0 == 2 {
      SlotsPush(m.stack, m.sp, m.pc);
    } else if op.n0 == 0 {
      SysInRange(m, op);
    } else if op.n0 == 8 {
      AluShaped(m, op);
    } else if op.n0 == 13 {
      DrawShaped(m, op);
    } else if op.n0 == 15 {
      MiscInRange(m, op);
    }
  }

  lemma StepInRange(m: Machine, rand: nat -> Byte)
    requires InRange(m)
    ensures Step(m, rand).Done? ==> InRange(Step(m, rand).m)
  {
    hide Exec, Deferred;
    if Step(m, rand).Done? {
      DeferIgnoresPc(m, Fetch(m));
      ExecInRange(m.(pc := m.pc + 2), Fetch(m), rand);
    }
  }

  // ----- the screen -----

  /** The screen only changes with a report, and pixels stay 0 or 1. */
  ghost predicate Reported(m: Machine, t: Machine) {
    && (t.fb != m.fb ==> t.dirty)
    && (m.dirty ==> t.dirty) && (m.bell ==> t.bell)
    && (Binary(m.fb) && Shaped(m) ==> Binary(t.fb))
    && t.hires == m.hires && t.keys == m.keys
  }

  lemma SysReported(m: Machine, op: Ins)
    requires Shaped(m) && op.n0 == 0 && (op.x == 0 && op.nn == 0xEE ==> m.sp > 0)
    ensures Reported(m, Sys(m, op))
  {
    hide ScrollRight, ScrollLeft, ScrollDown, Binary;
    if Binary(m.fb) {
      ScrollsBinary(m, op);
    }
  }

  /** Clearing and scrolling move pixels or write zeros. */
  lemma ScrollsBinary(m: Machine, op: Ins)
    requires Shaped(m) && Binary(m.fb)
    ensures var (cols, rows) := (Cols(m.hires), Rows(m.hires));
      && Binary(Zeros(FB_SIZE)) && Binary(ScrollRight(m.fb, cols, rows)) && Binary(ScrollLeft(m.fb, cols, rows))
      && Binary(ScrollDown(m.fb, cols, rows, op.nyb))
  {
  }

  lemma ExecReported(m: Machine, op: Ins, rand: nat -> Byte)
    requires Shaped(m) && op.n0 < 16 && op.x < 16 && op.y < 16 && op.nyb < 16 && !Deferred(m, op)
    requires !(op.n0 == 15 && op.nn == 0x0A && m.keys == 0)
    ensures Reported(m, Exec(m, op, rand))
  {
    hide Or, And, Xor, Sys, Draw, TrailingZeros, Bit, Digits, Overlay, Rem, Covers;
    if op.n0 == 0 {
      SysReported(m, op);
    } else if op.n0 == 13 {
      DrawMeaning(m, op);
    }
  }

  lemma StepReported(m: Machine, rand: nat -> Byte)
    requires Shaped(m)
    ensures Step(m, rand).Done? ==> Reported(m, Step(m, rand).m)
  {
    hide Exec, Deferred, Binary;
    if Step(m, rand).Done? {
      DeferIgnoresPc(m, Fetch(m));
      ExecReported(m.(pc := m.pc + 2), Fetch(m), rand);
    }
  }

  /** Every state of every run: in range, in the mode it started in, screen
      changes reported. */
  lemma {:induction false} AfterSafe(m: Machine, k: nat, rand: nat -> Byte)
    requires Shaped(m)
    ensures InRange(m) ==> InRange(After(m, k, rand))
    ensures Reported(m, After(m, k, rand))
    decreases k
  {
    hide Step, Binary;
    if k > 0 {
      var p := After(m, k - 1, rand);
      AfterSafe(m, k - 1, rand);
      if InRange(p) { StepInRange(p, rand); }
      StepReported(p, rand);
    }
  }

  /** The same for whole calls, whichever way they end. */
  lemma CallSafe(m: Machine, n: nat, rand: nat -> Byte)
    requires Shaped(m)
    ensures var r := Call(m, n, rand);
      && (InRange(m) ==> InRange(r.m))
      && Reported(Clean(m), r.m)
  {
    hide Step, After, Completes, Burst, Reported;
    var r := Call(m, n, rand);
    BurstExplained(Clean(m), n, rand);
    AfterSafe(Clean(m), if r.reason.KeyWait? then r.consumed - 1 else r.consumed, rand);
  }

  // ----- call discipline -----

  /** The next instruction is a CALL. */
  ghost predicate IsCall(m: Machine)
    requires Shaped(m)
  {
    Fetchable(m.pc) && Fetch(m).n0 == 2
  }

  ghost predicate IsReturn(m: Machine)
    requires Shaped(m)
  {
    Fetchable(m.pc) && Fetch(m).n0 == 0 && Fetch(m).x == 0 && Fetch(m).nn == 0xEE
  }

  /** What one completed instruction does to the call stack. */
  ghost predicate StackMove(m: Machine, t: Machine)
    requires Shaped(m)
  {
    if IsCall(m) then m.sp < STACK_SLOTS && t.sp == m.sp + 1 && t.stack == m.stack[m.sp := m.pc + 2] && t.pc == Fetch(m).nnn
    else if IsReturn(m) then m.sp > 0 && t.sp == m.sp - 1 && t.stack == m.stack && t.pc == m.stack[m.sp - 1]
    else t.sp == m.sp && t.stack == m.stack
  }

  lemma MiscStack(m: Machine, op: Ins)
    requires Shaped(m) && op.x < 16 && op.n0 == 15 && !Deferred(m, op) && !(op.nn == 0x0A && m.keys == 0)
    ensures Misc(m, op).sp == m.sp && Misc(m, op).stack == m.stack
  {
    hide TrailingZeros, Rem, Digits, Overlay, Deferred;
  }

  lemma ExecStack(m: Machine, op: Ins, rand: nat -> Byte)
    requires Shaped(m) && op.n0 < 16 && op.x < 16 && op.y < 16 && !Deferred(m, op)
    requires !(op.n0 == 15 && op.nn == 0x0A && m.keys == 0)
    ensures var t := Exec(m, op, rand);
      if op.n0 == 2 then m.sp < STACK_SLOTS && t.sp == m.sp + 1 && t.stack == m.stack[m.sp := m.pc] && t.pc == op.nnn
      else if op.n0 == 0 && op.x == 0 && op.nn == 0xEE then
        m.sp > 0 && t.sp == m.sp - 1 && t.stack == m.stack && t.pc == m.stack[m.sp - 1]
      else t.sp == m.sp && t.stack == m.stack
  {
    hide And, Bit, Alu, Draw, Misc, ScrollRight, ScrollLeft, ScrollDown;
    if op.n0 == 8 {
      AluShaped(m, op);
    } else if op.n0 == 13 {
      DrawShaped(m, op);
    } else if op.n0 == 15 {
      MiscStack(m, op);
    }
  }

  lemma StepStack(m: Machine, rand: nat -> Byte)
    requires Shaped(m)
    ensures Step(m, rand).Done? ==> StackMove(m, Step(m, rand).m)
  {
    hide Exec, Deferred;
    if Step(m, rand).Done? {
      DeferIgnoresPc(m, Fetch(m));
      ExecStack(m.(pc := m.pc + 2), Fetch(m), rand);
    }
  }

  /** The stack pointer stays at depth `d` or deeper up to step `k`. */
  ghost predicate Above(m: Machine, k: nat, d: int, rand: nat -> Byte)
    requires Shaped(m)
  {
    forall j: nat | j <= k :: After(m, j, rand).sp >= d
  }

  /** Slots below the least depth reached are never written. */
  lemma {:induction false} DeepSlotsKept(m: Machine, k: nat, d: int, rand: nat -> Byte)
    requires Shaped(m) && Above(m, k, d, rand) && 0 <= d
    ensures d <= m.sp && After(m, k, rand).stack[..d] == m.stack[..d]
    decreases k
  {
    hide Step;
    assert After(m, 0, rand).sp >= d;
    if k > 0 {
      var p := After(m, k - 1, rand);
      assert p.sp >= d;
      DeepSlotsKept(m, k - 1, d, rand);
      StepStack(p, rand);
    }
  }

  /** Whatever runs in between, the instruction that first brings the depth back
      to what it was at a call continues right after that call. */
  lemma ReturnResumes(m: Machine, t: Machine, k: nat, u: Machine, rand: nat -> Byte)
    requires Shaped(m) && IsCall(m) && Step(m, rand) == Done(t) && Shaped(t)
    requires Above(t, k, m.sp + 1, rand)
    requires Step(After(t, k, rand), rand) == Done(u) && u.sp == m.sp
    ensures IsReturn(After(t, k, rand)) && u.pc == m.pc + 2 && u.stack[..m.sp] == m.stack[..m.sp]
  {
    hide Step, After;
    var p := After(t, k, rand);
    StepStack(m, rand);
    StepStack(p, rand);
    DeepSlotsKept(t, k, m.sp + 1, rand);
    assert p.sp >= m.sp + 1;
    assert p.stack[..m.sp + 1][m.sp] == t.stack[..m.sp + 1][m.sp];
    assert p.stack[..m.sp] == p.stack[..m.sp + 1][..m.sp];
    assert t.stack[..m.sp] == t.stack[..m.sp + 1][..m.sp];
  }
}
