/** The stack-frame walk: a Stks payload passes exactly if it is a list of legal
    frames, the first of them the dummy frame (section 4 of Quetzal 1.4). */
module QuetzalStacks {
  import opened Prelude
  import opened QuetzalBytes

  /** The low four flag bits count the locals; `words` are the locals and then
      the evaluation stack, two bytes each. */
  datatype Frame = Frame(ret: nat, flags: Byte, result: Byte, args: Byte, nstack: nat, words: seq<Byte>)

  datatype Problem =
    | ReservedFlags(frame: nat) | DummyNotZero | ArgsNotMask(frame: nat) | DiscardNames(frame: nat)
    | RunsPast(frame: nat) | Trailing(bytes: int) | NoFrames

  // ----- the scan -----

  function HeaderProblems(fr: Frame, k: nat): seq<Problem> {
    (if fr.flags >= 32 then [ReservedFlags(k)] else [])
    + (if k == 0 && !(fr.ret == 0 && fr.flags == 0 && fr.result == 0 && fr.args == 0) then [DummyNotZero] else [])
    + (if fr.args !in {0, 1, 3, 7, 15, 31, 63, 127} then [ArgsNotMask(k)] else [])
    + (if fr.flags / 16 % 2 == 1 && fr.result != 0 then [DiscardNames(k)] else [])
  }

  function WordBytes(flags: Byte, nstack: nat): nat {
    2 * (flags % 16) + 2 * nstack
  }

  /** The frame at `pos`, its words cut off where the payload ends. */
  function FrameAt(payload: seq<Byte>, pos: nat): (fr: Frame)
    requires pos + 8 <= |payload|
  {
    var flags := payload[pos + 3];
    var nstack := Be(payload, pos + 6, 2);
    Frame(Be(payload, pos, 3), flags, payload[pos + 4], payload[pos + 5], nstack,
      Slice(payload, pos + 8, pos + 8 + WordBytes(flags, nstack)))
  }

  function FrameLength(fr: Frame): (n: nat)
    ensures n >= 8
  {
    8 + WordBytes(fr.flags, fr.nstack)
  }

  function Scan(payload: seq<Byte>, pos: nat, k: nat): seq<Problem>
    decreases |payload| - pos
  {
    if pos + 8 <= |payload| then
      var fr := FrameAt(payload, pos);
      var next := pos + FrameLength(fr);
      HeaderProblems(fr, k) + (if next > |payload| then [RunsPast(k)] else Scan(payload, next, k + 1))
    else
      (if pos != |payload| then [Trailing(|payload| - pos)] else []) + (if k == 0 then [NoFrames] else [])
  }

  method CheckStks(payload: seq<Byte>) returns (problems: seq<Problem>)
    ensures problems == Scan(payload, 0, 0)
  {
    hide FrameAt, HeaderProblems;
    problems := [];
    var pos, frames := 0, 0;
    while pos + 8 <= |payload|
      invariant Scan(payload, 0, 0) == problems + Scan(payload, pos, frames)
      decreases |payload| - pos
    {
      var fr := FrameAt(payload, pos);
      var found := HeaderProblems(fr, frames);
      var next := pos + FrameLength(fr);
      ghost var rest := if next > |payload| then [RunsPast(frames)] else Scan(payload, next, frames + 1);
      assert Scan(payload, pos, frames) == found + rest;
      assert problems + (found + rest) == problems + found + rest;
      problems := problems + found;
      pos := next;
      if pos > |payload| {
        return problems + [RunsPast(frames)];
      }
      frames := frames + 1;
    }
    var last: seq<Problem> := if pos != |payload| then [Trailing(|payload| - pos)] else [];
    if frames == 0 {
      last := last + [NoFrames];
    }
    assert last == Scan(payload, pos, frames);
    problems := problems + last;
  }

  // ----- what a payload should be -----

  /** 2^n - 1: the first n of at most seven arguments were supplied. */
  ghost predicate Mask(args: Byte) {
    exists n: nat | n <= 7 :: args == Pow2(n) - 1
  }

  /** Frames as the format allows them, `k` counting from the oldest. */
  ghost predicate Legal(fr: Frame, k: nat) {
    && fr.ret < 0x1_00_0000 && fr.nstack < 0x1_0000 && |fr.words| == WordBytes(fr.flags, fr.nstack)
    && fr.flags < 32
    && Mask(fr.args)
    && (fr.flags >= 16 ==> fr.result == 0)
    && (k == 0 ==> fr.ret == 0 && fr.flags == 0 && fr.result == 0 && fr.args == 0)
  }

  ghost predicate AllLegal(frs: seq<Frame>, k: nat) {
    forall j | 0 <= j < |frs| :: Legal(frs[j], k + j)
  }

  function Written(fr: Frame): (s: seq<Byte>)
    ensures |s| == 8 + |fr.words|
  {
    Bytes(fr.ret, 3) + [fr.flags, fr.result, fr.args] + Bytes(fr.nstack, 2) + fr.words
  }

  function WrittenAll(frs: seq<Frame>): seq<Byte> {
    if frs == [] then [] else Written(frs[0]) + WrittenAll(frs[1..])
  }

  /** The argument mask 2^n - 1 spelled out. */
  lemma Masks(args: Byte)
    ensures args in {0, 1, 3, 7, 15, 31, 63, 127} <==> Mask(args)
  {
    assert Pow2(0) == 1 && Pow2(1) == 2 && Pow2(2) == 4 && Pow2(3) == 8;
    assert Pow2(4) == 16 && Pow2(5) == 32 && Pow2(6) == 64 && Pow2(7) == 128;
  }

  /** A complete frame has no header problem exactly if it is legal. */
  lemma HeaderLegal(fr: Frame, k: nat)
    requires fr.ret < 0x1_00_0000 && fr.nstack < 0x1_0000 && |fr.words| == WordBytes(fr.flags, fr.nstack)
    ensures HeaderProblems(fr, k) == [] <==> Legal(fr, k)
  {
    hide WordBytes, Mask;
    Masks(fr.args);
    var flags: int := fr.flags;
    assert flags < 32 ==> (flags / 16 % 2 == 1 <==> flags >= 16);
    var dummy := fr.ret == 0 && fr.flags == 0 && fr.result == 0 && fr.args == 0;
    assert HeaderProblems(fr, k) == [] <==>
      fr.flags < 32 && (k == 0 ==> dummy) && fr.args in {0, 1, 3, 7, 15, 31, 63, 127}
      && !(fr.flags / 16 % 2 == 1 && fr.result != 0);
  }

  /** A written frame is read back. */
  lemma FrameRead(payload: seq<Byte>, pos: nat, fr: Frame)
    requires fr.ret < 0x1_00_0000 && fr.nstack < 0x1_0000 && |fr.words| == WordBytes(fr.flags, fr.nstack)
    requires pos + FrameLength(fr) <= |payload| && payload[pos..pos + FrameLength(fr)] == Written(fr)
    ensures FrameAt(payload, pos) == fr
  {
    hide Bytes, Value, WordBytes;
    var n := FrameLength(fr);
    var s := payload[pos..pos + n];
    Sub(payload, pos, pos + n, 0, 3);
    Sub(payload, pos, pos + n, 6, 8);
    Sub(payload, pos, pos + n, 8, n);
    assert s[0..3] == Bytes(fr.ret, 3) && s[6..8] == Bytes(fr.nstack, 2) && s[8..n] == fr.words;
    assert s[3] == payload[pos + 3] && s[4] == payload[pos + 4] && s[5] == payload[pos + 5];
    assert Pow256(3) == 0x1_00_0000 && Pow256(2) == 0x1_0000;
    ValueOfBytes(fr.ret, 3);
    ValueOfBytes(fr.nstack, 2);
  }

  /** A complete frame is what was written for it. */
  lemma FrameWritten(payload: seq<Byte>, pos: nat)
    requires pos + 8 <= |payload| && pos + FrameLength(FrameAt(payload, pos)) <= |payload|
    ensures var fr := FrameAt(payload, pos);
      && fr.ret < 0x1_00_0000 && fr.nstack < 0x1_0000 && |fr.words| == WordBytes(fr.flags, fr.nstack)
      && payload[pos..pos + FrameLength(fr)] == Written(fr)
  {
    hide Bytes, Value, WordBytes;
    var fr := FrameAt(payload, pos);
    assert Pow256(3) == 0x1_00_0000 && Pow256(2) == 0x1_0000;
    BytesOfValue(payload[pos..pos + 3]);
    BytesOfValue(payload[pos + 6..pos + 8]);
    var n := FrameLength(fr);
    assert payload[pos..pos + n] ==
      payload[pos..pos + 3] + [fr.flags, fr.result, fr.args] + payload[pos + 6..pos + 8] + payload[pos + 8..pos + n];
  }

  /** Legal frames scan without a problem. */
  lemma {:induction false} WrittenPasses(payload: seq<Byte>, pos: nat, k: nat, frs: seq<Frame>)
    requires pos <= |payload| && AllLegal(frs, k) && payload[pos..] == WrittenAll(frs) && (k == 0 ==> frs != [])
    ensures Scan(payload, pos, k) == []
    decreases |frs|
  {
    hide FrameAt, HeaderProblems, Written, Legal;
    if frs != [] {
      var fr := frs[0];
      var n := FrameLength(fr);
      assert Legal(fr, k + 0);
      LegalSizes(fr, k);
      var s := payload[pos..];
      assert s == Written(fr) + WrittenAll(frs[1..]);
      assert payload[pos..pos + n] == s[..n] == Written(fr);
      assert payload[pos + n..] == s[n..] == WrittenAll(frs[1..]);
      FrameRead(payload, pos, fr);
      HeaderLegal(fr, k);
      forall j | 0 <= j < |frs| - 1
        ensures Legal(frs[1..][j], k + 1 + j)
      {
        assert Legal(frs[j + 1], k + (j + 1));
      }
      WrittenPasses(payload, pos + n, k + 1, frs[1..]);
    }
  }

  lemma LegalSizes(fr: Frame, k: nat)
    requires Legal(fr, k)
    ensures fr.ret < 0x1_00_0000 && fr.nstack < 0x1_0000 && |fr.words| == WordBytes(fr.flags, fr.nstack)
    ensures |Written(fr)| == FrameLength(fr)
  {
  }

  /** The frames of a payload. */
  function Frames(payload: seq<Byte>, pos: nat): seq<Frame>
    decreases |payload| - pos
  {
    if pos + 8 <= |payload| then
      var fr := FrameAt(payload, pos);
      [fr] + Frames(payload, pos + FrameLength(fr))
    else []
  }

  /** What scans without a problem is legal frames and nothing else. */
  lemma {:induction false} PassesWritten(payload: seq<Byte>, pos: nat, k: nat)
    requires pos <= |payload| && Scan(payload, pos, k) == []
    ensures var frs := Frames(payload, pos);
      AllLegal(frs, k) && payload[pos..] == WrittenAll(frs) && (k == 0 ==> frs != [])
    decreases |payload| - pos
  {
    hide FrameAt, HeaderProblems, Written, Legal;
    if pos + 8 <= |payload| {
      var fr := FrameAt(payload, pos);
      var next := pos + FrameLength(fr);
      assert HeaderProblems(fr, k) == [];
      assert next <= |payload| && Scan(payload, next, k + 1) == [];
      FrameWritten(payload, pos);
      HeaderLegal(fr, k);
      PassesWritten(payload, next, k + 1);
      var rest := Frames(payload, next);
      var frs := Frames(payload, pos);
      assert frs == [fr] + rest;
      forall j | 0 <= j < |frs|
        ensures Legal(frs[j], k + j)
      {
        if j > 0 {
          assert Legal(rest[j - 1], k + 1 + (j - 1));
        }
      }
      assert payload[pos..] == payload[pos..next] + payload[next..];
      assert frs[1..] == rest;
    }
  }

  /** The checker accepts exactly the payloads that are one or more legal frames. */
  lemma PassesIff(payload: seq<Byte>)
    ensures Scan(payload, 0, 0) == [] <==> exists frs :: frs != [] && AllLegal(frs, 0) && payload == WrittenAll(frs)
  {
    hide Scan, WrittenAll, Legal, Frames;
    assert payload[0..] == payload;
    if Scan(payload, 0, 0) == [] {
      PassesWritten(payload, 0, 0);
    }
    if exists frs :: frs != [] && AllLegal(frs, 0) && payload == WrittenAll(frs) {
      var frs :| frs != [] && AllLegal(frs, 0) && payload == WrittenAll(frs);
      WrittenPasses(payload, 0, 0, frs);
    }
  }

  // ----- which problem is reported for which bytes -----

  /** Bytes of the frame at `s`: header, locals, evaluation stack. */
  function SizeAt(payload: seq<Byte>, s: nat): (n: nat)
    requires s + 8 <= |payload|
    ensures n >= 8
  {
    var (flags: int, high: int, low: int) := (payload[s + 3], payload[s + 6], payload[s + 7]);
    8 + 2 * (flags % 16) + 2 * (256 * high + low)
  }

  const NOWHERE := -1

  /** Where frame `k` starts if all before it are complete. */
  function Start(payload: seq<Byte>, k: nat): (s: int)
    ensures s == NOWHERE || 0 <= s <= |payload|
  {
    if k == 0 then 0
    else
      var s := Start(payload, k - 1);
      if s == NOWHERE || s + 8 > |payload| || s + SizeAt(payload, s) > |payload| then NOWHERE else s + SizeAt(payload, s)
  }

  /** The header of frame `k` is there. */
  predicate Begun(payload: seq<Byte>, k: nat) {
    Start(payload, k) != NOWHERE && Start(payload, k) + 8 <= |payload|
  }

  /** What a problem says about the bytes of the payload. */
  ghost predicate Says(payload: seq<Byte>, p: Problem) {
    match p
    case ReservedFlags(k) => Begun(payload, k) && payload[Start(payload, k) + 3] >= 32
    case DummyNotZero => |payload| >= 8 && exists b | 0 <= b < 6 :: payload[b] != 0
    case ArgsNotMask(k) => Begun(payload, k) && !Mask(payload[Start(payload, k) + 5])
    case DiscardNames(k) =>
      Begun(payload, k) && payload[Start(payload, k) + 3] / 16 % 2 == 1 && payload[Start(payload, k) + 4] != 0
    case RunsPast(k) => Begun(payload, k) && Start(payload, k) + SizeAt(payload, Start(payload, k)) > |payload|
    case Trailing(n) => 0 < n < 8 && n <= |payload| && exists k: nat :: Start(payload, k) == |payload| - n
    case NoFrames => |payload| < 8
  }

  /** The frame that a problem is about; those of the whole payload come first or last. */
  predicate From(p: Problem, k: nat) {
    match p
    case ReservedFlags(j) => j >= k
    case DummyNotZero => k == 0
    case ArgsNotMask(j) => j >= k
    case DiscardNames(j) => j >= k
    case RunsPast(j) => j >= k
    case Trailing(_) => true
    case NoFrames => k == 0
  }

  /** About the header of frame `k`. */
  predicate OfHeader(p: Problem, k: nat) {
    match p
    case ReservedFlags(j) => j == k
    case DummyNotZero => k == 0
    case ArgsNotMask(j) => j == k
    case DiscardNames(j) => j == k
    case _ => false
  }

  /** Frame `k` is the last that starts. */
  predicate Last(payload: seq<Byte>, k: nat) {
    !Begun(payload, k) || Start(payload, k) + SizeAt(payload, Start(payload, k)) > |payload|
  }

  lemma {:induction false} NothingAfter(payload: seq<Byte>, k: nat, j: nat)
    requires Last(payload, k) && k < j
    ensures Start(payload, j) == NOWHERE
    decreases j
  {
    if j > k + 1 {
      NothingAfter(payload, k, j - 1);
    }
  }

  /** The fields that the scan reads, byte by byte. */
  lemma FrameBytes(payload: seq<Byte>, s: nat)
    requires s + 8 <= |payload|
    ensures var fr := FrameAt(payload, s);
      && FrameLength(fr) == SizeAt(payload, s)
      && fr.flags == payload[s + 3] && fr.result == payload[s + 4] && fr.args == payload[s + 5]
      && (fr.ret == 0 <==> payload[s] == 0 && payload[s + 1] == 0 && payload[s + 2] == 0)
  {
    hide Be;
    BeSpelled(payload, s);
    BeSpelled(payload, s + 6);
  }

  lemma HeaderSays(payload: seq<Byte>, s: nat, k: nat, p: Problem)
    requires s == Start(payload, k) && s + 8 <= |payload|
    ensures p in HeaderProblems(FrameAt(payload, s), k) <==> OfHeader(p, k) && Says(payload, p)
  {
    hide FrameAt, Mask, SizeAt, FrameLength, HeaderProblems;
    FrameBytes(payload, s);
    var fr := FrameAt(payload, s);
    Masks(fr.args);
    HeaderMembers(fr, k, p);
    if p.DummyNotZero? {
      DummySays(payload);
    }
  }

  lemma DummySays(payload: seq<Byte>)
    ensures Start(payload, 0) == 0
    ensures |payload| >= 8 ==> ((exists b | 0 <= b < 6 :: payload[b] != 0) <==>
      payload[0] != 0 || payload[1] != 0 || payload[2] != 0 || payload[3] != 0 || payload[4] != 0 || payload[5] != 0)
  {
  }

  lemma HeaderMembers(fr: Frame, k: nat, p: Problem)
    ensures p in HeaderProblems(fr, k) <==>
      || (p == ReservedFlags(k) && fr.flags >= 32)
      || (p == DummyNotZero && k == 0 && !(fr.ret == 0 && fr.flags == 0 && fr.result == 0 && fr.args == 0))
      || (p == ArgsNotMask(k) && fr.args !in {0, 1, 3, 7, 15, 31, 63, 127})
      || (p == DiscardNames(k) && fr.flags / 16 % 2 == 1 && fr.result != 0)
  {
  }

  /** Bytes trail exactly where the last complete frame ends. */
  lemma TrailingSays(payload: seq<Byte>, k: nat, n: int)
    requires Start(payload, k) != NOWHERE && Last(payload, k)
    ensures Says(payload, Trailing(n)) <==> 0 < n < 8 && Start(payload, k) == |payload| - n
  {
    hide SizeAt;
    if Says(payload, Trailing(n)) {
      var j: nat :| Start(payload, j) == |payload| - n;
      assert Last(payload, j);
      if j < k {
        NothingAfter(payload, j, k);
      } else if j > k {
        NothingAfter(payload, k, j);
      }
    }
  }

  /** The rest of the scan, where it ends. */
  lemma EndSays(payload: seq<Byte>, k: nat, p: Problem)
    requires Start(payload, k) != NOWHERE && Last(payload, k) && From(p, k) && Says(payload, p)
    ensures OfHeader(p, k) || p == RunsPast(k)
      || (p == Trailing(|payload| - Start(payload, k)) && !Begun(payload, k) && Start(payload, k) != |payload|)
      || (p == NoFrames && k == 0 && !Begun(payload, k))
  {
    hide SizeAt, Mask;
    match p
    case Trailing(n) => TrailingSays(payload, k, n);
    case NoFrames =>
    case DummyNotZero =>
    case ReservedFlags(j) => if j > k { NothingAfter(payload, k, j); }
    case ArgsNotMask(j) => if j > k { NothingAfter(payload, k, j); }
    case DiscardNames(j) => if j > k { NothingAfter(payload, k, j); }
    case RunsPast(j) => if j > k { NothingAfter(payload, k, j); }
  }

  lemma {:induction false} ScanSays(payload: seq<Byte>, pos: nat, k: nat, p: Problem)
    requires pos == Start(payload, k)
    ensures p in Scan(payload, pos, k) <==> From(p, k) && Says(payload, p)
    decreases |payload| - pos
  {
    hide FrameAt, HeaderProblems, SizeAt, Mask, FrameLength, Says;
    if pos + 8 <= |payload| {
      var fr := FrameAt(payload, pos);
      FrameBytes(payload, pos);
      HeaderSays(payload, pos, k, p);
      var next := pos + FrameLength(fr);
      if next <= |payload| {
        assert Start(payload, k + 1) == next;
        ScanSays(payload, next, k + 1, p);
        BegunSays(payload, k, p);
      } else {
        RunsPastSays(payload, k);
        if From(p, k) && Says(payload, p) { EndSays(payload, k, p); }
      }
    } else {
      EndIs(payload, k);
      if From(p, k) && Says(payload, p) { EndSays(payload, k, p); }
    }
  }

  /** A frame that is there and complete neither runs past nor ends the payload. */
  lemma BegunSays(payload: seq<Byte>, k: nat, p: Problem)
    requires Begun(payload, k) && !Last(payload, k)
    ensures !Says(payload, RunsPast(k)) && !Says(payload, NoFrames)
    ensures From(p, k) && Says(payload, p) <==> (OfHeader(p, k) || From(p, k + 1)) && Says(payload, p)
  {
    hide SizeAt, Mask;
  }

  lemma RunsPastSays(payload: seq<Byte>, k: nat)
    requires Begun(payload, k) && Last(payload, k)
    ensures Says(payload, RunsPast(k))
  {
    hide SizeAt;
  }

  lemma EndIs(payload: seq<Byte>, k: nat)
    requires Start(payload, k) != NOWHERE && !Begun(payload, k)
    ensures Start(payload, k) != |payload| ==> Says(payload, Trailing(|payload| - Start(payload, k)))
    ensures k == 0 ==> Says(payload, NoFrames)
    ensures !Says(payload, RunsPast(k))
    ensures forall p | OfHeader(p, k) :: !Says(payload, p)
  {
    hide SizeAt, Mask;
  }

  /** The problems reported are exactly those that the bytes show. */
  lemma ProblemsIff(payload: seq<Byte>, p: Problem)
    ensures p in Scan(payload, 0, 0) <==> Says(payload, p)
  {
    hide Says, Scan;
    ScanSays(payload, 0, 0, p);
  }

  // ----- in which order -----

  /** Frame by frame, then by kind; what is about the end comes last. */
  function Turn(p: Problem, end: nat): int {
    match p
    case ReservedFlags(k) => 10 * k
    case DummyNotZero => 1
    case ArgsNotMask(k) => 10 * k + 2
    case DiscardNames(k) => 10 * k + 3
    case RunsPast(k) => 10 * k + 4
    case Trailing(_) => 10 * end + 5
    case NoFrames => 10 * end + 6
  }

  ghost predicate Rising(ps: seq<Problem>, end: nat) {
    forall i, j | 0 <= i < j < |ps| :: Turn(ps[i], end) < Turn(ps[j], end)
  }

  ghost predicate Within(ps: seq<Problem>, end: nat, lo: int, hi: int) {
    forall i | 0 <= i < |ps| :: lo <= Turn(ps[i], end) < hi
  }

  lemma RisingPlus(a: seq<Problem>, b: seq<Problem>, end: nat, lo: int, mid: int, hi: int)
    requires Rising(a, end) && Rising(b, end) && Within(a, end, lo, mid) && Within(b, end, mid, hi) && lo <= mid <= hi
    ensures Rising(a + b, end) && Within(a + b, end, lo, hi)
  {
  }

  lemma HeaderRising(fr: Frame, k: nat, end: nat)
    ensures Rising(HeaderProblems(fr, k), end) && Within(HeaderProblems(fr, k), end, 10 * k, 10 * k + 4)
  {
  }

  lemma {:induction false} ScanRising(payload: seq<Byte>, pos: nat, k: nat)
    requires k <= pos <= |payload|
    ensures Rising(Scan(payload, pos, k), |payload|)
    ensures Within(Scan(payload, pos, k), |payload|, 10 * k, 10 * |payload| + 7)
    decreases |payload| - pos
  {
    hide FrameAt, HeaderProblems, FrameLength, Rising, Within;
    var end := |payload|;
    if pos + 8 <= |payload| {
      var fr := FrameAt(payload, pos);
      var next := pos + FrameLength(fr);
      var rest := if next > |payload| then [RunsPast(k)] else Scan(payload, next, k + 1);
      HeaderRising(fr, k, end);
      if next <= |payload| {
        ScanRising(payload, next, k + 1);
        WithinWider(rest, end, 10 * k + 10, 10 * k + 4, 10 * end + 7);
      } else {
        PastRising(k, end);
      }
      RisingPlus(HeaderProblems(fr, k), rest, end, 10 * k, 10 * k + 4, 10 * end + 7);
    } else {
      EndRising(payload, pos, k);
    }
  }

  lemma WithinWider(ps: seq<Problem>, end: nat, lo: int, less: int, hi: int)
    requires Within(ps, end, lo, hi) && less <= lo
    ensures Within(ps, end, less, hi)
  {
  }

  lemma PastRising(k: nat, end: nat)
    requires k <= end
    ensures Rising([RunsPast(k)], end) && Within([RunsPast(k)], end, 10 * k + 4, 10 * end + 7)
  {
  }

  lemma EndRising(payload: seq<Byte>, pos: nat, k: nat)
    requires k <= pos <= |payload| < pos + 8
    ensures Rising(Scan(payload, pos, k), |payload|)
    ensures Within(Scan(payload, pos, k), |payload|, 10 * k, 10 * |payload| + 7)
  {
  }

  /** They are reported frame by frame, each once. With ProblemsIff this fixes the list. */
  lemma ProblemsInOrder(payload: seq<Byte>)
    ensures Rising(Scan(payload, 0, 0), |payload|)
  {
    ScanRising(payload, 0, 0);
  }

  lemma {:induction false} RisingUnique(a: seq<Problem>, b: seq<Problem>, end: nat)
    requires Rising(a, end) && Rising(b, end) && forall p :: p in a <==> p in b
    ensures a == b
    decreases |a|
  {
    hide Rising;
    SomeMember(a);
    SomeMember(b);
    if a != [] {
      FirstSame(a, b, end);
      RestRises(a, end);
      RestRises(b, end);
      RisingUnique(a[1..], b[1..], end);
      assert a == [a[0]] + a[1..] && b == [b[0]] + b[1..];
    }
  }

  lemma FirstSame(a: seq<Problem>, b: seq<Problem>, end: nat)
    requires a != [] && b != [] && Rising(a, end) && Rising(b, end) && forall p :: p in a <==> p in b
    ensures a[0] == b[0]
  {
    assert a[0] in a && b[0] in b;
    var i :| 0 <= i < |b| && b[i] == a[0];
    var j :| 0 <= j < |a| && a[j] == b[0];
  }

  lemma RestRises(a: seq<Problem>, end: nat)
    requires a != [] && Rising(a, end)
    ensures Rising(a[1..], end) && forall p :: p in a[1..] <==> p in a && p != a[0]
  {
    forall p
      ensures p in a[1..] <==> p in a && p != a[0]
    {
      RestMembers(a, end, p);
    }
  }

  lemma SomeMember(b: seq<Problem>)
    ensures b != [] ==> exists p :: p in b
  {
    if b != [] {
      assert b[0] in b;
    }
  }

  lemma RestMembers(a: seq<Problem>, end: nat, p: Problem)
    requires a != [] && Rising(a, end)
    ensures p in a[1..] <==> p in a && p != a[0]
  {
    assert a == [a[0]] + a[1..];
  }

  /** So the report is the one list, in that order, of what the bytes show. */
  lemma ReportIs(payload: seq<Byte>, ps: seq<Problem>)
    ensures ps == Scan(payload, 0, 0) <==> Rising(ps, |payload|) && forall p :: p in ps <==> Says(payload, p)
  {
    hide Says, Scan, Rising;
    var r := Scan(payload, 0, 0);
    ProblemsInOrder(payload);
    forall p
      ensures p in r <==> Says(payload, p)
    {
      ProblemsIff(payload, p);
    }
    if Rising(ps, |payload|) && forall p :: p in ps <==> Says(payload, p) {
      RisingUnique(ps, r, |payload|);
    }
  }
}
