/** Coroutines, mailboxes and the two scheduler lists, with the operations that
    the send, receive, timeout and selective-receive trampolines are made of. */
module ActorState {
  import opened Prelude

  type Id = int

  /** A message is named by the order in which it was issued. */
  type Msg = nat

  datatype Status = Running | Ready | Sleeping | Dead

  /** What a coroutine goes on with when it is next run: its own code, or one of
      the control operators with its companions from the exec stack. */
  datatype Cont =
    | Idle
    | SendRetry(target: Id, msg: Msg)
    | RecvCheck
    | RecvTimeoutCheck(deadline: nat)
    | MatchCheck(scan: int, pred: Msg -> bool)

  /** `blocked` is FlagBlocked: asleep until a targeted wakeup, on no timer. */
  datatype Co = Co(status: Status, blocked: bool, wakeTime: nat, cont: Cont)

  /** `reader` is m_blocked_reader; `waiters` the FIFO list of blocked senders. */
  datatype Mailbox = Mailbox(queue: seq<Msg>, capacity: nat, reader: Option<Id>, waiters: seq<Id>)

  datatype Sent = Sent(from: Id, to: Id)

  datatype Place = Pending | Queued | Received | Dropped

  /** A delivery to an actor's code; `plain` unless a selective receive made it. */
  datatype Entry = Entry(msg: Msg, plain: bool)

  /** `sent`, `place` and `log` are history: who sent each message to whom, where
      it is now, and what each actor has received. */
  datatype State = State(
    cos: map<Id, Co>,
    boxes: map<Id, Mailbox>,
    ready: seq<Id>,
    timers: seq<Id>,
    running: Option<Id>,
    now: nat,
    sent: seq<Sent>,
    place: seq<Place>,
    log: map<Id, seq<Entry>>)

  ghost predicate NoDup<T>(q: seq<T>) {
    forall i, j :: 0 <= i < j < |q| ==> q[i] != q[j]
  }

  function Remove<T(==)>(q: seq<T>, x: T): seq<T> {
    if q == [] then []
    else if q[0] == x then Remove(q[1..], x) else [q[0]] + Remove(q[1..], x)
  }

  function RemoveAt<T>(q: seq<T>, k: nat): seq<T>
    requires k < |q|
  {
    q[..k] + q[k + 1..]
  }

  lemma {:induction false} RemoveMembers<T>(q: seq<T>, x: T)
    ensures forall y :: y in Remove(q, x) <==> y in q && y != x
    ensures NoDup(q) ==> NoDup(Remove(q, x))
  {
    if q != [] {
      RemoveMembers(q[1..], x);
      if NoDup(q) && q[0] != x {
        assert q[0] !in q[1..];
        NoDupCons(q[0], Remove(q[1..], x));
      }
    }
  }

  lemma NoDupCons<T>(x: T, q: seq<T>)
    requires NoDup(q) && x !in q
    ensures NoDup([x] + q)
  {
  }

  lemma NoDupSnoc<T>(q: seq<T>, x: T)
    requires NoDup(q) && x !in q
    ensures NoDup(q + [x])
  {
  }

  lemma {:induction false} RemoveAbsent<T>(q: seq<T>, x: T)
    requires x !in q
    ensures Remove(q, x) == q
  {
    if q != [] {
      RemoveAbsent(q[1..], x);
    }
  }

  ghost predicate Is(s: State, c: Id, st: Status) {
    c in s.cos && s.cos[c].status == st
  }

  /** `c` has issued a send of `m` to `a` that is not complete. */
  ghost predicate Sending(s: State, c: Id, a: Id, m: Msg) {
    c in s.cos && s.cos[c].cont == SendRetry(a, m)
  }

  /** A sender to `a` that was woken and has not retried yet. */
  ghost predicate Due(s: State, c: Id, a: Id) {
    && c in s.cos && s.cos[c].cont.SendRetry? && s.cos[c].cont.target == a
    && (s.cos[c].status == Ready || s.cos[c].status == Running)
  }

  ghost function DueSet(s: State, a: Id): set<Id> {
    set c | c in s.cos && Due(s, c, a)
  }

  ghost function LogOf(s: State, a: Id): seq<Entry> {
    if a in s.log then s.log[a] else []
  }

  // ----- scheduler primitives -----

  /** coroutine_wake: leaves the timer list only if it was in a timed sleep. */
  ghost function Wake(s: State, w: Id): State {
    if Is(s, w, Sleeping) then
      s.(cos := s.cos[w := s.cos[w].(status := Ready, blocked := false)],
         timers := if s.cos[w].blocked then s.timers else Remove(s.timers, w),
         ready := s.ready + [w])
    else s
  }

  /** Wakes every coroutine of a list of blocked ones, in order; no timer is touched. */
  ghost function WakeBlocked(s: State, ws: seq<Id>): State {
    s.(cos := map c | c in s.cos ::
         if c in ws && s.cos[c].status == Sleeping then s.cos[c].(status := Ready, blocked := false) else s.cos[c],
       ready := s.ready + ws)
  }

  ghost function Continue(s: State, c: Id, k: Cont): State
    requires c in s.cos
  {
    s.(cos := s.cos[c := s.cos[c].(cont := k)])
  }

  /** Sleep until a targeted wakeup. */
  ghost function ParkBlocked(s: State, c: Id, k: Cont): State
    requires c in s.cos
  {
    s.(cos := s.cos[c := s.cos[c].(status := Sleeping, blocked := true, cont := k)], running := None)
  }

  /** Sleep until a deadline, or an earlier targeted wakeup. */
  ghost function ParkTimed(s: State, c: Id, k: Cont, deadline: nat): State
    requires c in s.cos
  {
    s.(cos := s.cos[c := s.cos[c].(status := Sleeping, blocked := false, wakeTime := deadline, cont := k)],
       timers := s.timers + [c], running := None)
  }

  ghost function SetBox(s: State, a: Id, b: Mailbox): State {
    s.(boxes := s.boxes[a := b])
  }

  ghost function SetPlace(s: State, m: Msg, p: Place): State
    requires m < |s.place|
  {
    s.(place := s.place[m := p])
  }

  // ----- the steps -----

  datatype Step =
    | Schedule(c: Id)
    | Yield(c: Id)
    | SleepUntil(c: Id, deadline: nat)
    | Spawn(c: Id)
    | SpawnActor(c: Id, capacity: nat)
    | Send(c: Id, target: Id)
    | Retry(c: Id)
    | Take(c: Id, k: nat)
    | ParkRecv(c: Id, next: Cont)
    | Resume(c: Id, next: Cont)
    | Flush(c: Id)
    | Die(c: Id)
    | Expire(c: Id)
    | Tick(dt: nat)

  /** The message is on the operand stack and the target among the companions of
      the retry. */
  ghost function IssueStep(s: State, c: Id, a: Id): State
    requires c in s.cos
  {
    Continue(s.(sent := s.sent + [Sent(c, a)], place := s.place + [Pending]), c, SendRetry(a, |s.sent|))
  }

  /** Put a message into the mailbox and wake the actor if it waits for one. */
  ghost function Deliver(s: State, a: Id, m: Msg): State
    requires a in s.boxes && m < |s.place|
  {
    var b := s.boxes[a];
    var s' := SetPlace(SetBox(s, a, b.(queue := b.queue + [m], reader := None)), m, Queued);
    if b.reader.Some? then Wake(s', b.reader.value) else s'
  }

  ghost predicate Attempting(s: State, c: Id) {
    Is(s, c, Running) && s.cos[c].cont.SendRetry? && s.cos[c].cont.msg < |s.place|
  }

  ghost predicate MaySend(s: State, c: Id, a: Id) {
    Is(s, c, Running) && s.cos[c].cont.Idle? && (a in s.boxes || Is(s, a, Dead)) && |s.place| == |s.sent|
  }

  /** The message of a pending send goes down with it. */
  ghost function DropPending(s: State, c: Id): State
    requires c in s.cos && s.cos[c].cont.SendRetry? && s.cos[c].cont.msg < |s.place|
  {
    SetPlace(Continue(s, c, Idle), s.cos[c].cont.msg, Dropped)
  }

  /** actor-send and its retry: drop on a dead target, complete if there is space,
      else join the tail of the waiter list and sleep. */
  ghost function AttemptStep(s: State, c: Id): State
    requires Attempting(s, c)
  {
    var SendRetry(a, m) := s.cos[c].cont;
    if a !in s.boxes then DropPending(s, c)
    else if |s.boxes[a].queue| < s.boxes[a].capacity then Deliver(Continue(s, c, Idle), a, m)
    else
      var b := s.boxes[a];
      ParkBlocked(SetBox(s, a, b.(waiters := b.waiters + [c])), c, s.cos[c].cont)
  }

  ghost function SendStep(s: State, c: Id, a: Id): State
    requires MaySend(s, c, a)
  {
    AttemptStep(IssueStep(s, c, a), c)
  }

  /** Draining a slot wakes the head waiter and advances the list. */
  ghost function WakeHead(s: State, a: Id): State
    requires a in s.boxes
  {
    var b := s.boxes[a];
    if b.waiters == [] then s else Wake(SetBox(s, a, b.(waiters := b.waiters[1..])), b.waiters[0])
  }

  /** The message at index `k` leaves the mailbox and its owner goes on with its
      own code. */
  ghost function TakeOut(s: State, c: Id, k: nat): State
    requires c in s.cos && c in s.boxes && k < |s.boxes[c].queue| && s.boxes[c].queue[k] < |s.place|
  {
    var b := s.boxes[c];
    var m := b.queue[k];
    var s' := SetPlace(SetBox(Continue(s, c, Idle), c, b.(queue := RemoveAt(b.queue, k), reader := None)), m, Received);
    s'.(log := s.log[c := LogOf(s, c) + [Entry(m, !s.cos[c].cont.MatchCheck?)]])
  }

  /** A plain or selective receive completes: the slot it frees goes to the head
      waiter. */
  ghost function TakeStep(s: State, c: Id, k: nat): State
    requires c in s.cos && c in s.boxes && k < |s.boxes[c].queue| && s.boxes[c].queue[k] < |s.place|
  {
    WakeHead(TakeOut(s, c, k), c)
  }

  /** Register as the mailbox's reader and sleep. */
  ghost function ParkRecvStep(s: State, c: Id, k: Cont): State
    requires c in s.cos && c in s.boxes
  {
    var s' := SetBox(s, c, s.boxes[c].(reader := Some(c)));
    if k.RecvTimeoutCheck? then ParkTimed(s', c, k, k.deadline) else ParkBlocked(s', c, k)
  }

  /** Go on without sleeping; a woken control operator first clears the reader. */
  ghost function ResumeStep(s: State, c: Id, k: Cont): State
    requires c in s.cos && c in s.boxes
  {
    Continue(SetBox(s, c, s.boxes[c].(reader := None)), c, k)
  }

  ghost function DropAll(s: State, q: seq<Msg>): State {
    s.(place := seq(|s.place|, m requires 0 <= m < |s.place| => if m in q then Dropped else s.place[m]))
  }

  /** actor-flush: drain the mailbox and wake every blocked sender. */
  ghost function FlushStep(s: State, c: Id): State
    requires c in s.boxes
  {
    var b := s.boxes[c];
    WakeBlocked(DropAll(SetBox(s, c, b.(queue := [], waiters := [])), b.queue), b.waiters)
  }

  /** coroutine_scrub_registrations: off every mailbox's list of blocked senders. */
  ghost function Scrub(s: State, c: Id): State {
    s.(boxes := map a | a in s.boxes :: s.boxes[a].(waiters := Remove(s.boxes[a].waiters, c)))
  }

  /** coroutine_cleanup_mailbox, if there is a mailbox. */
  ghost function CloseBox(s: State, c: Id): State {
    if c in s.boxes then
      var b := s.boxes[c];
      WakeBlocked(DropAll(s.(boxes := s.boxes - {c}), b.queue), b.waiters)
    else s
  }

  /** Off the scheduler's lists. */
  ghost function Bury(s: State, c: Id): State
    requires c in s.cos
  {
    s.(cos := s.cos[c := s.cos[c].(status := Dead, blocked := false, cont := Idle)],
       ready := Remove(s.ready, c), timers := Remove(s.timers, c),
       running := if s.running == Some(c) then None else s.running)
  }

  ghost predicate MayDie(s: State, c: Id) {
    && c in s.cos && s.cos[c].status != Dead
    && (s.cos[c].cont.SendRetry? ==> s.cos[c].cont.msg < |s.place|)
  }

  /** coroutine_kill, whatever the coroutine is doing: a send pending at it is
      forgotten together with its message, and nobody is woken for it. */
  ghost function DieStep(s: State, c: Id): State
    requires MayDie(s, c)
  {
    var u := if s.cos[c].cont.SendRetry? then DropPending(s, c) else s;
    Bury(CloseBox(Scrub(u, c), c), c)
  }

  /** Which receive operator may take index `k` now: a plain one the oldest
      message, a selective one the candidate its predicate has just accepted. */
  ghost predicate MayTake(s: State, c: Id, k: nat)
    requires c in s.cos && c in s.boxes
  {
    && k < |s.boxes[c].queue|
    && match s.cos[c].cont
       case Idle => k == 0
       case RecvCheck => k == 0
       case RecvTimeoutCheck(_) => k == 0
       case MatchCheck(scan, p) => k == scan && p(s.boxes[c].queue[k])
       case SendRetry(_, _) => false
  }

  /** When a receive operator goes to sleep, and as what. */
  ghost predicate MayParkRecv(s: State, c: Id, k: Cont)
    requires c in s.cos && c in s.boxes
  {
    var q := s.boxes[c].queue;
    match s.cos[c].cont
    case Idle =>
      q == [] && (k == RecvCheck || (k.RecvTimeoutCheck? && s.now <= k.deadline) || (k.MatchCheck? && k.scan == -1))
    case RecvCheck => q == [] && k == RecvCheck
    case RecvTimeoutCheck(d) => q == [] && s.now < d && k == RecvTimeoutCheck(d)
    case MatchCheck(scan, p) =>
      && k == MatchCheck(-1, p)
      && (if scan < 0 then q == [] else scan + 1 == |q| && !p(q[scan]))
    case SendRetry(_, _) => false
  }

  /** When a receive operator goes on without a message and without sleeping: a
      timeout, or the next candidate of a selective receive. */
  ghost predicate MayResume(s: State, c: Id, k: Cont)
    requires c in s.cos && c in s.boxes
  {
    var q := s.boxes[c].queue;
    match s.cos[c].cont
    case Idle => q != [] && k.MatchCheck? && k.scan == 0
    case RecvCheck => false
    case RecvTimeoutCheck(d) => q == [] && d <= s.now && k == Idle
    case MatchCheck(scan, p) =>
      if scan < 0 then q != [] && k == MatchCheck(0, p)
      else scan + 1 < |q| && !p(q[scan]) && k == MatchCheck(scan + 1, p)
    case SendRetry(_, _) => false
  }

  ghost predicate Enabled(s: State, step: Step) {
    match step
    case Schedule(c) => s.running.None? && Is(s, c, Ready)
    case Yield(c) => Is(s, c, Running) && (s.cos[c].cont.Idle? || s.cos[c].cont.MatchCheck?)
    case SleepUntil(c, d) => Is(s, c, Running) && s.cos[c].cont.Idle?
    case Spawn(c) => c !in s.cos
    case SpawnActor(c, n) => c !in s.cos && n > 0
    case Send(c, a) => MaySend(s, c, a)
    case Retry(c) => Attempting(s, c)
    case Take(c, k) =>
      Is(s, c, Running) && c in s.boxes && MayTake(s, c, k) && s.boxes[c].queue[k] < |s.place|
    case ParkRecv(c, k) => Is(s, c, Running) && c in s.boxes && MayParkRecv(s, c, k)
    case Resume(c, k) => Is(s, c, Running) && c in s.boxes && MayResume(s, c, k)
    case Flush(c) => Is(s, c, Running) && c in s.boxes && s.cos[c].cont.Idle?
    case Die(c) => MayDie(s, c)
    case Expire(c) => Is(s, c, Sleeping) && !s.cos[c].blocked && s.cos[c].wakeTime <= s.now
    case Tick(_) => true
  }

  ghost function Apply(s: State, step: Step): State
    requires Enabled(s, step)
  {
    match step
    case Schedule(c) =>
      s.(cos := s.cos[c := s.cos[c].(status := Running)], ready := Remove(s.ready, c), running := Some(c))
    case Yield(c) =>
      s.(cos := s.cos[c := s.cos[c].(status := Ready)], ready := s.ready + [c], running := None)
    case SleepUntil(c, d) => ParkTimed(s, c, Idle, d)
    case Spawn(c) =>
      s.(cos := s.cos[c := Co(Ready, false, 0, Idle)], ready := s.ready + [c])
    case SpawnActor(c, n) =>
      s.(cos := s.cos[c := Co(Ready, false, 0, Idle)], ready := s.ready + [c],
         boxes := s.boxes[c := Mailbox([], n, None, [])])
    case Send(c, a) => SendStep(s, c, a)
    case Retry(c) => AttemptStep(s, c)
    case Take(c, k) => TakeStep(s, c, k)
    case ParkRecv(c, k) => ParkRecvStep(s, c, k)
    case Resume(c, k) => ResumeStep(s, c, k)
    case Flush(c) => FlushStep(s, c)
    case Die(c) => DieStep(s, c)
    case Expire(c) => Wake(s, c)
    case Tick(dt) => s.(now := s.now + dt)
  }

  const INITIAL := State(map[], map[], [], [], None, 0, [], [], map[])

  /** The state after a run, if every step of it is enabled when its turn comes. */
  ghost function Run(steps: seq<Step>): Option<State>
    decreases |steps|
  {
    if steps == [] then Some(INITIAL)
    else
      var r := Run(steps[..|steps| - 1]);
      if r.None? || !Enabled(r.value, steps[|steps| - 1]) then None
      else Some(Apply(r.value, steps[|steps| - 1]))
  }
}
