/** Receives, deadlines and wakeups: what a coroutine inside a receive does next,
    when a timed receive ends, who is woken and why, in what order senders wait,
    and when nothing can happen any more. */
module ActorReceives {
  import opened Prelude
  import opened ActorState
  import opened ActorInvariant
  import opened ActorHistory
  import opened ActorTheorems
  import opened ActorWakeups

  // ----- the next step of a receive -----

  /** A step of the receive that `c` is in. */
  predicate IsReceive(step: Step, c: Id) {
    (step.Take? || step.ParkRecv? || step.Resume?) && step.c == c
  }

  ghost predicate OnlyStep(s: State, c: Id, step: Step) {
    IsReceive(step, c) && Enabled(s, step) && forall other :: IsReceive(other, c) && Enabled(s, other) ==> other == step
  }

  /** A message is there for the plain receives: the oldest is taken. It is not:
      a timed receive gives up once its deadline has come, and sleeps on, for the
      same deadline, while it is ahead. */
  ghost function PlainNext(s: State, c: Id): Step
    requires c in s.cos && c in s.boxes && (s.cos[c].cont.RecvCheck? || s.cos[c].cont.RecvTimeoutCheck?)
  {
    var k := s.cos[c].cont;
    if |s.boxes[c].queue| > 0 then Take(c, 0)
    else if k.RecvTimeoutCheck? && s.now >= k.deadline then Resume(c, Idle)
    else ParkRecv(c, k)
  }

  /** A selective receive starts over when it was asleep; after a candidate it
      takes it, tries the next one, or sleeps if there is none. */
  ghost function MatchNext(s: State, c: Id): Step
    requires c in s.cos && c in s.boxes && s.cos[c].cont.MatchCheck? && -1 <= s.cos[c].cont.scan < |s.boxes[c].queue|
  {
    var MatchCheck(at, p) := s.cos[c].cont;
    var q := s.boxes[c].queue;
    if at >= 0 && p(q[at]) then Take(c, at)
    else if at + 1 < |q| then Resume(c, MatchCheck(at + 1, p))
    else ParkRecv(c, MatchCheck(-1, p))
  }

  ghost function ReceiveNext(s: State, c: Id): Step
    requires Linked(s) && c in s.cos && Receiving(s.cos[c].cont)
  {
    assert CoOk(s, c);
    if s.cos[c].cont.MatchCheck? then MatchNext(s, c) else PlainNext(s, c)
  }

  lemma QueuedKnown(s: State, c: Id)
    requires Placed(s) && c in s.boxes
    ensures forall k | 0 <= k < |s.boxes[c].queue| :: s.boxes[c].queue[k] < |s.place|
  {
    assert QueueOk(s, c);
  }

  /** A running coroutine inside a receive always has exactly one way on. */
  lemma ReceiveGoesOn(s: State, c: Id)
    requires Reachable(s) && Is(s, c, Running) && Receiving(s.cos[c].cont)
    ensures Linked(s) && OnlyStep(s, c, ReceiveNext(s, c))
  {
    hide Reachable, Scheduled, Placed, Ordered;
    ReachableConsistent(s);
    QueuedKnown(s, c);
    assert CoOk(s, c);
  }

  /** How a receive starts: on a mailbox that holds something a plain or timed one
      is over at once and a selective one tries the oldest message; on an empty one
      all sleep, a timed one until a deadline that is not past. */
  lemma ReceiveStarts(s: State, c: Id, k: Cont, i: nat)
    requires Reachable(s) && Is(s, c, Running) && s.cos[c].cont.Idle? && c in s.boxes
    ensures var full := |s.boxes[c].queue| > 0;
      && (Enabled(s, Take(c, i)) <==> full && i == 0)
      && (Enabled(s, Resume(c, k)) <==> full && k.MatchCheck? && k.scan == 0)
      && (Enabled(s, ParkRecv(c, k)) <==>
        !full && (k.RecvCheck? || (k.RecvTimeoutCheck? && k.deadline >= s.now) || (k.MatchCheck? && k.scan == -1)))
  {
    hide Reachable, Scheduled, Placed, Ordered, Linked;
    ReachableConsistent(s);
    QueuedKnown(s, c);
  }

  // ----- deadlines -----

  /** Asleep in a timed receive is asleep until its deadline. */
  ghost predicate TimedOk(co: Co) {
    co.cont.RecvTimeoutCheck? && co.status == Sleeping ==> !co.blocked && co.wakeTime == co.cont.deadline
  }

  ghost predicate Timed(s: State) {
    forall c :: c in s.cos ==> TimedOk(s.cos[c])
  }

  lemma TimedFrame(s: State, t: State)
    requires Timed(s)
    requires forall c :: c in t.cos ==>
      (c in s.cos && t.cos[c] == s.cos[c]) || t.cos[c].status != Sleeping || TimedOk(t.cos[c])
    ensures Timed(t)
  {
  }

  lemma StepTimed(s: State, step: Step)
    requires Timed(s) && Enabled(s, step)
    ensures Timed(Apply(s, step))
  {
    hide Timed, Remove, NoDup, RemoveAt, DieStep, SendStep, AttemptStep, TakeStep, FlushStep;
    match step
    case Take(c, k) => TakeTimed(s, c, k);
    case Flush(c) => FlushTimed(s, c);
    case Send(c, a) => SendTimed(s, c, a);
    case Retry(c) => AttemptTimed(s, c);
    case Die(c) => DieTimed(s, c);
    case _ => TimedFrame(s, Apply(s, step));
  }

  lemma TakeTimed(s: State, c: Id, k: nat)
    requires Timed(s) && Enabled(s, Take(c, k))
    ensures Timed(TakeStep(s, c, k))
  {
    hide Timed, Remove, RemoveAt;
    TimedFrame(s, TakeStep(s, c, k));
  }

  lemma FlushTimed(s: State, c: Id)
    requires Timed(s) && c in s.boxes
    ensures Timed(FlushStep(s, c))
  {
    hide Timed;
    TimedFrame(s, FlushStep(s, c));
  }

  lemma AttemptTimed(s: State, c: Id)
    requires Timed(s) && Attempting(s, c)
    ensures Timed(AttemptStep(s, c))
  {
    hide Timed, Remove;
    TimedFrame(s, AttemptStep(s, c));
  }

  lemma SendTimed(s: State, c: Id, a: Id)
    requires Timed(s) && MaySend(s, c, a)
    ensures Timed(SendStep(s, c, a))
  {
    hide Timed, AttemptStep;
    TimedFrame(s, IssueStep(s, c, a));
    AttemptTimed(IssueStep(s, c, a), c);
  }

  lemma DieTimed(s: State, c: Id)
    requires Timed(s) && MayDie(s, c)
    ensures Timed(DieStep(s, c))
  {
    hide Timed, Remove;
    TimedFrame(s, DieStep(s, c));
  }

  lemma {:induction false} RunTimed(steps: seq<Step>)
    ensures var r := Run(steps); r.Some? ==> Timed(r.value)
    decreases |steps|
  {
    if steps != [] {
      hide Timed, Enabled, Apply;
      RunTimed(steps[..|steps| - 1]);
      var r := Run(steps[..|steps| - 1]);
      if r.Some? && Enabled(r.value, steps[|steps| - 1]) {
        StepTimed(r.value, steps[|steps| - 1]);
      }
    }
  }

  /** A timed receiver asleep has its deadline as wake time, is on the timer list,
      and can be expired exactly from that time on. */
  lemma DeadlineIsWakeTime(s: State, c: Id)
    requires Reachable(s) && Is(s, c, Sleeping) && s.cos[c].cont.RecvTimeoutCheck?
    ensures var d := s.cos[c].cont.deadline;
      s.cos[c].wakeTime == d && c in s.timers && (Enabled(s, Expire(c)) <==> s.now >= d)
  {
    hide Run, Linked, Placed, Ordered;
    var steps :| Run(steps) == Some(s);
    RunTimed(steps);
    ReachableConsistent(s);
  }

  /** While a coroutine is in a timed receive its deadline stands. The receive ends
      by taking the oldest message, by the death of the coroutine, or without a
      message, and then on an empty mailbox when the deadline has come. */
  lemma TimedReceiveEnds(s: State, step: Step, c: Id)
    requires Reachable(s) && Enabled(s, step) && c in s.cos && s.cos[c].cont.RecvTimeoutCheck?
    ensures var (t, d) := (Apply(s, step), s.cos[c].cont.deadline);
      && c in t.cos
      && (t.cos[c].cont == s.cos[c].cont
          || (step == Take(c, 0) && t.cos[c].cont.Idle? && |LogOf(t, c)| == |LogOf(s, c)| + 1)
          || (step == Resume(c, Idle) && t.cos[c].cont.Idle? && LogOf(t, c) == LogOf(s, c)
              && c in s.boxes && s.boxes[c].queue == [] && s.now >= d)
          || (step == Die(c) && Is(t, c, Dead)))
  {
    hide Reachable, Scheduled, Placed, Ordered, Remove, RemoveAt, NoDup;
    ReachableConsistent(s);
    assert CoOk(s, c);
    if IsReceive(step, c) {
    } else if step == Die(c) {
    } else {
      TimedStill(s, step, c);
    }
  }

  /** Steps of others leave its continuation alone. */
  lemma TimedStill(s: State, step: Step, c: Id)
    requires Enabled(s, step) && c in s.cos && s.cos[c].cont.RecvTimeoutCheck? && !IsReceive(step, c) && step != Die(c)
    ensures c in Apply(s, step).cos && Apply(s, step).cos[c].cont == s.cos[c].cont
  {
    hide Remove, RemoveAt, NoDup, DieStep, AttemptStep;
    match step
    case Send(x, a) => AttemptStill(IssueStep(s, x, a), x, c);
    case Retry(x) => AttemptStill(s, x, c);
    case Die(x) => DieStill(s, x, c);
    case _ =>
  }

  lemma AttemptStill(s: State, x: Id, c: Id)
    requires Attempting(s, x) && c in s.cos && c != x
    ensures c in AttemptStep(s, x).cos && AttemptStep(s, x).cos[c].cont == s.cos[c].cont
  {
    hide Remove;
  }

  lemma DieStill(s: State, x: Id, c: Id)
    requires MayDie(s, x) && c in s.cos && c != x
    ensures c in DieStep(s, x).cos && DieStep(s, x).cos[c].cont == s.cos[c].cont
  {
    hide Remove;
  }

  // ----- who is woken, and why -----

  ghost predicate Room(s: State, a: Id) {
    a in s.boxes && |s.boxes[a].queue| < s.boxes[a].capacity
  }

  /** What wakes a sleeping coroutine `c`: its time has come; a message reaches the
      mailbox it waits on; a slot is freed and it is the first of the senders
      waiting for one; its target's mailbox is flushed or dies. */
  ghost predicate Woken(s: State, step: Step, c: Id)
    requires Enabled(s, step)
  {
    match step
    case Expire(x) => x == c
    case Send(_, a) => a == c && Room(s, c) && Waiting(s, c)
    case Retry(x) => s.cos[x].cont.target == c && Room(s, c) && Waiting(s, c)
    case Take(a, _) => |s.boxes[a].waiters| > 0 && s.boxes[a].waiters[0] == c
    case Flush(a) => c in s.boxes[a].waiters
    case Die(a) => a in s.boxes && c in s.boxes[a].waiters
    case _ => false
  }

  lemma SendWakes(s: State, x: Id, a: Id, c: Id)
    requires Linked(s) && Enabled(s, Send(x, a)) && Is(s, c, Sleeping)
    ensures c in Apply(s, Send(x, a)).cos
    ensures Apply(s, Send(x, a)).cos[c] == if Woken(s, Send(x, a), c) then s.cos[c].(status := Ready, blocked := false) else s.cos[c]
  {
    hide NoDup, Remove;
    assert a in s.boxes ==> BoxOk(s, a);
  }

  lemma RetryWakes(s: State, x: Id, c: Id)
    requires Linked(s) && Enabled(s, Retry(x)) && Is(s, c, Sleeping)
    ensures c in Apply(s, Retry(x)).cos
    ensures Apply(s, Retry(x)).cos[c] == if Woken(s, Retry(x), c) then s.cos[c].(status := Ready, blocked := false) else s.cos[c]
  {
    hide NoDup, Remove;
    var a := s.cos[x].cont.target;
    assert a in s.boxes ==> BoxOk(s, a);
  }

  lemma DieWakes(s: State, x: Id, c: Id)
    requires Linked(s) && MayDie(s, x) && Is(s, c, Sleeping) && x != c
    ensures c in Apply(s, Die(x)).cos
    ensures Apply(s, Die(x)).cos[c] == if Woken(s, Die(x), c) then s.cos[c].(status := Ready, blocked := false) else s.cos[c]
  {
    hide DieStep, NoDup, Remove;
    DieFacts(s, x);
    assert CoOk(s, c);
    assert x in s.boxes ==> BoxOk(s, x);
  }

  /** A sleeping coroutine is woken for exactly these reasons, and otherwise stays as
      it is, whatever the others do. */
  lemma WokenIff(s: State, step: Step, c: Id)
    requires Reachable(s) && Enabled(s, step) && Is(s, c, Sleeping) && step != Die(c)
    ensures c in Apply(s, step).cos
    ensures Apply(s, step).cos[c] == if Woken(s, step, c) then s.cos[c].(status := Ready, blocked := false) else s.cos[c]
  {
    hide Reachable, Scheduled, Placed, Ordered, Remove, RemoveAt, NoDup, DieStep, SendStep, AttemptStep;
    ReachableConsistent(s);
    match step
    case Send(x, a) => SendWakes(s, x, a, c);
    case Retry(x) => RetryWakes(s, x, c);
    case Die(x) => DieWakes(s, x, c);
    case Flush(x) => assert BoxOk(s, x);
    case _ =>
  }

  /** What those woken by others were doing. */
  lemma WokenFrom(s: State, step: Step, c: Id)
    requires Linked(s) && Enabled(s, step) && c in s.cos && Woken(s, step, c)
    ensures step.Send? || step.Retry? ==> Receiving(s.cos[c].cont)
    ensures step.Take? || step.Flush? || step.Die? ==> s.cos[c].cont.SendRetry?
  {
    hide NoDup;
    if step.Send? || step.Retry? {
      assert BoxOk(s, c);
    } else if step.Take? || step.Flush? || step.Die? {
      assert BoxOk(s, step.c) && c in s.boxes[step.c].waiters;
      assert IsWaiter(s, c, step.c);
    }
  }

  // ----- the life of a coroutine -----

  /** A send by `c` to `a` that is tried now has to wait. */
  ghost predicate Waits(s: State, a: Id) {
    a in s.boxes && !Room(s, a)
  }

  /** Status and continuation of `c` after a step: of its own, or of another. */
  ghost function LifeAfter(s: State, step: Step, c: Id): (Status, Cont)
    requires c in s.cos && Enabled(s, step)
  {
    var Co(status, _, _, cont) := s.cos[c];
    match step
    case Schedule(x) => if x == c then (Running, cont) else (status, cont)
    case Yield(x) => if x == c then (Ready, cont) else (status, cont)
    case SleepUntil(x, _) => if x == c then (Sleeping, Idle) else (status, cont)
    case Send(x, a) =>
      if x == c then if Waits(s, a) then (Sleeping, SendRetry(a, |s.sent|)) else (Running, Idle)
      else (if status == Sleeping && Woken(s, step, c) then Ready else status, cont)
    case Retry(x) =>
      if x == c then if Waits(s, cont.target) then (Sleeping, cont) else (Running, Idle)
      else (if status == Sleeping && Woken(s, step, c) then Ready else status, cont)
    case ParkRecv(x, k) => if x == c then (Sleeping, k) else (status, cont)
    case Resume(x, k) => if x == c then (Running, k) else (status, cont)
    case Take(x, _) => if x == c then (Running, Idle) else (if status == Sleeping && Woken(s, step, c) then Ready else status, cont)
    case Die(x) => if x == c then (Dead, Idle) else (if status == Sleeping && Woken(s, step, c) then Ready else status, cont)
    case _ => (if status == Sleeping && Woken(s, step, c) then Ready else status, cont)
  }

  lemma SendLife(s: State, x: Id, a: Id, c: Id)
    requires Linked(s) && Enabled(s, Send(x, a)) && c in s.cos
    ensures var t := Apply(s, Send(x, a)); c in t.cos && (t.cos[c].status, t.cos[c].cont) == LifeAfter(s, Send(x, a), c)
  {
    hide NoDup, Remove;
    assert a in s.boxes ==> BoxOk(s, a);
  }

  lemma RetryLife(s: State, x: Id, c: Id)
    requires Linked(s) && Enabled(s, Retry(x)) && c in s.cos
    ensures var t := Apply(s, Retry(x)); c in t.cos && (t.cos[c].status, t.cos[c].cont) == LifeAfter(s, Retry(x), c)
  {
    hide NoDup, Remove;
    var a := s.cos[x].cont.target;
    assert a in s.boxes ==> BoxOk(s, a);
  }

  lemma DieLife(s: State, x: Id, c: Id)
    requires Linked(s) && MayDie(s, x) && c in s.cos
    ensures var t := Apply(s, Die(x)); c in t.cos && (t.cos[c].status, t.cos[c].cont) == LifeAfter(s, Die(x), c)
  {
    hide DieStep, NoDup, Remove;
    DieFacts(s, x);
    assert CoOk(s, c);
    assert x in s.boxes ==> BoxOk(s, x);
  }

  /** Every step leaves every coroutine in the status and with the continuation that
      its life asks for. */
  lemma LifeGoesOn(s: State, step: Step, c: Id)
    requires Reachable(s) && Enabled(s, step) && c in s.cos
    ensures var t := Apply(s, step); c in t.cos && (t.cos[c].status, t.cos[c].cont) == LifeAfter(s, step, c)
  {
    hide Reachable, Scheduled, Placed, Ordered, Remove, RemoveAt, NoDup, DieStep, SendStep, AttemptStep;
    ReachableConsistent(s);
    match step
    case Send(x, a) => SendLife(s, x, a, c);
    case Retry(x) => RetryLife(s, x, c);
    case Die(x) => DieLife(s, x, c);
    case Flush(x) => assert BoxOk(s, x);
    case _ =>
  }

  /** A new coroutine is ready to run its own code; nothing else creates one. */
  lemma LifeBegins(s: State, step: Step, c: Id)
    requires Enabled(s, step) && c !in s.cos && c in Apply(s, step).cos
    ensures step == Spawn(c) || (step.SpawnActor? && step.c == c)
    ensures Is(Apply(s, step), c, Ready) && Apply(s, step).cos[c].cont.Idle?
  {
    hide Remove, RemoveAt, NoDup;
  }

  /** A sleep is not cut short: outside the actor operators a coroutine wakes only
      when its time has come. */
  lemma SleepRunsItsTime(s: State, step: Step, c: Id)
    requires Reachable(s) && Enabled(s, step) && Is(s, c, Sleeping) && s.cos[c].cont.Idle? && step != Die(c)
    ensures Is(Apply(s, step), c, Sleeping) || (step == Expire(c) && s.now >= s.cos[c].wakeTime)
  {
    hide Reachable, Scheduled, Placed, Ordered, Apply;
    WokenIff(s, step, c);
    ReachableConsistent(s);
    assert CoOk(s, c);
    if Woken(s, step, c) {
      WokenFrom(s, step, c);
    }
  }

  // ----- senders wait in line -----

  /** The line of senders after a step: one more at its end, one fewer at its head,
      nobody, or without a killed one; all others in their order. */
  ghost function LineAfter(s: State, step: Step, a: Id): seq<Id>
    requires a in s.boxes && Enabled(s, step)
  {
    var line := s.boxes[a].waiters;
    match step
    case Send(c, x) => if x == a && !Room(s, a) then line + [c] else line
    case Retry(c) => if s.cos[c].cont.target == a && !Room(s, a) then line + [c] else line
    case Take(c, _) => if c == a && line != [] then line[1..] else line
    case Flush(c) => if c == a then [] else line
    case Die(c) => Remove(line, c)
    case _ => line
  }

  lemma LineMoves(s: State, step: Step, a: Id)
    requires Reachable(s) && Enabled(s, step) && a in s.boxes && step != Die(a)
    ensures a in Apply(s, step).boxes && Apply(s, step).boxes[a].waiters == LineAfter(s, step, a)
  {
    hide Reachable, Remove, RemoveAt, DieStep, NoDup, Scheduled, Placed, Ordered;
    ReachableConsistent(s);
    assert BoxOk(s, a);
    hide Linked, AttemptStep, SendStep;
    match step
    case Send(c, x) => SendLine(s, c, x, a);
    case Retry(c) => AttemptLine(s, c, a);
    case Die(c) => DieLine(s, c, a);
    case _ =>
  }

  /** What an attempt to send does to the line and the size of any mailbox. */
  lemma AttemptLine(s: State, c: Id, a: Id)
    requires Attempting(s, c)
    ensures AttemptStep(s, c).boxes.Keys == s.boxes.Keys
    ensures a in s.boxes ==> var b := AttemptStep(s, c).boxes[a];
      && b.capacity == s.boxes[a].capacity
      && b.waiters == if s.cos[c].cont.target == a && !Room(s, a) then s.boxes[a].waiters + [c] else s.boxes[a].waiters
  {
    hide Remove;
  }

  lemma SendLine(s: State, c: Id, x: Id, a: Id)
    requires MaySend(s, c, x)
    ensures SendStep(s, c, x).boxes.Keys == s.boxes.Keys
    ensures a in s.boxes ==> var b := SendStep(s, c, x).boxes[a];
      && b.capacity == s.boxes[a].capacity
      && b.waiters == if x == a && !Room(s, a) then s.boxes[a].waiters + [c] else s.boxes[a].waiters
  {
    hide AttemptStep;
    AttemptLine(IssueStep(s, c, x), c, a);
  }

  lemma DieLine(s: State, c: Id, a: Id)
    requires MayDie(s, c) && a in s.boxes && a != c
    ensures a in DieStep(s, c).boxes && DieStep(s, c).boxes[a].waiters == Remove(s.boxes[a].waiters, c)
  {
    hide Remove;
  }

  /** A mailbox keeps its capacity, the one it was made with, empty, for a coroutine
      that is ready to run. */
  lemma CapacityStands(s: State, step: Step, a: Id)
    requires Reachable(s) && Enabled(s, step) && step != Die(a)
    ensures a in s.boxes ==> a in Apply(s, step).boxes && Apply(s, step).boxes[a].capacity == s.boxes[a].capacity
    ensures a !in s.boxes && a in Apply(s, step).boxes ==>
      step.SpawnActor? && step.c == a && Apply(s, step).boxes[a] == Mailbox([], step.capacity, None, [])
  {
    hide Reachable, Remove, RemoveAt, DieStep, AttemptStep, SendStep, NoDup, Scheduled, Placed, Ordered;
    ReachableConsistent(s);
    assert a in s.boxes ==> BoxOk(s, a);
    match step
    case Send(c, x) => SendLine(s, c, x, a);
    case Retry(c) => AttemptLine(s, c, a);
    case Die(c) => DieFacts(s, c);
    case _ =>
  }

  // ----- who is registered as a reader -----

  /** The reader of a mailbox after a step: its owner when it goes to sleep in a
      receive; nobody once a message arrives or the owner looks again. */
  ghost function ReaderAfter(s: State, step: Step, a: Id): Option<Id>
    requires a in s.boxes && Enabled(s, step)
  {
    var reader := s.boxes[a].reader;
    match step
    case ParkRecv(c, _) => if c == a then Some(a) else reader
    case Resume(c, _) => if c == a then None else reader
    case Take(c, _) => if c == a then None else reader
    case Send(_, x) => if x == a && Room(s, a) then None else reader
    case Retry(c) => if s.cos[c].cont.target == a && Room(s, a) then None else reader
    case _ => reader
  }

  lemma AttemptReader(s: State, c: Id, a: Id)
    requires Attempting(s, c) && a in s.boxes
    ensures a in AttemptStep(s, c).boxes
    ensures AttemptStep(s, c).boxes[a].reader == if s.cos[c].cont.target == a && Room(s, a) then None else s.boxes[a].reader
  {
    hide Remove;
  }

  lemma ReaderMoves(s: State, step: Step, a: Id)
    requires Linked(s) && Enabled(s, step) && a in s.boxes && step != Die(a)
    ensures a in Apply(s, step).boxes && Apply(s, step).boxes[a].reader == ReaderAfter(s, step, a)
  {
    assert BoxOk(s, a);
    hide Remove, RemoveAt, DieStep, AttemptStep, NoDup, Linked;
    match step
    case Send(c, x) => AttemptReader(IssueStep(s, c, x), c, a);
    case Retry(c) => AttemptReader(s, c, a);
    case Die(c) => DieFacts(s, c);
    case _ =>
  }

  /** A registered reader is asleep, or was woken by its deadline and has not looked
      into its mailbox yet. */
  ghost predicate ReaderOk(s: State, a: Id) {
    a in s.boxes && s.boxes[a].reader.Some? ==> a in s.cos && (s.cos[a].status == Sleeping || s.cos[a].cont.RecvTimeoutCheck?)
  }

  lemma StepReader(s: State, step: Step, a: Id)
    requires Reachable(s) && Enabled(s, step) && ReaderOk(s, a)
    ensures ReaderOk(Apply(s, step), a)
  {
    hide Reachable, Scheduled, Placed, Ordered, Apply, NoDup;
    ReachableConsistent(s);
    if step == Die(a) {
      DieFacts(s, a);
      DieIs(s, a);
    } else if a in s.boxes {
      ReaderMoves(s, step, a);
      assert BoxOk(s, a) && CoOk(s, a);
      LifeGoesOn(s, step, a);
      if s.boxes[a].reader.Some? && Is(s, a, Sleeping) && Woken(s, step, a) {
        WokenReader(s, step, a);
      }
    } else {
      hide Linked;
      CapacityStands(s, step, a);
    }
  }

  lemma DieIs(s: State, a: Id)
    requires MayDie(s, a)
    ensures Apply(s, Die(a)) == DieStep(s, a)
  {
  }

  /** A sleeping reader is woken by a message, or by its deadline. */
  lemma WokenReader(s: State, step: Step, a: Id)
    requires Linked(s) && Enabled(s, step) && a in s.boxes && s.boxes[a].reader.Some? && Is(s, a, Sleeping) && Woken(s, step, a)
    ensures step.Send? || step.Retry? || (step == Expire(a) && s.cos[a].cont.RecvTimeoutCheck?)
  {
    hide NoDup;
    assert BoxOk(s, a) && CoOk(s, a);
    WokenFrom(s, step, a);
  }

  lemma {:induction false} RunReaders(steps: seq<Step>, a: Id)
    ensures var r := Run(steps); r.Some? ==> ReaderOk(r.value, a)
    decreases |steps|
  {
    if steps != [] {
      hide ReaderOk, Enabled, Apply;
      RunReaders(steps[..|steps| - 1], a);
      var r := Run(steps[..|steps| - 1]);
      if r.Some? && Enabled(r.value, steps[|steps| - 1]) {
        StepReader(r.value, steps[|steps| - 1], a);
      }
    }
  }

  /** Who is registered: exactly the receivers asleep, and besides them only timed
      ones whose deadline has woken them. */
  lemma RegisteredIff(s: State, a: Id)
    requires Reachable(s) && a in s.boxes
    ensures Is(s, a, Sleeping) && Receiving(s.cos[a].cont) ==> s.boxes[a].reader == Some(a)
    ensures s.boxes[a].reader.Some? ==>
      && s.boxes[a].reader == Some(a)
      && ((Is(s, a, Sleeping) && Receiving(s.cos[a].cont)) || (a in s.cos && s.cos[a].cont.RecvTimeoutCheck?))
  {
    hide Run, Scheduled, Placed, Ordered, NoDup;
    var steps :| Run(steps) == Some(s);
    RunReaders(steps, a);
    ReachableConsistent(s);
    assert BoxOk(s, a) && CoOk(s, a);
  }

  // ----- when nothing can happen -----

  ghost predicate Asleep(s: State, c: Id) {
    c in s.cos && (s.cos[c].status == Dead || (s.cos[c].status == Sleeping && s.cos[c].blocked))
  }

  /** Nobody runs, is ready or on a timer exactly if all are dead or asleep until
      somebody else wakes them. */
  lemma QuietIff(s: State)
    requires Reachable(s)
    ensures Quiet(s) <==> forall c :: c in s.cos ==> Asleep(s, c)
  {
    hide Reachable, Linked, Placed, Ordered, NoDup;
    ReachableConsistent(s);
    if !Quiet(s) {
      if s.ready != [] {
        assert s.ready[0] in s.ready;
        assert !Asleep(s, s.ready[0]);
      } else if s.timers != [] {
        assert s.timers[0] in s.timers;
        assert !Asleep(s, s.timers[0]);
      } else {
        assert Is(s, s.running.value, Running) && !Asleep(s, s.running.value);
      }
    } else {
      forall c | c in s.cos
        ensures Asleep(s, c)
      {
        assert c !in s.ready && c !in s.timers;
        assert Is(s, c, Running) || Is(s, c, Ready) || Is(s, c, Sleeping) || Is(s, c, Dead);
      }
    }
  }

  /** A step of one of the coroutines that are there, or a timer. */
  predicate Internal(step: Step) {
    !step.Spawn? && !step.SpawnActor? && !step.Die? && !step.Tick?
  }

  ghost function Later(s: State, dt: nat): State {
    s.(now := s.now + dt)
  }

  /** A coroutine that goes to sleep until `d` can be woken by its timer exactly from
      that time on; time passes by ticks. */
  lemma SleepsUntil(s: State, c: Id, d: nat, dt: nat)
    requires Enabled(s, SleepUntil(c, d))
    ensures var t := Apply(s, SleepUntil(c, d));
      && Is(t, c, Sleeping) && t.now == s.now && Apply(t, Tick(dt)) == Later(t, dt)
      && (Enabled(Apply(t, Tick(dt)), Expire(c)) <==> s.now + dt >= d)
  {
  }

  /** Then they stay so, unless something comes from outside. */
  lemma QuietIsFinal(s: State, step: Step, dt: nat)
    requires Reachable(s) && Quiet(s) && Internal(step)
    ensures !Enabled(Later(s, dt), step)
  {
    hide Reachable, Linked, Placed, Ordered;
    ReachableConsistent(s);
    var c := step.c;
    assert !Is(s, c, Running) && c !in s.ready && c !in s.timers;
    assert !Is(s, c, Ready);
  }

  /** Otherwise somebody can go on, at the latest when a timer expires. */
  lemma SomebodyGoesOn(s: State)
    requires Reachable(s) && !Quiet(s)
    ensures exists step, dt: nat :: Internal(step) && Enabled(Later(s, dt), step)
  {
    hide Reachable, Linked, Placed, Ordered, ReceiveNext;
    ReachableConsistent(s);
    assert Later(s, 0) == s;
    if s.running.Some? {
      var c := s.running.value;
      assert Is(s, c, Running);
      var step := RunningNext(s, c);
      assert Internal(step) && Enabled(Later(s, 0), step);
    } else if s.ready != [] {
      assert s.ready[0] in s.ready;
      assert Internal(Schedule(s.ready[0])) && Enabled(Later(s, 0), Schedule(s.ready[0]));
    } else {
      var c := s.timers[0];
      assert c in s.timers;
      assert Internal(Expire(c)) && Enabled(Later(s, s.cos[c].wakeTime), Expire(c));
    }
  }

  /** A running coroutine always has a step. */
  lemma RunningNext(s: State, c: Id) returns (step: Step)
    requires Reachable(s) && Is(s, c, Running)
    ensures Internal(step) && Enabled(s, step)
  {
    hide Reachable, Scheduled, Linked, Ordered, ReceiveNext;
    var k := s.cos[c].cont;
    if Receiving(k) {
      ReceiveGoesOn(s, c);
      step := ReceiveNext(s, c);
    } else if k.SendRetry? {
      ReachableConsistent(s);
      assert PendingOk(s, c);
      step := Retry(c);
    } else {
      step := Yield(c);
    }
  }

  /** A send is possible to every actor, living or dead. */
  lemma SendPossible(s: State, c: Id, a: Id)
    requires Reachable(s) && Is(s, c, Running) && s.cos[c].cont.Idle?
    ensures Enabled(s, Send(c, a)) <==> a in s.boxes || Is(s, a, Dead)
  {
    hide Reachable, Scheduled, Linked, Ordered;
    ReachableConsistent(s);
  }
}
