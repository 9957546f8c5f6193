/** Safety of the actor system over whole runs. */
module ActorTheorems {
  import opened Prelude
  import opened ActorState
  import opened ActorInvariant
  import opened ActorHistory

  ghost predicate Consistent(s: State) {
    Scheduled(s) && Linked(s) && Placed(s) && Ordered(s)
  }

  lemma StepConsistent(s: State, step: Step)
    requires Consistent(s) && Enabled(s, step)
    ensures Consistent(Apply(s, step))
    ensures NoLostWakeup(s) ==> (NoLostWakeup(Apply(s, step)) <==> StepSafe(s, step))
  {
    hide Scheduled, Linked, Placed, Ordered, NoLostWakeup, StepSafe, Enabled, Apply;
    StepScheduled(s, step);
    StepLinked(s, step);
    StepHistory(s, step);
    if NoLostWakeup(s) {
      StepNoLost(s, step);
    }
  }

  /** Every state of every run is consistent, whoever is killed in it. */
  lemma {:induction false} RunConsistent(steps: seq<Step>)
    ensures var r := Run(steps); r.Some? ==> Consistent(r.value)
    decreases |steps|
  {
    if steps == [] {
      assert Consistent(INITIAL);
    } else {
      hide Consistent, Enabled, Apply;
      RunConsistent(steps[..|steps| - 1]);
      var r := Run(steps[..|steps| - 1]);
      if r.Some? && Enabled(r.value, steps[|steps| - 1]) {
        StepConsistent(r.value, steps[|steps| - 1]);
      }
    }
  }

  ghost predicate Reachable(s: State) {
    exists steps :: Run(steps) == Some(s)
  }

  lemma ReachableConsistent(s: State)
    requires Reachable(s)
    ensures Consistent(s)
  {
    hide Consistent, Run;
    var steps :| Run(steps) == Some(s);
    RunConsistent(steps);
  }

  // ----- scheduler consistency -----

  lemma {:induction false} NoDupCount<T>(q: seq<T>, x: T)
    requires NoDup(q)
    ensures multiset(q)[x] == if x in q then 1 else 0
    decreases |q|
  {
    if q != [] {
      assert q == [q[0]] + q[1..];
      NoDupCount(q[1..], x);
    }
  }

  /** In every reachable state a coroutine is in the ready queue exactly once if
      Ready and not at all otherwise, and in the timer list exactly once if asleep
      without FlagBlocked and not at all otherwise. */
  lemma ListedExactlyOnce(s: State, c: Id)
    requires Reachable(s)
    ensures multiset(s.ready)[c] == if Is(s, c, Ready) then 1 else 0
    ensures multiset(s.timers)[c] == if Is(s, c, Sleeping) && !s.cos[c].blocked then 1 else 0
  {
    ReachableConsistent(s);
    NoDupCount(s.ready, c);
    NoDupCount(s.timers, c);
  }

  /** Waking a mailbox's waiters one by one with coroutine_wake. */
  ghost function WakeEach(s: State, ws: seq<Id>): State
    decreases |ws|
  {
    if ws == [] then s else WakeEach(Wake(s, ws[0]), ws[1..])
  }

  /** Death and flush may wake the whole waiter list without touching the timer
      list, because every waiter is asleep on FlagBlocked. */
  lemma {:induction false} WakeBlockedIsWakeEach(s: State, ws: seq<Id>)
    requires NoDup(ws) && forall w :: w in ws ==> Is(s, w, Sleeping) && s.cos[w].blocked
    ensures WakeBlocked(s, ws) == WakeEach(s, ws)
    decreases |ws|
  {
    hide NoDup;
    if ws == [] {
      assert WakeBlocked(s, ws).cos == s.cos;
      assert s.ready + [] == s.ready;
    } else {
      var (w, rest, t) := (ws[0], ws[1..], Wake(s, ws[0]));
      assert ws == [w] + rest;
      assert Is(s, w, Sleeping);
      NoDupRest(ws);
      WakeBlockedIsWakeEach(t, rest);
      assert WakeBlocked(t, rest).cos == WakeBlocked(s, ws).cos;
      assert (s.ready + [w]) + rest == s.ready + ws;
    }
  }

  lemma NoDupRest(ws: seq<Id>)
    requires NoDup(ws) && ws != []
    ensures NoDup(ws[1..]) && forall x :: x in ws[1..] ==> x in ws && x != ws[0]
  {
  }

  lemma CleanupMaySkipTimers(s: State, a: Id)
    requires Reachable(s) && a in s.boxes
    ensures WakeBlocked(s, s.boxes[a].waiters) == WakeEach(s, s.boxes[a].waiters)
    ensures forall x :: x in s.boxes[a].waiters ==> x !in s.timers && x !in s.ready
  {
    hide WakeBlocked, WakeEach;
    ReachableConsistent(s);
    assert BoxOk(s, a);
    forall x | x in s.boxes[a].waiters
      ensures Is(s, x, Sleeping) && s.cos[x].blocked && x !in s.timers && x !in s.ready
    {
      assert IsWaiter(s, x, a);
    }
    WakeBlockedIsWakeEach(s, s.boxes[a].waiters);
  }

  // ----- selective receive -----

  /** Whatever was sent between candidate evaluations, the message a selective
      receive removes is the first in queue order that satisfies the predicate,
      and the others keep their order. */
  lemma SelectiveTakesFirstMatch(s: State, c: Id, k: nat)
    requires Reachable(s) && Enabled(s, Take(c, k)) && s.cos[c].cont.MatchCheck?
    ensures var p := s.cos[c].cont.pred;
      var q := s.boxes[c].queue;
      var t := Apply(s, Take(c, k));
      && p(q[k]) && (forall i :: 0 <= i < k ==> !p(q[i]))
      && LogOf(t, c) == LogOf(s, c) + [Entry(q[k], false)]
      && c in t.boxes && t.boxes[c].queue == q[..k] + q[k + 1..]
  {
    hide Ordered, Placed, Scheduled, Remove, Reachable;
    ReachableConsistent(s);
    assert CoOk(s, c);
    var q := s.boxes[c].queue;
    assert forall i :: 0 <= i < k ==> q[..k][i] == q[i];
  }

  /** A selective receiver asleep has no matching message in its mailbox, and a
      plain receiver asleep has none at all. */
  lemma SleepingReceiverMissesNothing(s: State, c: Id)
    requires Reachable(s) && Is(s, c, Sleeping) && Receiving(s.cos[c].cont)
    ensures c in s.boxes && s.boxes[c].reader == Some(c)
    ensures forall i :: 0 <= i < |s.boxes[c].queue| ==>
      s.cos[c].cont.MatchCheck? && !s.cos[c].cont.pred(s.boxes[c].queue[i])
  {
    ReachableConsistent(s);
    assert CoOk(s, c);
  }

  // ----- conservation -----

  ghost predicate PendingSomewhere(s: State, m: Msg) {
    exists c, a :: Sending(s, c, a, m)
  }

  ghost predicate QueuedSomewhere(s: State, m: Msg) {
    exists a :: a in s.boxes && m in s.boxes[a].queue
  }

  ghost predicate ReceivedSomewhere(s: State, m: Msg) {
    exists a :: a in s.log && Logged(s.log[a], m)
  }

  /** Each message issued is in exactly one of four conditions: pending at its
      sender, in its target's mailbox, received by its target, or dropped. */
  lemma Conservation(s: State, m: Msg)
    requires Reachable(s) && m < |s.sent|
    ensures m < |s.place|
    ensures PendingSomewhere(s, m) <==> s.place[m] == Pending
    ensures QueuedSomewhere(s, m) <==> s.place[m] == Queued
    ensures ReceivedSomewhere(s, m) <==> s.place[m] == Received
    ensures forall c, a :: Sending(s, c, a, m) ==> s.sent[m] == Sent(c, a)
    ensures forall a :: a in s.boxes && m in s.boxes[a].queue ==> s.sent[m].to == a
    ensures forall a :: a in s.log && Logged(s.log[a], m) ==> s.sent[m].to == a
  {
    ReachableConsistent(s);
    assert PlaceOk(s, m);
    forall c, a | Sending(s, c, a, m)
      ensures s.sent[m] == Sent(c, a) && s.place[m] == Pending
    {
      assert PendingOk(s, c);
    }
    forall a | a in s.boxes && m in s.boxes[a].queue
      ensures s.sent[m].to == a && s.place[m] == Queued
    {
      assert QueueOk(s, a);
    }
    forall a | a in s.log && Logged(s.log[a], m)
      ensures s.sent[m].to == a && s.place[m] == Received
    {
      assert LogOk(s, a) && LogOf(s, a) == s.log[a];
    }
    if s.place[m] == Received {
      assert LogOf(s, s.sent[m].to) != [];
    }
  }

  /** What a step does to message `m`: it stays, or moves on by one stage for one
      of the reasons there are. */
  ghost predicate Moves(s: State, t: State, step: Step, m: Msg) {
    && m < |s.place| && m < |t.place| && m < |s.sent| && m < |t.sent| && t.sent[m] == s.sent[m]
    && var Sent(c, a) := s.sent[m];
       || t.place[m] == s.place[m]
       || (s.place[m] == Pending && t.place[m] == Queued && step == Retry(c) && a in s.boxes)
       || (s.place[m] == Pending && t.place[m] == Dropped && (step == Die(c) || (step == Retry(c) && a !in s.boxes)))
       || (s.place[m] == Queued && t.place[m] == Dropped && (step == Die(a) || step == Flush(a)))
       || (s.place[m] == Queued && t.place[m] == Received && step.Take? && step.c == a)
  }

  lemma RetryMoves(s: State, c: Id, m: Msg)
    requires Placed(s) && Attempting(s, c) && m < |s.sent|
    ensures Moves(s, AttemptStep(s, c), Retry(c), m)
  {
    hide Remove;
    assert PendingOk(s, c);
  }

  lemma SendMoves(s: State, c: Id, a: Id, m: Msg)
    requires Placed(s) && MaySend(s, c, a) && m < |s.sent|
    ensures Moves(s, SendStep(s, c, a), Send(c, a), m)
  {
    hide Remove, Placed;
    assert |s.place| == |s.sent|;
  }

  lemma TakeMoves(s: State, c: Id, k: nat, m: Msg)
    requires Placed(s) && Enabled(s, Take(c, k)) && m < |s.sent|
    ensures Moves(s, TakeStep(s, c, k), Take(c, k), m)
  {
    hide Remove, RemoveAt, NoDup;
    assert QueueOk(s, c);
  }

  lemma FlushMoves(s: State, c: Id, m: Msg)
    requires Placed(s) && c in s.boxes && m < |s.sent|
    ensures Moves(s, FlushStep(s, c), Flush(c), m)
  {
    hide NoDup;
    assert QueueOk(s, c);
  }

  lemma DieMoves(s: State, c: Id, m: Msg)
    requires Placed(s) && MayDie(s, c) && m < |s.sent|
    ensures Moves(s, DieStep(s, c), Die(c), m)
  {
    hide Remove, NoDup;
    assert c in s.boxes ==> QueueOk(s, c);
    assert s.cos[c].cont.SendRetry? ==> PendingOk(s, c);
  }

  lemma OthersMoveNothing(s: State, step: Step, m: Msg)
    requires |s.place| == |s.sent| && Enabled(s, step) && m < |s.sent|
    requires !step.Send? && !step.Retry? && !step.Take? && !step.Flush? && !step.Die?
    ensures Moves(s, Apply(s, step), step, m)
  {
    hide Remove, RemoveAt;
  }

  /** Every move of every message has one of these reasons. */
  lemma MoveExplained(s: State, step: Step, m: Msg)
    requires Reachable(s) && Enabled(s, step) && m < |s.sent|
    ensures Moves(s, Apply(s, step), step, m)
  {
    hide Moves, Reachable, AttemptStep, SendStep, TakeStep, FlushStep, DieStep, Ordered, Scheduled, Linked;
    ReachableConsistent(s);
    match step
    case Send(c, a) => SendMoves(s, c, a, m);
    case Retry(c) => RetryMoves(s, c, m);
    case Take(c, k) => TakeMoves(s, c, k, m);
    case Flush(c) => FlushMoves(s, c, m);
    case Die(c) => DieMoves(s, c, m);
    case _ => OthersMoveNothing(s, step, m);
  }

  /** A message only moves forward: from its sender to the mailbox or the drop,
      from the mailbox to its receiver or the drop. */
  lemma PlaceForward(s: State, step: Step, m: Msg)
    requires Reachable(s) && Enabled(s, step) && m < |s.sent|
    ensures var t := Apply(s, step);
      && m < |s.place| && m < |t.place| && m < |t.sent| && t.sent[m] == s.sent[m]
      && (s.place[m] == t.place[m]
          || (s.place[m] == Pending && (t.place[m] == Queued || t.place[m] == Dropped))
          || (s.place[m] == Queued && (t.place[m] == Received || t.place[m] == Dropped)))
  {
    hide Reachable, Enabled, Apply;
    MoveExplained(s, step, m);
  }

  /** A message is lost only by its target's death, by a flush of its target, by
      its sender's death while the send is pending, or by a retry at a target
      already dead. */
  lemma DroppedOnlyBy(s: State, step: Step, m: Msg)
    requires Reachable(s) && Enabled(s, step) && m < |s.sent|
    ensures m < |s.place| && m < |Apply(s, step).place|
    ensures s.place[m] != Dropped && Apply(s, step).place[m] == Dropped ==>
      var Sent(c, a) := s.sent[m];
      || (s.place[m] == Queued && (step == Flush(a) || step == Die(a)))
      || (s.place[m] == Pending && (step == Die(c) || (step == Retry(c) && a !in s.boxes)))
  {
    hide Reachable, Enabled, Apply;
    MoveExplained(s, step, m);
  }

  /** What becomes of a message when it is sent; a target that sleeps in a receive
      is ready to run once the message is in its mailbox. */
  lemma SentGoes(s: State, c: Id, a: Id)
    requires Reachable(s) && MaySend(s, c, a)
    ensures var t := Apply(s, Send(c, a));
      var room := a in s.boxes && |s.boxes[a].queue| < s.boxes[a].capacity;
      && t.sent == s.sent + [Sent(c, a)]
      && t.place == s.place + [if room then Queued else if a in s.boxes then Pending else Dropped]
      && (room ==> a in t.boxes && t.boxes[a].queue == s.boxes[a].queue + [|s.sent|])
      && (room && Is(s, a, Sleeping) && Receiving(s.cos[a].cont) ==> Is(t, a, Ready) && multiset(t.ready)[a] == 1)
  {
    hide Reachable, Remove, Placed, Ordered;
    ReachableConsistent(s);
    assert |s.place| == |s.sent|;
    StepScheduled(s, Send(c, a));
    NoDupCount(Apply(s, Send(c, a)).ready, a);
    assert a in s.boxes ==> BoxOk(s, a) && CoOk(s, a);
  }

  /** No message stands in a mailbox twice or is received twice. */
  lemma NeverTwice(s: State, a: Id)
    requires Reachable(s)
    ensures a in s.boxes ==> NoDup(s.boxes[a].queue)
    ensures forall i, j :: 0 <= i < j < |LogOf(s, a)| ==> LogOf(s, a)[i].msg != LogOf(s, a)[j].msg
  {
    hide Ordered, Scheduled, Linked, NoDup;
    ReachableConsistent(s);
    assert a in s.boxes ==> QueueOk(s, a);
    assert a in s.log ==> LogOk(s, a);
  }

  /** Bounded mailboxes: occupancy never exceeds capacity. */
  lemma OccupancyBounded(s: State, a: Id)
    requires Reachable(s) && a in s.boxes
    ensures |s.boxes[a].queue| <= s.boxes[a].capacity
  {
    ReachableConsistent(s);
    assert BoxOk(s, a);
  }

  // ----- order -----

  /** Plain receive delivers each sender's messages in send order: what an actor
      receives after a plain receive is later than it, and what was sent to it
      earlier by the same sender is already received or dropped. */
  lemma PlainReceiveInOrder(s: State, a: Id, i: nat)
    requires Reachable(s) && i < |LogOf(s, a)| && LogOf(s, a)[i].plain
    ensures forall j :: i < j < |LogOf(s, a)| && SameSender(s, LogOf(s, a)[i].msg, LogOf(s, a)[j].msg) ==>
      LogOf(s, a)[i].msg < LogOf(s, a)[j].msg
    ensures forall m: Msg :: m < LogOf(s, a)[i].msg && SameSender(s, m, LogOf(s, a)[i].msg) && s.sent[m].to == a ==>
      m < |s.place| && (s.place[m] == Received || s.place[m] == Dropped)
  {
    ReachableConsistent(s);
    assert LogOrdered(s, a) && LogOk(s, a);
    var n := LogOf(s, a)[i].msg;
    assert At(s, n, a, Received);
    forall m: Msg | m < n && SameSender(s, m, n) && s.sent[m].to == a
      ensures s.place[m] == Received || s.place[m] == Dropped
    {
      assert PlaceOk(s, m);
      assert forall c :: c in s.cos && s.cos[c].cont.SendRetry? ==> Latest(s, c);
      assert a in s.boxes ==> LogBeforeQueue(s, a);
    }
  }
}
