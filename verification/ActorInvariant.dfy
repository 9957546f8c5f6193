/** What every step of the actor system keeps. */
module ActorInvariant {
  import opened Prelude
  import opened ActorState

  // ----- the invariant -----

  /** Scheduler consistency: ready queue, timer list and running coroutine say
      exactly what the statuses say, each coroutine listed at most once. */
  ghost predicate Scheduled(s: State) {
    && NoDup(s.ready) && NoDup(s.timers)
    && (forall c :: c in s.ready <==> Is(s, c, Ready))
    && (forall c :: c in s.timers <==> Is(s, c, Sleeping) && !s.cos[c].blocked)
    && (forall c :: Is(s, c, Running) <==> s.running == Some(c))
    && (forall c :: c in s.cos && s.cos[c].blocked ==> Is(s, c, Sleeping))
  }

  /** A mailbox has a living owner, a bounded queue, and a list of distinct
      waiters, each asleep on FlagBlocked with a send to this very mailbox. */
  ghost predicate BoxOk(s: State, a: Id)
    requires a in s.boxes
  {
    var b := s.boxes[a];
    && a in s.cos && s.cos[a].status != Dead
    && 0 < b.capacity && |b.queue| <= b.capacity
    && NoDup(b.waiters)
    && (b.reader.Some? ==> b.reader.value == a && Receiving(s.cos[a].cont))
    && (forall w :: w in b.waiters ==> IsWaiter(s, w, a))
  }

  ghost predicate Receiving(k: Cont) {
    k.RecvCheck? || k.RecvTimeoutCheck? || k.MatchCheck?
  }

  ghost predicate IsWaiter(s: State, w: Id, a: Id) {
    && w in s.cos && s.cos[w].status == Sleeping && s.cos[w].blocked
    && s.cos[w].cont.SendRetry? && s.cos[w].cont.target == a
  }

  /** A sleeping sender is on its target's waiter list; a sleeping receiver is its
      mailbox's registered reader and has nothing to take; a selective receiver
      has rejected everything before its scan index. */
  ghost predicate CoOk(s: State, c: Id)
    requires c in s.cos
  {
    var co := s.cos[c];
    match co.cont
    case Idle => !co.blocked
    case SendRetry(a, _) =>
      co.status != Dead && (co.status == Sleeping ==> co.blocked && a in s.boxes && c in s.boxes[a].waiters)
    case RecvCheck =>
      co.status != Dead && c in s.boxes && (co.status == Sleeping ==> co.blocked && Waiting(s, c) && s.boxes[c].queue == [])
    case RecvTimeoutCheck(_) =>
      co.status != Dead && c in s.boxes && !co.blocked && (co.status == Sleeping ==> Waiting(s, c) && s.boxes[c].queue == [])
    case MatchCheck(scan, p) =>
      && co.status != Dead && c in s.boxes && -1 <= scan < |s.boxes[c].queue|
      && (co.status == Sleeping ==> co.blocked && scan == -1 && Waiting(s, c) && Rejects(p, s.boxes[c].queue))
      && (scan >= 0 ==> Rejects(p, s.boxes[c].queue[..scan]))
  }

  ghost predicate Waiting(s: State, c: Id) {
    c in s.boxes && s.boxes[c].reader == Some(c)
  }

  ghost predicate Rejects(p: Msg -> bool, q: seq<Msg>) {
    forall i :: 0 <= i < |q| ==> !p(q[i])
  }

  ghost predicate Linked(s: State) {
    && (forall a :: a in s.boxes ==> BoxOk(s, a))
    && (forall c :: c in s.cos ==> CoOk(s, c))
  }

  /** While senders wait, the free slots are all spoken for by senders that are
      already due to run. */
  ghost predicate SlotsSpokenFor(s: State, a: Id)
    requires a in s.boxes
  {
    s.boxes[a].waiters != [] ==> s.boxes[a].capacity - |s.boxes[a].queue| <= |DueSet(s, a)|
  }

  ghost predicate NoLostWakeup(s: State) {
    forall a :: a in s.boxes ==> SlotsSpokenFor(s, a)
  }

  // ----- scheduler consistency -----

  lemma WakeScheduled(s: State, w: Id)
    requires Scheduled(s)
    ensures Scheduled(Wake(s, w))
  {
    RemoveMembers(s.timers, w);
    if Is(s, w, Sleeping) {
      NoDupSnoc(s.ready, w);
    }
  }

  lemma NoDupPlus<T>(a: seq<T>, b: seq<T>)
    requires NoDup(a) && NoDup(b) && forall x :: x in a ==> x !in b
    ensures NoDup(a + b)
  {
    forall i, j | 0 <= i < j < |a + b|
      ensures (a + b)[i] != (a + b)[j]
    {
      if i < |a| <= j {
        assert a[i] in a && b[j - |a|] in b;
      }
    }
  }

  lemma WakeBlockedScheduled(s: State, ws: seq<Id>)
    requires Scheduled(s) && NoDup(ws)
    requires forall w :: w in ws ==> Is(s, w, Sleeping) && s.cos[w].blocked
    ensures Scheduled(WakeBlocked(s, ws))
  {
    forall x | x in s.ready
      ensures x !in ws
    {
      assert Is(s, x, Ready);
    }
    NoDupPlus(s.ready, ws);
  }

  /** Only statuses, blocked flags and the scheduler's lists matter to it. */
  lemma ScheduledFrame(s: State, t: State)
    requires Scheduled(s)
    requires t.ready == s.ready && t.timers == s.timers && t.running == s.running && t.cos.Keys == s.cos.Keys
    requires forall c :: c in s.cos ==> t.cos[c].status == s.cos[c].status && t.cos[c].blocked == s.cos[c].blocked
    ensures Scheduled(t)
  {
  }

  lemma ParkBlockedScheduled(s: State, c: Id, k: Cont)
    requires Scheduled(s) && Is(s, c, Running)
    ensures Scheduled(ParkBlocked(s, c, k))
  {
  }

  lemma ParkTimedScheduled(s: State, c: Id, k: Cont, d: nat)
    requires Scheduled(s) && Is(s, c, Running)
    ensures Scheduled(ParkTimed(s, c, k, d))
  {
    NoDupSnoc(s.timers, c);
  }

  lemma DieScheduled(s: State, c: Id)
    requires Scheduled(s) && Linked(s) && MayDie(s, c)
    ensures Scheduled(DieStep(s, c))
  {
    hide Scheduled, Remove, NoDup, Bury;
    var u := Scrub(if s.cos[c].cont.SendRetry? then DropPending(s, c) else s, c);
    ScheduledFrame(s, u);
    if c in u.boxes {
      var ws := u.boxes[c].waiters;
      assert BoxOk(s, c);
      RemoveMembers(s.boxes[c].waiters, c);
      forall w | w in ws
        ensures Is(u, w, Sleeping) && u.cos[w].blocked
      {
        assert IsWaiter(s, w, c) && w != c;
      }
      var v := DropAll(u.(boxes := u.boxes - {c}), u.boxes[c].queue);
      ScheduledFrame(u, v);
      WakeBlockedScheduled(v, ws);
    }
    BuryScheduled(CloseBox(u, c), c);
  }

  lemma BuryScheduled(s: State, c: Id)
    requires Scheduled(s) && c in s.cos
    ensures Scheduled(Bury(s, c))
  {
    RemoveMembers(s.ready, c);
    RemoveMembers(s.timers, c);
  }

  lemma SendScheduled(s: State, c: Id, a: Id)
    requires Scheduled(s) && MaySend(s, c, a)
    ensures Scheduled(SendStep(s, c, a))
  {
    hide Scheduled, AttemptStep;
    ScheduledFrame(s, IssueStep(s, c, a));
    AttemptScheduled(IssueStep(s, c, a), c);
  }

  lemma StepScheduled(s: State, step: Step)
    requires Scheduled(s) && Linked(s) && Enabled(s, step)
    ensures Scheduled(Apply(s, step))
  {
    hide Linked, Remove, NoDup, SendStep, AttemptStep, TakeStep, ParkRecvStep, FlushStep, DieStep, Wake, ParkTimed;
    match step
    case Schedule(c) => RemoveMembers(s.ready, c);
    case Yield(c) => NoDupSnoc(s.ready, c);
    case SleepUntil(c, d) => ParkTimedScheduled(s, c, Idle, d);
    case Spawn(c) => NoDupSnoc(s.ready, c);
    case SpawnActor(c, n) => NoDupSnoc(s.ready, c);
    case Send(c, a) => SendScheduled(s, c, a);
    case Retry(c) => AttemptScheduled(s, c);
    case Take(c, k) => TakeScheduled(s, c, k);
    case ParkRecv(c, k) => ParkRecvScheduled(s, c, k);
    case Resume(c, k) => ScheduledFrame(s, Apply(s, step));
    case Flush(c) => FlushScheduled(s, c);
    case Die(c) => DieScheduled(s, c);
    case Expire(c) => WakeScheduled(s, c);
    case Tick(dt) => ScheduledFrame(s, Apply(s, step));
  }

  lemma AttemptScheduled(s: State, c: Id)
    requires Scheduled(s) && Attempting(s, c)
    ensures Scheduled(AttemptStep(s, c))
  {
    hide Scheduled, Wake;
    var SendRetry(a, m) := s.cos[c].cont;
    if a !in s.boxes {
      ScheduledFrame(s, AttemptStep(s, c));
    } else if |s.boxes[a].queue| < s.boxes[a].capacity {
      var b := s.boxes[a];
      var s' := SetPlace(SetBox(Continue(s, c, Idle), a, b.(queue := b.queue + [m], reader := None)), m, Queued);
      ScheduledFrame(s, s');
      if b.reader.Some? {
        WakeScheduled(s', b.reader.value);
      }
    } else {
      var b := s.boxes[a];
      var s' := SetBox(s, a, b.(waiters := b.waiters + [c]));
      ScheduledFrame(s, s');
      ParkBlockedScheduled(s', c, s.cos[c].cont);
    }
  }

  lemma TakeScheduled(s: State, c: Id, k: nat)
    requires Scheduled(s) && Enabled(s, Take(c, k))
    ensures Scheduled(TakeStep(s, c, k))
  {
    hide Scheduled, Wake;
    var s' := TakeOut(s, c, k);
    ScheduledFrame(s, s');
    var b := s'.boxes[c];
    if b.waiters != [] {
      var s'' := SetBox(s', c, b.(waiters := b.waiters[1..]));
      ScheduledFrame(s', s'');
      WakeScheduled(s'', b.waiters[0]);
    }
  }

  lemma ParkRecvScheduled(s: State, c: Id, k: Cont)
    requires Scheduled(s) && Is(s, c, Running) && c in s.boxes
    ensures Scheduled(ParkRecvStep(s, c, k))
  {
    hide Scheduled, ParkTimed, ParkBlocked;
    var s' := SetBox(s, c, s.boxes[c].(reader := Some(c)));
    ScheduledFrame(s, s');
    if k.RecvTimeoutCheck? {
      ParkTimedScheduled(s', c, k, k.deadline);
    } else {
      ParkBlockedScheduled(s', c, k);
    }
  }

  lemma FlushScheduled(s: State, c: Id)
    requires Scheduled(s) && Linked(s) && c in s.boxes
    ensures Scheduled(FlushStep(s, c))
  {
    hide Scheduled;
    var b := s.boxes[c];
    var u := DropAll(SetBox(s, c, b.(queue := [], waiters := [])), b.queue);
    assert BoxOk(s, c);
    ScheduledFrame(s, u);
    WakeBlockedScheduled(u, b.waiters);
  }

  // ----- mailboxes and the coroutines waiting on them -----

  /** What a step that leaves mailboxes alone and touches only runnable
      coroutines, none of them sending or receiving, keeps. */
  lemma LinkedFrame(s: State, t: State, x: Id)
    requires Linked(s) && t.boxes == s.boxes && t.cos.Keys == s.cos.Keys + {x}
    requires forall c :: c in s.cos && c != x ==> t.cos[c] == s.cos[c]
    requires x in s.cos ==> s.cos[x].status != Sleeping && s.cos[x].status != Dead
    requires t.cos[x].status != Dead
    requires x in s.cos && Receiving(s.cos[x].cont) ==> Receiving(t.cos[x].cont)
    requires CoOk(t, x)
    ensures Linked(t)
  {
    forall a | a in t.boxes
      ensures BoxOk(t, a)
    {
      assert BoxOk(s, a);
    }
    forall c | c in t.cos
      ensures CoOk(t, c)
    {
      assert c != x ==> CoOk(s, c);
    }
  }

  lemma ParkRecvLinked(s: State, c: Id, k: Cont)
    requires Linked(s) && Enabled(s, ParkRecv(c, k))
    ensures Linked(ParkRecvStep(s, c, k))
  {
    var t := ParkRecvStep(s, c, k);
    assert CoOk(s, c);
    forall a | a in t.boxes
      ensures BoxOk(t, a)
    {
      assert BoxOk(s, a);
    }
    forall d | d in t.cos
      ensures CoOk(t, d)
    {
      assert CoOk(s, d);
      if d == c && s.cos[c].cont.MatchCheck? {
        RejectsLast(s.cos[c].cont.pred, s.boxes[c].queue);
      }
    }
  }

  lemma RejectsLast(p: Msg -> bool, q: seq<Msg>)
    ensures q != [] && Rejects(p, q[..|q| - 1]) && !p(q[|q| - 1]) ==> Rejects(p, q)
  {
    if q != [] && Rejects(p, q[..|q| - 1]) && !p(q[|q| - 1]) {
      forall i | 0 <= i < |q|
        ensures !p(q[i])
      {
        assert i < |q| - 1 ==> q[i] == q[..|q| - 1][i];
      }
    }
  }

  lemma ResumeLinked(s: State, c: Id, k: Cont)
    requires Linked(s) && Scheduled(s) && Enabled(s, Resume(c, k))
    ensures Linked(ResumeStep(s, c, k))
  {
    var t := ResumeStep(s, c, k);
    assert CoOk(s, c);
    forall a | a in t.boxes
      ensures BoxOk(t, a)
    {
      assert BoxOk(s, a);
    }
    forall d | d in t.cos
      ensures CoOk(t, d)
    {
      assert CoOk(s, d);
      if d == c && k.MatchCheck? {
        var q := s.boxes[c].queue;
        RejectsLast(k.pred, q[..k.scan]);
        if k.scan > 0 {
          assert q[..k.scan][..k.scan - 1] == q[..k.scan - 1];
        }
      }
    }
  }

  lemma AttemptLinked(s: State, c: Id)
    requires Linked(s) && Scheduled(s) && Attempting(s, c)
    ensures Linked(AttemptStep(s, c))
  {
    var SendRetry(a, m) := s.cos[c].cont;
    assert CoOk(s, c);
    if a !in s.boxes {
      var t := Continue(s, c, Idle);
      LinkedFrame(s, t, c);
      LinkedSame(t, DropPending(s, c));
    } else if |s.boxes[a].queue| < s.boxes[a].capacity {
      var t := Continue(s, c, Idle);
      LinkedFrame(s, t, c);
      DeliverLinked(t, a, m);
    } else {
      JoinLinked(s, c);
    }
  }

  /** History is not part of it. */
  lemma LinkedSame(s: State, t: State)
    requires Linked(s) && t.cos == s.cos && t.boxes == s.boxes
    ensures Linked(t)
  {
    forall a | a in t.boxes
      ensures BoxOk(t, a)
    {
      assert BoxOk(s, a);
    }
    forall d | d in t.cos
      ensures CoOk(t, d)
    {
      assert CoOk(s, d);
    }
  }

  lemma DeliverLinked(s: State, a: Id, m: Msg)
    requires Linked(s) && a in s.boxes && |s.boxes[a].queue| < s.boxes[a].capacity && m < |s.place|
    ensures Linked(Deliver(s, a, m))
  {
    var t := Deliver(s, a, m);
    assert BoxOk(s, a) && CoOk(s, a);
    forall x | x in t.boxes
      ensures BoxOk(t, x)
    {
      assert BoxOk(s, x);
    }
    forall d | d in t.cos
      ensures CoOk(t, d)
    {
      assert CoOk(s, d);
      if d == a && s.cos[a].cont.MatchCheck? {
        var k := s.cos[a].cont.scan;
        assert k >= 0 ==> t.boxes[a].queue[..k] == s.boxes[a].queue[..k];
      }
    }
  }

  lemma JoinLinked(s: State, c: Id)
    requires Linked(s) && Is(s, c, Running) && s.cos[c].cont.SendRetry? && s.cos[c].cont.target in s.boxes
    ensures var b := s.boxes[s.cos[c].cont.target];
      Linked(ParkBlocked(SetBox(s, s.cos[c].cont.target, b.(waiters := b.waiters + [c])), c, s.cos[c].cont))
  {
    var a := s.cos[c].cont.target;
    var b := s.boxes[a];
    var t := ParkBlocked(SetBox(s, a, b.(waiters := b.waiters + [c])), c, s.cos[c].cont);
    assert BoxOk(s, a);
    assert c !in b.waiters by {
      assert c in b.waiters ==> IsWaiter(s, c, a);
    }
    NoDupSnoc(b.waiters, c);
    forall x | x in t.boxes
      ensures BoxOk(t, x)
    {
      assert BoxOk(s, x);
    }
    forall d | d in t.cos
      ensures CoOk(t, d)
    {
      assert CoOk(s, d);
    }
  }

  lemma TakeLinked(s: State, c: Id, k: nat)
    requires Linked(s) && Scheduled(s) && Enabled(s, Take(c, k))
    ensures Linked(TakeStep(s, c, k))
  {
    var t := TakeOut(s, c, k);
    assert BoxOk(s, c);
    forall a | a in t.boxes
      ensures BoxOk(t, a)
    {
      assert BoxOk(s, a);
    }
    forall d | d in t.cos
      ensures CoOk(t, d)
    {
      assert CoOk(s, d);
    }
    WakeHeadLinked(t, c);
  }

  lemma WakeHeadLinked(s: State, a: Id)
    requires Linked(s) && a in s.boxes
    ensures Linked(WakeHead(s, a))
  {
    var b := s.boxes[a];
    if b.waiters != [] {
      var (w, t) := (b.waiters[0], WakeHead(s, a));
      assert BoxOk(s, a);
      assert IsWaiter(s, w, a);
      assert forall x :: x in b.waiters[1..] ==> x in b.waiters && x != w;
      assert NoDup(b.waiters[1..]);
      forall x | x in t.boxes
        ensures BoxOk(t, x)
      {
        assert BoxOk(s, x);
      }
      forall d | d in t.cos
        ensures CoOk(t, d)
      {
        assert CoOk(s, d);
        assert d in b.waiters && d != w ==> d in b.waiters[1..];
      }
    }
  }

  lemma FlushLinked(s: State, c: Id)
    requires Linked(s) && Scheduled(s) && Enabled(s, Flush(c))
    ensures Linked(FlushStep(s, c))
  {
    var t := FlushStep(s, c);
    assert BoxOk(s, c);
    forall a | a in t.boxes
      ensures BoxOk(t, a)
    {
      assert BoxOk(s, a);
    }
    forall d | d in t.cos
      ensures CoOk(t, d)
    {
      assert CoOk(s, d);
    }
  }

  /** `r` is the list `q` without `x`. */
  ghost predicate Without(q: seq<Id>, r: seq<Id>, x: Id) {
    && (forall w :: w in r <==> w in q && w != x)
    && (NoDup(q) ==> NoDup(r))
    && (x !in q ==> r == q) && (r != [] ==> q != [])
  }

  lemma RemoveWithout(q: seq<Id>, x: Id)
    ensures Without(q, Remove(q, x), x)
  {
    RemoveMembers(q, x);
    if x !in q {
      RemoveAbsent(q, x);
    }
  }

  /** A waiter of the mailbox of `c` when that is closed. */
  ghost function Released(s: State, d: Id, c: Id): Co
    requires d in s.cos
  {
    if IsWaiter(s, d, c) && c in s.boxes then s.cos[d].(status := Ready, blocked := false) else s.cos[d]
  }

  /** Who is where after a death: the waiters of its mailbox are runnable, its own
      registration is gone, everyone and everything else is as before. */
  lemma DieFacts(s: State, c: Id)
    requires Linked(s) && MayDie(s, c)
    ensures var t := DieStep(s, c);
      && t.cos.Keys == s.cos.Keys && t.boxes.Keys == s.boxes.Keys - {c}
      && t.cos[c] == s.cos[c].(status := Dead, blocked := false, cont := Idle)
      && (forall d :: d in s.cos && d != c ==> t.cos[d] == Released(s, d, c))
      && (forall a :: a in t.boxes ==>
        t.boxes[a] == s.boxes[a].(waiters := t.boxes[a].waiters) && Without(s.boxes[a].waiters, t.boxes[a].waiters, c))
  {
    hide Remove, NoDup;
    var t := DieStep(s, c);
    forall a | a in s.boxes
      ensures Without(s.boxes[a].waiters, Remove(s.boxes[a].waiters, c), c)
    {
      RemoveWithout(s.boxes[a].waiters, c);
    }
    forall d | d in s.cos && d != c
      ensures t.cos[d] == Released(s, d, c)
    {
      assert CoOk(s, d);
      assert c in s.boxes ==> BoxOk(s, c);
    }
  }

  lemma DieLinked(s: State, c: Id)
    requires Linked(s) && MayDie(s, c)
    ensures Linked(DieStep(s, c))
  {
    hide DieStep, NoDup;
    var t := DieStep(s, c);
    DieFacts(s, c);
    forall a | a in t.boxes
      ensures BoxOk(t, a)
    {
      assert BoxOk(s, a);
    }
    forall d | d in t.cos
      ensures CoOk(t, d)
    {
      assert CoOk(s, d);
    }
  }

  lemma ExpireLinked(s: State, c: Id)
    requires Linked(s) && Scheduled(s) && Enabled(s, Expire(c))
    ensures Linked(Wake(s, c))
  {
    var t := Wake(s, c);
    forall a | a in t.boxes
      ensures BoxOk(t, a)
    {
      assert BoxOk(s, a);
    }
    forall d | d in t.cos
      ensures CoOk(t, d)
    {
      assert CoOk(s, d);
    }
  }

  lemma SendLinked(s: State, c: Id, a: Id)
    requires Scheduled(s) && Linked(s) && MaySend(s, c, a)
    ensures Linked(SendStep(s, c, a))
  {
    hide Linked, Scheduled, AttemptStep;
    LinkedOne(s, c);
    LinkedFrame(s, IssueStep(s, c, a), c);
    ScheduledFrame(s, IssueStep(s, c, a));
    AttemptLinked(IssueStep(s, c, a), c);
  }

  lemma StepLinked(s: State, step: Step)
    requires Scheduled(s) && Linked(s) && Enabled(s, step)
    ensures Linked(Apply(s, step))
  {
    hide Linked, Scheduled, Remove, DieStep, SendStep, AttemptStep, TakeStep, FlushStep, ParkRecvStep;
    assert step.Schedule? || step.Yield? || step.SleepUntil? ==> OneOk(s, step.c) by {
      LinkedOne(s, if step.Schedule? || step.Yield? || step.SleepUntil? then step.c else 0);
    }
    match step
    case Schedule(c) => LinkedFrame(s, Apply(s, step), c);
    case Yield(c) => LinkedFrame(s, Apply(s, step), c);
    case SleepUntil(c, d) => LinkedFrame(s, Apply(s, step), c);
    case Spawn(c) => LinkedFrame(s, Apply(s, step), c);
    case SpawnActor(c, n) => SpawnActorLinked(s, c, n);
    case Send(c, a) => SendLinked(s, c, a);
    case Retry(c) => AttemptLinked(s, c);
    case Take(c, k) => TakeLinked(s, c, k);
    case ParkRecv(c, k) => ParkRecvLinked(s, c, k);
    case Resume(c, k) => ResumeLinked(s, c, k);
    case Flush(c) => FlushLinked(s, c);
    case Die(c) => DieLinked(s, c);
    case Expire(c) => ExpireLinked(s, c);
    case Tick(dt) => LinkedSame(s, Apply(s, step));
  }

  ghost predicate OneOk(s: State, c: Id) {
    c in s.cos ==> CoOk(s, c)
  }

  lemma LinkedOne(s: State, c: Id)
    requires Linked(s)
    ensures OneOk(s, c)
  {
  }

  lemma SpawnActorLinked(s: State, c: Id, n: nat)
    requires Linked(s) && Enabled(s, SpawnActor(c, n))
    ensures Linked(Apply(s, SpawnActor(c, n)))
  {
    var t := Apply(s, SpawnActor(c, n));
    forall a | a in t.boxes
      ensures BoxOk(t, a)
    {
      assert a != c ==> BoxOk(s, a);
    }
    forall d | d in t.cos
      ensures CoOk(t, d)
    {
      assert d != c ==> CoOk(s, d);
    }
  }

  // ----- no lost wakeup -----

  lemma {:induction false} SubsetSize<T>(a: set<T>, b: set<T>)
    requires a <= b
    ensures |a| <= |b|
    decreases a
  {
    if a != {} {
      var x :| x in a;
      SubsetSize(a - {x}, b - {x});
    }
  }

  /** More senders due and no more free slots keeps a mailbox's slots spoken for. */
  lemma SlotsKeep(s: State, t: State, a: Id)
    requires a in s.boxes && a in t.boxes && SlotsSpokenFor(s, a)
    requires t.boxes[a].waiters != [] ==> s.boxes[a].waiters != []
    requires t.boxes[a].capacity - |t.boxes[a].queue| <= s.boxes[a].capacity - |s.boxes[a].queue|
    requires forall c :: Due(s, c, a) ==> Due(t, c, a)
    ensures SlotsSpokenFor(t, a)
  {
    SubsetSize(DueSet(s, a), DueSet(t, a));
  }

  /** The steps that drain no slot, add no waiter and retire no due sender. */
  lemma QuietStepNoLost(s: State, t: State)
    requires NoLostWakeup(s)
    requires forall a :: a in t.boxes && t.boxes[a].waiters != [] ==>
      && a in s.boxes && t.boxes[a].waiters == s.boxes[a].waiters
      && t.boxes[a].capacity == s.boxes[a].capacity && t.boxes[a].queue == s.boxes[a].queue
    requires forall a, c :: a in t.boxes && Due(s, c, a) ==> Due(t, c, a)
    ensures NoLostWakeup(t)
  {
    forall a | a in t.boxes
      ensures SlotsSpokenFor(t, a)
    {
      if t.boxes[a].waiters != [] {
        assert SlotsSpokenFor(s, a);
        SlotsKeep(s, t, a);
      }
    }
  }

  lemma AttemptNoLost(s: State, c: Id)
    requires NoLostWakeup(s) && Linked(s) && Scheduled(s) && Attempting(s, c)
    ensures NoLostWakeup(AttemptStep(s, c))
  {
    var t := AttemptStep(s, c);
    var SendRetry(x, m) := s.cos[c].cont;
    forall a | a in t.boxes
      ensures SlotsSpokenFor(t, a)
    {
      assert SlotsSpokenFor(s, a) && BoxOk(s, a);
      if a != x {
        SlotsKeep(s, t, a);
      } else if |s.boxes[a].queue| < s.boxes[a].capacity {
        assert DueSet(s, a) - {c} <= DueSet(t, a);
        SubsetSize(DueSet(s, a) - {c}, DueSet(t, a));
        assert c in DueSet(s, a);
      }
    }
  }

  lemma TakeNoLost(s: State, c: Id, k: nat)
    requires NoLostWakeup(s) && Linked(s) && Scheduled(s) && Enabled(s, Take(c, k))
    ensures NoLostWakeup(TakeStep(s, c, k))
  {
    var t := TakeStep(s, c, k);
    forall a | a in t.boxes
      ensures SlotsSpokenFor(t, a)
    {
      assert SlotsSpokenFor(s, a) && BoxOk(s, a);
      if a != c {
        assert BoxOk(s, c);
        SlotsKeep(s, t, a);
      } else if s.boxes[a].waiters != [] {
        var w := s.boxes[a].waiters[0];
        assert IsWaiter(s, w, a);
        assert DueSet(s, a) + {w} <= DueSet(t, a);
        SubsetSize(DueSet(s, a) + {w}, DueSet(t, a));
        assert w !in DueSet(s, a);
      }
    }
  }

  lemma SendNoLost(s: State, c: Id, a: Id)
    requires NoLostWakeup(s) && Linked(s) && Scheduled(s) && MaySend(s, c, a)
    ensures NoLostWakeup(SendStep(s, c, a))
  {
    hide Linked, Scheduled, AttemptStep, NoLostWakeup;
    var u := IssueStep(s, c, a);
    LinkedOne(s, c);
    LinkedFrame(s, u, c);
    ScheduledFrame(s, u);
    QuietStepNoLost(s, u);
    AttemptNoLost(u, c);
  }

  /** Killing `c` takes no wakeup away: if it was woken for a slot of another
      actor's mailbox and more senders wait there, then the senders woken still
      outnumber the free slots. Asleep, or with no send pending, it may always be
      killed. */
  ghost predicate KillSafe(s: State, c: Id) {
    forall a :: a in s.boxes && a != c && Due(s, c, a) && s.boxes[a].waiters != [] ==>
      s.boxes[a].capacity - |s.boxes[a].queue| < |DueSet(s, a)|
  }

  ghost predicate StepSafe(s: State, step: Step) {
    step.Die? ==> KillSafe(s, step.c)
  }

  /** A step other than a kill keeps every free slot spoken for, and a kill does
      exactly if it is safe. */
  lemma StepNoLost(s: State, step: Step)
    requires Scheduled(s) && Linked(s) && NoLostWakeup(s) && Enabled(s, step)
    ensures NoLostWakeup(Apply(s, step)) <==> StepSafe(s, step)
  {
    hide NoLostWakeup, Scheduled, Linked, Remove, KillSafe, SendStep, AttemptStep, TakeStep, FlushStep, DieStep;
    match step
    case Send(c, a) => SendNoLost(s, c, a);
    case Retry(c) => AttemptNoLost(s, c);
    case Take(c, k) => TakeNoLost(s, c, k);
    case Flush(c) => FlushNoLost(s, c);
    case Die(c) => DieNoLostIff(s, c);
    case _ => QuietStepNoLost(s, Apply(s, step));
  }

  lemma FlushNoLost(s: State, c: Id)
    requires NoLostWakeup(s) && Linked(s) && Scheduled(s) && Enabled(s, Flush(c))
    ensures NoLostWakeup(FlushStep(s, c))
  {
    assert BoxOk(s, c);
    QuietStepNoLost(s, FlushStep(s, c));
  }

  lemma {:induction false} RemoveOne<T>(a: set<T>, x: T)
    requires x in a
    ensures |a - {x}| == |a| - 1
  {
  }

  /** Senders due at another mailbox after a death: all but the dead one. */
  lemma DueAfterDeath(s: State, c: Id, a: Id)
    requires Linked(s) && MayDie(s, c) && a in s.boxes && a != c
    ensures DueSet(DieStep(s, c), a) == DueSet(s, a) - {c}
  {
    hide DieStep, Linked;
    DieFacts(s, c);
  }

  lemma DieNoLostIff(s: State, c: Id)
    requires NoLostWakeup(s) && Linked(s) && MayDie(s, c)
    ensures NoLostWakeup(DieStep(s, c)) <==> KillSafe(s, c)
  {
    hide DieStep, Linked, DueSet;
    var t := DieStep(s, c);
    DieFacts(s, c);
    forall a | a in t.boxes
      ensures SlotsSpokenFor(t, a) <==>
        (Due(s, c, a) && s.boxes[a].waiters != [] ==> s.boxes[a].capacity - |s.boxes[a].queue| < |DueSet(s, a)|)
    {
      SlotsAfterDeath(s, c, a);
    }
  }

  lemma SlotsAfterDeath(s: State, c: Id, a: Id)
    requires Linked(s) && MayDie(s, c) && a in s.boxes && a != c && SlotsSpokenFor(s, a)
    ensures a in DieStep(s, c).boxes
    ensures SlotsSpokenFor(DieStep(s, c), a) <==>
      (Due(s, c, a) && s.boxes[a].waiters != [] ==> s.boxes[a].capacity - |s.boxes[a].queue| < |DueSet(s, a)|)
  {
    hide DieStep, NoDup;
    DieFacts(s, c);
    DueAfterDeath(s, c, a);
    assert BoxOk(s, a);
    if Due(s, c, a) {
      assert c in DueSet(s, a);
      RemoveOne(DueSet(s, a), c);
      assert c !in s.boxes[a].waiters by {
        assert c in s.boxes[a].waiters ==> IsWaiter(s, c, a);
      }
    } else {
      assert DueSet(s, a) - {c} == DueSet(s, a);
    }
  }
}
