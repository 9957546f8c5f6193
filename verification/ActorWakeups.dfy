/** No wakeup is lost: in which runs that holds, and the run in which it does not. */
module ActorWakeups {
  import opened Prelude
  import opened ActorState
  import opened ActorInvariant
  import opened ActorHistory
  import opened ActorTheorems

  // ----- runs whose kills are safe -----

  /** Every kill of the run is safe where it happens. */
  ghost predicate Careful(steps: seq<Step>)
    decreases |steps|
  {
    steps != [] ==>
      var front := steps[..|steps| - 1];
      Careful(front) && (Run(front).Some? ==> StepSafe(Run(front).value, steps[|steps| - 1]))
  }

  ghost predicate Kept(steps: seq<Step>) {
    Run(steps).Some? && NoLostWakeup(Run(steps).value)
  }

  lemma InitialKept()
    ensures Kept([]) && Careful([])
  {
  }

  /** A run keeps every wakeup in all of its states exactly if it is careful. */
  lemma {:induction false} CarefulIff(steps: seq<Step>)
    requires Run(steps).Some?
    ensures Careful(steps) <==> forall k: nat | k <= |steps| :: Kept(steps[..k])
    decreases |steps|
  {
    hide NoLostWakeup, StepSafe, Enabled, Apply, Consistent;
    assert steps[..|steps|] == steps;
    InitialKept();
    if steps != [] {
      var n: nat := |steps| - 1;
      var front := steps[..n];
      CarefulIff(front);
      RunConsistent(front);
      var s := Run(front).value;
      assert forall k: nat | k <= n :: front[..k] == steps[..k];
      if Kept(front) {
        StepConsistent(s, steps[n]);
      }
      if Careful(steps) {
        assert Kept(front[..n]);
        assert front[..n] == front;
        forall k: nat | k <= |steps|
          ensures Kept(steps[..k])
        {
          assert k <= n ==> Kept(front[..k]);
          assert k == n + 1 ==> steps[..k] == steps;
        }
      }
      if forall k: nat | k <= |steps| :: Kept(steps[..k]) {
        assert forall k: nat | k <= n :: Kept(front[..k]);
        assert Kept(steps[..n]) && Kept(steps[..n + 1]);
      }
    }
  }

  lemma CarefulKeeps(steps: seq<Step>)
    requires Run(steps).Some? && Careful(steps)
    ensures NoLostWakeup(Run(steps).value)
  {
    hide NoLostWakeup, Run, Careful;
    CarefulIff(steps);
    assert Kept(steps[..|steps|]) && steps[..|steps|] == steps;
  }

  // ----- standoffs -----

  /** The owner asleep on an empty mailbox and a sender asleep on it. */
  ghost predicate Standoff(s: State, a: Id) {
    && a in s.boxes && s.boxes[a].queue == [] && s.boxes[a].waiters != []
    && Is(s, a, Sleeping) && Receiving(s.cos[a].cont)
  }

  /** Nobody runs, is ready to run, or sleeps on a timer. */
  ghost predicate Quiet(s: State) {
    s.ready == [] && s.running.None? && s.timers == []
  }

  /** In a careful run a standoff always has a sender that was woken and will fill
      the mailbox when it retries. */
  lemma StandoffHasDueSender(steps: seq<Step>, a: Id)
    requires Run(steps).Some? && Careful(steps) && Standoff(Run(steps).value, a)
    ensures exists c :: Due(Run(steps).value, c, a)
  {
    hide Run, Careful, Placed, Ordered, Scheduled;
    var s := Run(steps).value;
    CarefulKeeps(steps);
    RunConsistent(steps);
    assert SlotsSpokenFor(s, a) && BoxOk(s, a);
    assert |DueSet(s, a)| >= 1;
    var c :| c in DueSet(s, a);
    assert Due(s, c, a);
  }

  /** So a careful run never ends with everyone asleep or dead in a standoff. */
  lemma NoSilentStandoff(steps: seq<Step>, a: Id)
    requires Run(steps).Some? && Careful(steps) && Standoff(Run(steps).value, a)
    ensures !Quiet(Run(steps).value)
  {
    hide Run, Careful, Placed, Ordered, Linked, Standoff;
    var s := Run(steps).value;
    StandoffHasDueSender(steps, a);
    RunConsistent(steps);
    var c :| Due(s, c, a);
    assert Is(s, c, Ready) || Is(s, c, Running);
  }

  // ----- a careless run -----

  const FRESH := Co(Ready, false, 0, Idle)
  const PARKED2 := Co(Sleeping, true, 0, SendRetry(1, 1))
  const PARKED3 := Co(Sleeping, true, 0, SendRetry(1, 2))
  const DEAD := Co(Dead, false, 0, Idle)
  const SENT := [Sent(2, 1), Sent(2, 1), Sent(3, 1)]

  /** Actor 1 with room for one message, senders 2 and 3, and coroutine 4. */
  const SPAWNED := State(map[1 := FRESH, 2 := FRESH, 3 := FRESH, 4 := FRESH], map[1 := Mailbox([], 1, None, [])],
                         [1, 2, 3, 4], [], None, 0, [], [], map[])

  /** One message of 2 delivered, its second and the one of 3 waiting for room. */
  const FULL := SPAWNED.(cos := map[1 := FRESH, 2 := PARKED2, 3 := PARKED3, 4 := FRESH],
                         boxes := map[1 := Mailbox([0], 1, None, [2, 3])], ready := [1, 4],
                         sent := SENT, place := [Queued, Pending, Pending])

  /** The owner has received, which woke 2, and sleeps on its empty mailbox. */
  const DRAINED := FULL.(cos := map[1 := Co(Sleeping, true, 0, RecvCheck), 2 := PARKED2.(status := Ready, blocked := false),
                                    3 := PARKED3, 4 := FRESH],
                         boxes := map[1 := Mailbox([], 1, Some(1), [3])], ready := [4, 2],
                         place := [Received, Pending, Pending], log := map[1 := [Entry(0, true)]])

  /** Coroutine 4 has killed 2 before its retry and has ended. */
  const STUCK := DRAINED.(cos := map[1 := Co(Sleeping, true, 0, RecvCheck), 2 := DEAD, 3 := PARKED3, 4 := DEAD],
                          ready := [], place := [Received, Dropped, Pending])

  lemma ReachNext(s: State, step: Step, t: State)
    requires Reachable(s) && Enabled(s, step) && t == Apply(s, step)
    ensures Reachable(t)
  {
    hide Enabled, Apply;
    var steps :| Run(steps) == Some(s);
    assert (steps + [step])[..|steps|] == steps;
    assert Run(steps + [step]) == Some(t);
  }

  lemma SpawnedReachable()
    ensures Reachable(SPAWNED)
  {
    hide Reachable;
    assert Reachable(INITIAL) by { InitialReachable(); }
    var s1 := INITIAL.(cos := map[1 := FRESH], ready := [1], boxes := map[1 := Mailbox([], 1, None, [])]);
    var s2 := s1.(cos := map[1 := FRESH, 2 := FRESH], ready := [1, 2]);
    var s3 := s2.(cos := map[1 := FRESH, 2 := FRESH, 3 := FRESH], ready := [1, 2, 3]);
    ReachNext(INITIAL, SpawnActor(1, 1), s1);
    ReachNext(s1, Spawn(2), s2);
    ReachNext(s2, Spawn(3), s3);
    ReachNext(s3, Spawn(4), SPAWNED);
  }

  lemma InitialReachable()
    ensures Reachable(INITIAL)
  {
    assert Run([]) == Some(INITIAL);
  }

  /** Coroutine 2 sends twice, coroutine 3 once. */
  lemma FullReachable()
    ensures Reachable(FULL)
  {
    hide Reachable, SendStep;
    SpawnedReachable();
    var s1 := SPAWNED.(cos := map[1 := FRESH, 2 := FRESH.(status := Running), 3 := FRESH, 4 := FRESH],
                       ready := [1, 3, 4], running := Some(2));
    assert Remove([1, 2, 3, 4], 2) == [1, 3, 4];
    ReachNext(SPAWNED, Schedule(2), s1);
    var s2 := s1.(boxes := map[1 := Mailbox([0], 1, None, [])], sent := [Sent(2, 1)], place := [Queued]);
    FirstSend(s1, s2);
    ReachNext(s1, Send(2, 1), s2);
    var s3 := s2.(cos := map[1 := FRESH, 2 := PARKED2, 3 := FRESH, 4 := FRESH], running := None,
                  boxes := map[1 := Mailbox([0], 1, None, [2])], sent := [Sent(2, 1), Sent(2, 1)], place := [Queued, Pending]);
    SecondSend(s2, s3);
    ReachNext(s2, Send(2, 1), s3);
    var s4 := s3.(cos := map[1 := FRESH, 2 := PARKED2, 3 := FRESH.(status := Running), 4 := FRESH],
                  ready := [1, 4], running := Some(3));
    assert Remove([1, 3, 4], 3) == [1, 4];
    ReachNext(s3, Schedule(3), s4);
    ThirdSend(s4);
    ReachNext(s4, Send(3, 1), FULL);
  }

  lemma FirstSend(s: State, t: State)
    requires s == SPAWNED.(cos := map[1 := FRESH, 2 := FRESH.(status := Running), 3 := FRESH, 4 := FRESH],
                           ready := [1, 3, 4], running := Some(2))
    requires t == s.(boxes := map[1 := Mailbox([0], 1, None, [])], sent := [Sent(2, 1)], place := [Queued])
    ensures MaySend(s, 2, 1) && SendStep(s, 2, 1) == t
  {
    var r := SendStep(s, 2, 1);
    assert r.cos == t.cos && r.boxes[1].queue == [0] && r.place == [Queued];
  }

  lemma SecondSend(s: State, t: State)
    requires s == SPAWNED.(cos := map[1 := FRESH, 2 := FRESH.(status := Running), 3 := FRESH, 4 := FRESH],
                           ready := [1, 3, 4], running := Some(2), boxes := map[1 := Mailbox([0], 1, None, [])],
                           sent := [Sent(2, 1)], place := [Queued])
    requires t == s.(cos := map[1 := FRESH, 2 := PARKED2, 3 := FRESH, 4 := FRESH], running := None,
                     boxes := map[1 := Mailbox([0], 1, None, [2])], sent := [Sent(2, 1), Sent(2, 1)], place := [Queued, Pending])
    ensures MaySend(s, 2, 1) && SendStep(s, 2, 1) == t
  {
    var r := SendStep(s, 2, 1);
    assert r.cos == t.cos && r.boxes[1].waiters == [2];
  }

  lemma ThirdSend(s: State)
    requires s == FULL.(cos := map[1 := FRESH, 2 := PARKED2, 3 := FRESH.(status := Running), 4 := FRESH],
                        boxes := map[1 := Mailbox([0], 1, None, [2])], running := Some(3),
                        sent := [Sent(2, 1), Sent(2, 1)], place := [Queued, Pending])
    ensures MaySend(s, 3, 1) && SendStep(s, 3, 1) == FULL
  {
    var r := SendStep(s, 3, 1);
    assert r.cos == FULL.cos && r.boxes[1].waiters == [2, 3];
  }

  lemma DrainedReachable()
    ensures Reachable(DRAINED)
  {
    hide Reachable, TakeStep;
    FullReachable();
    var s1 := FULL.(cos := map[1 := FRESH.(status := Running), 2 := PARKED2, 3 := PARKED3, 4 := FRESH],
                    ready := [4], running := Some(1));
    assert Remove([1, 4], 1) == [4];
    ReachNext(FULL, Schedule(1), s1);
    var s2 := DRAINED.(cos := DRAINED.cos[1 := FRESH.(status := Running)], running := Some(1),
                       boxes := map[1 := Mailbox([], 1, None, [3])]);
    OwnerTakes(s1, s2);
    ReachNext(s1, Take(1, 0), s2);
    ReachNext(s2, ParkRecv(1, RecvCheck), DRAINED);
  }

  lemma OwnerTakes(s: State, t: State)
    requires s == FULL.(cos := map[1 := FRESH.(status := Running), 2 := PARKED2, 3 := PARKED3, 4 := FRESH],
                        ready := [4], running := Some(1))
    requires t == DRAINED.(cos := DRAINED.cos[1 := FRESH.(status := Running)], running := Some(1),
                           boxes := map[1 := Mailbox([], 1, None, [3])])
    ensures Enabled(s, Take(1, 0)) && TakeStep(s, 1, 0) == t
  {
    var u := TakeOut(s, 1, 0);
    assert u.boxes[1].queue == [] && u.log[1] == [Entry(0, true)] && u.place == [Received, Pending, Pending];
    var r := TakeStep(s, 1, 0);
    assert r.boxes[1].waiters == [3];
    assert r.cos == t.cos && r.boxes == t.boxes && r.log == t.log;
  }

  lemma StuckReachable()
    ensures Reachable(STUCK)
  {
    hide Reachable, DieStep;
    DrainedReachable();
    var s1 := DRAINED.(cos := DRAINED.cos[4 := FRESH.(status := Running)], ready := [2], running := Some(4));
    assert Remove([4, 2], 4) == [2];
    ReachNext(DRAINED, Schedule(4), s1);
    var s2 := s1.(cos := s1.cos[2 := DEAD], ready := [], place := [Received, Dropped, Pending]);
    KillSender(s1, s2);
    ReachNext(s1, Die(2), s2);
    KillerEnds(s2);
    ReachNext(s2, Die(4), STUCK);
  }

  lemma KillSender(s: State, t: State)
    requires s == DRAINED.(cos := DRAINED.cos[4 := FRESH.(status := Running)], ready := [2], running := Some(4))
    requires t == s.(cos := s.cos[2 := DEAD], ready := [], place := [Received, Dropped, Pending])
    ensures MayDie(s, 2) && DieStep(s, 2) == t && !KillSafe(s, 2)
  {
    var r := DieStep(s, 2);
    assert Remove([3], 2) == [3] && Remove([2], 2) == [];
    assert r.boxes == s.boxes && r.cos == t.cos && r.place == t.place;
    assert DueSet(s, 1) == {2};
    assert Due(s, 2, 1);
  }

  lemma KillerEnds(s: State)
    requires s == STUCK.(cos := STUCK.cos[4 := FRESH.(status := Running)], running := Some(4))
    ensures MayDie(s, 4) && DieStep(s, 4) == STUCK
  {
    var r := DieStep(s, 4);
    assert Remove([3], 4) == [3];
    assert r.boxes == s.boxes && r.cos == STUCK.cos;
  }

  /** Killing a sender between its wakeup and its retry loses the wakeup: the owner
      sleeps on an empty mailbox, another sender sleeps on that mailbox, and nobody
      is left to run or to wait for. */
  lemma KillLosesWakeup()
    ensures exists s :: Reachable(s) && !NoLostWakeup(s) && Standoff(s, 1) && Quiet(s)
  {
    hide Reachable;
    StuckReachable();
    assert Standoff(STUCK, 1);
    assert DueSet(STUCK, 1) == {};
    assert !SlotsSpokenFor(STUCK, 1);
  }
}
