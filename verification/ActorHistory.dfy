/** Where messages are, and in which order they arrive, over every step. */
module ActorHistory {
  import opened Prelude
  import opened ActorState
  import opened ActorInvariant

  // ----- conservation -----

  ghost predicate PendingOk(s: State, c: Id)
    requires c in s.cos && s.cos[c].cont.SendRetry?
  {
    var SendRetry(a, m) := s.cos[c].cont;
    m < |s.sent| && m < |s.place| && s.sent[m] == Sent(c, a) && s.place[m] == Pending
  }

  ghost predicate Logged(l: seq<Entry>, m: Msg) {
    exists i :: 0 <= i < |l| && l[i].msg == m
  }

  /** A message is where its place says: on the stack of the coroutine that sent
      it, in its target's mailbox, or among what its target has received. */
  ghost predicate PlaceOk(s: State, m: Msg)
    requires m < |s.sent| && m < |s.place|
  {
    var Sent(c, a) := s.sent[m];
    match s.place[m]
    case Pending => Sending(s, c, a, m)
    case Queued => a in s.boxes && m in s.boxes[a].queue
    case Received => Logged(LogOf(s, a), m)
    case Dropped => true
  }

  ghost predicate QueueOk(s: State, a: Id)
    requires a in s.boxes
  {
    var q := s.boxes[a].queue;
    && NoDup(q)
    && forall i :: 0 <= i < |q| ==> At(s, q[i], a, Queued)
  }

  ghost predicate LogOk(s: State, a: Id) {
    var l := LogOf(s, a);
    && (forall i :: 0 <= i < |l| ==> At(s, l[i].msg, a, Received))
    && (forall i, j :: 0 <= i < j < |l| ==> l[i].msg != l[j].msg)
  }

  ghost predicate At(s: State, m: Msg, a: Id, p: Place) {
    m < |s.sent| && m < |s.place| && s.sent[m].to == a && s.place[m] == p
  }

  ghost predicate Placed(s: State) {
    && |s.place| == |s.sent|
    && (forall c :: c in s.cos && s.cos[c].cont.SendRetry? ==> PendingOk(s, c))
    && (forall m: Msg :: m < |s.sent| ==> PlaceOk(s, m))
    && (forall a :: a in s.boxes ==> QueueOk(s, a))
    && (forall a :: a in s.log ==> LogOk(s, a))
  }

  // ----- order -----

  /** A coroutine sends one message at a time: a pending one is its latest. */
  ghost predicate Latest(s: State, c: Id)
    requires c in s.cos && s.cos[c].cont.SendRetry?
  {
    forall m: Msg :: m < |s.sent| && s.sent[m].from == c ==> m <= s.cos[c].cont.msg
  }

  ghost predicate SameSender(s: State, m: Msg, n: Msg) {
    m < |s.sent| && n < |s.sent| && s.sent[m].from == s.sent[n].from
  }

  /** In a mailbox, each sender's messages stand in send order. */
  ghost predicate QueueOrdered(s: State, a: Id)
    requires a in s.boxes
  {
    var q := s.boxes[a].queue;
    forall i, j :: 0 <= i < j < |q| && SameSender(s, q[i], q[j]) ==> q[i] < q[j]
  }

  /** After a plain receive, only later messages of the same sender remain ... */
  ghost predicate LogBeforeQueue(s: State, a: Id)
    requires a in s.boxes
  {
    var l := LogOf(s, a);
    var q := s.boxes[a].queue;
    forall i, j :: 0 <= i < |l| && 0 <= j < |q| && l[i].plain && SameSender(s, l[i].msg, q[j]) ==> l[i].msg < q[j]
  }

  /** ... and only later ones are received after it. */
  ghost predicate LogOrdered(s: State, a: Id) {
    var l := LogOf(s, a);
    forall i, j :: 0 <= i < j < |l| && l[i].plain && SameSender(s, l[i].msg, l[j].msg) ==> l[i].msg < l[j].msg
  }

  ghost predicate Ordered(s: State) {
    && (forall c :: c in s.cos && s.cos[c].cont.SendRetry? ==> Latest(s, c))
    && (forall a :: a in s.boxes ==> QueueOrdered(s, a) && LogBeforeQueue(s, a))
    && (forall a :: a in s.log ==> LogOrdered(s, a))
  }

  // ----- steps that move no message -----

  /** Same history, same pending sends; mailboxes the same but for new empty ones. */
  ghost predicate Still(s: State, t: State) {
    && t.sent == s.sent && t.place == s.place && t.log == s.log
    && (forall c :: c in s.cos && s.cos[c].cont.SendRetry? ==> c in t.cos && t.cos[c].cont == s.cos[c].cont)
    && (forall c :: c in t.cos && t.cos[c].cont.SendRetry? ==> c in s.cos && s.cos[c].cont == t.cos[c].cont)
    && (forall a :: a in s.boxes ==> a in t.boxes && t.boxes[a].queue == s.boxes[a].queue)
    && (forall a :: a in t.boxes && a !in s.boxes ==> t.boxes[a].queue == [])
  }

  lemma StillPlaced(s: State, t: State)
    requires Placed(s) && Still(s, t)
    ensures Placed(t)
  {
    forall c | c in t.cos && t.cos[c].cont.SendRetry?
      ensures PendingOk(t, c)
    {
      assert PendingOk(s, c);
    }
    forall m: Msg | m < |t.sent|
      ensures PlaceOk(t, m)
    {
      assert PlaceOk(s, m);
    }
    forall a | a in t.boxes
      ensures QueueOk(t, a)
    {
      assert a in s.boxes ==> QueueOk(s, a);
      assert forall m, x, p :: At(s, m, x, p) ==> At(t, m, x, p);
    }
    forall a | a in t.log
      ensures LogOk(t, a)
    {
      assert LogOk(s, a);
      assert forall m, x, p :: At(s, m, x, p) ==> At(t, m, x, p);
    }
  }

  lemma StillOrdered(s: State, t: State)
    requires Ordered(s) && Still(s, t)
    ensures Ordered(t)
  {
    forall c | c in t.cos && t.cos[c].cont.SendRetry?
      ensures Latest(t, c)
    {
      assert Latest(s, c);
    }
    forall a | a in t.boxes
      ensures QueueOrdered(t, a) && LogBeforeQueue(t, a)
    {
      assert a in s.boxes ==> QueueOrdered(s, a) && LogBeforeQueue(s, a);
      assert forall m, n :: SameSender(t, m, n) <==> SameSender(s, m, n);
    }
    forall a | a in t.log
      ensures LogOrdered(t, a)
    {
      assert LogOrdered(s, a);
      assert forall m, n :: SameSender(t, m, n) <==> SameSender(s, m, n);
    }
  }

  lemma WakeStill(s: State, w: Id)
    ensures Still(s, Wake(s, w))
  {
  }

  // ----- issuing a message -----

  lemma IssuePlaced(s: State, c: Id, a: Id)
    requires Placed(s) && MaySend(s, c, a)
    ensures Placed(IssueStep(s, c, a))
  {
    var t := IssueStep(s, c, a);
    assert forall m, x, p :: At(s, m, x, p) ==> At(t, m, x, p);
    forall d | d in t.cos && t.cos[d].cont.SendRetry?
      ensures PendingOk(t, d)
    {
      assert d != c ==> PendingOk(s, d);
    }
    forall m: Msg | m < |t.sent|
      ensures PlaceOk(t, m)
    {
      assert m < |s.sent| ==> PlaceOk(s, m);
    }
    forall x | x in t.boxes
      ensures QueueOk(t, x)
    {
      assert QueueOk(s, x);
    }
    forall x | x in t.log
      ensures LogOk(t, x)
    {
      assert LogOk(s, x);
    }
  }

  lemma IssueOrdered(s: State, c: Id, a: Id)
    requires Ordered(s) && Placed(s) && MaySend(s, c, a)
    ensures Ordered(IssueStep(s, c, a))
  {
    var t := IssueStep(s, c, a);
    forall d | d in t.cos && t.cos[d].cont.SendRetry?
      ensures Latest(t, d)
    {
      assert d != c ==> Latest(s, d);
    }
    forall x | x in t.boxes
      ensures QueueOrdered(t, x) && LogBeforeQueue(t, x)
    {
      assert QueueOrdered(s, x) && LogBeforeQueue(s, x) && QueueOk(s, x);
      assert x in s.log ==> LogOk(s, x);
    }
    forall x | x in t.log
      ensures LogOrdered(t, x)
    {
      assert LogOrdered(s, x) && LogOk(s, x);
    }
  }

  // ----- completing or dropping a send -----

  lemma DropPlaced(s: State, c: Id)
    requires Placed(s) && c in s.cos && s.cos[c].cont.SendRetry? && s.cos[c].cont.msg < |s.place|
    ensures Placed(DropPending(s, c))
  {
    var t := DropPending(s, c);
    var m0 := s.cos[c].cont.msg;
    assert PendingOk(s, c);
    assert forall m, x, p :: At(s, m, x, p) && m != m0 ==> At(t, m, x, p);
    forall d | d in t.cos && t.cos[d].cont.SendRetry?
      ensures PendingOk(t, d)
    {
      assert PendingOk(s, d);
    }
    forall m: Msg | m < |t.sent|
      ensures PlaceOk(t, m)
    {
      assert PlaceOk(s, m);
    }
    forall x | x in t.boxes
      ensures QueueOk(t, x)
    {
      assert QueueOk(s, x);
    }
    forall x | x in t.log
      ensures LogOk(t, x)
    {
      assert LogOk(s, x);
    }
  }

  /** Delivery before the owner is woken. */
  ghost function PutIn(s: State, c: Id): State
    requires Attempting(s, c) && s.cos[c].cont.target in s.boxes
  {
    var SendRetry(a, m) := s.cos[c].cont;
    var b := s.boxes[a];
    SetPlace(SetBox(Continue(s, c, Idle), a, b.(queue := b.queue + [m], reader := None)), m, Queued)
  }

  lemma PutInPlaced(s: State, c: Id)
    requires Placed(s) && Attempting(s, c) && s.cos[c].cont.target in s.boxes
    ensures Placed(PutIn(s, c))
  {
    var t := PutIn(s, c);
    var SendRetry(a, m0) := s.cos[c].cont;
    assert PendingOk(s, c);
    assert forall m, x, p :: At(s, m, x, p) && m != m0 ==> At(t, m, x, p);
    assert At(t, m0, a, Queued);
    forall d | d in t.cos && t.cos[d].cont.SendRetry?
      ensures PendingOk(t, d)
    {
      assert PendingOk(s, d);
    }
    forall m: Msg | m < |t.sent|
      ensures PlaceOk(t, m)
    {
      assert PlaceOk(s, m);
      if m == m0 {
        assert t.boxes[a].queue[|s.boxes[a].queue|] == m0;
      }
    }
    forall x | x in t.boxes
      ensures QueueOk(t, x)
    {
      assert QueueOk(s, x);
      if x == a {
        assert m0 !in s.boxes[a].queue;
        NoDupSnoc(s.boxes[a].queue, m0);
      }
    }
    forall x | x in t.log
      ensures LogOk(t, x)
    {
      assert LogOk(s, x);
    }
  }

  lemma PutInOrdered(s: State, c: Id)
    requires Ordered(s) && Placed(s) && Attempting(s, c) && s.cos[c].cont.target in s.boxes
    ensures Ordered(PutIn(s, c))
  {
    var t := PutIn(s, c);
    assert forall m, n :: SameSender(t, m, n) <==> SameSender(s, m, n);
    forall d | d in t.cos && t.cos[d].cont.SendRetry?
      ensures Latest(t, d)
    {
      assert Latest(s, d);
    }
    forall x | x in t.boxes
      ensures QueueOrdered(t, x) && LogBeforeQueue(t, x)
    {
      if x == s.cos[c].cont.target {
        PutInTarget(s, c);
      } else {
        assert QueueOrdered(s, x) && LogBeforeQueue(s, x) by { OrderedFor(s, x); }
        assert t.boxes[x] == s.boxes[x] && LogOf(t, x) == LogOf(s, x);
        OrderedSame(s, t, x);
      }
    }
    forall x | x in t.log
      ensures LogOrdered(t, x)
    {
      assert LogOrdered(s, x);
    }
  }

  /** Order of a mailbox that a step leaves alone. */
  lemma OrderedSame(s: State, t: State, a: Id)
    requires a in s.boxes && a in t.boxes && t.boxes[a].queue == s.boxes[a].queue
    requires LogOf(t, a) == LogOf(s, a) && t.sent == s.sent && QueueOrdered(s, a) && LogBeforeQueue(s, a)
    ensures QueueOrdered(t, a) && LogBeforeQueue(t, a)
  {
    assert forall m, n :: SameSender(t, m, n) <==> SameSender(s, m, n);
  }

  /** The mailbox the message goes into: it is its sender's latest. */
  lemma PutInTarget(s: State, c: Id)
    requires Ordered(s) && Placed(s) && Attempting(s, c) && s.cos[c].cont.target in s.boxes
    ensures var a := s.cos[c].cont.target; QueueOrdered(PutIn(s, c), a) && LogBeforeQueue(PutIn(s, c), a)
  {
    hide Ordered, Placed;
    var SendRetry(a, m0) := s.cos[c].cont;
    var t := PutIn(s, c);
    assert PendingOk(s, c) && Latest(s, c) && QueueOk(s, a) && LogOk(s, a) by { SenderFacts(s, c); }
    OrderedFor(s, a);
    assert forall m, n :: SameSender(t, m, n) <==> SameSender(s, m, n);
    assert forall m: Msg :: SameSender(s, m, m0) ==> m <= m0;
    assert forall i :: 0 <= i < |s.boxes[a].queue| ==> At(s, s.boxes[a].queue[i], a, Queued);
    assert forall i :: 0 <= i < |LogOf(s, a)| ==> At(s, LogOf(s, a)[i].msg, a, Received);
  }

  lemma SenderFacts(s: State, c: Id)
    requires Ordered(s) && Placed(s) && Attempting(s, c) && s.cos[c].cont.target in s.boxes
    ensures var a := s.cos[c].cont.target; PendingOk(s, c) && Latest(s, c) && QueueOk(s, a) && LogOk(s, a)
  {
    LogOkFor(s, s.cos[c].cont.target);
  }

  lemma DropOrdered(s: State, c: Id)
    requires Ordered(s) && c in s.cos && s.cos[c].cont.SendRetry? && s.cos[c].cont.msg < |s.place|
    ensures Ordered(DropPending(s, c))
  {
    var t := DropPending(s, c);
    assert forall m, n :: SameSender(t, m, n) <==> SameSender(s, m, n);
    forall d | d in t.cos && t.cos[d].cont.SendRetry?
      ensures Latest(t, d)
    {
      assert Latest(s, d);
    }
    forall x | x in t.boxes
      ensures QueueOrdered(t, x) && LogBeforeQueue(t, x)
    {
      assert QueueOrdered(s, x) && LogBeforeQueue(s, x);
    }
    forall x | x in t.log
      ensures LogOrdered(t, x)
    {
      assert LogOrdered(s, x);
    }
  }

  lemma AttemptHistory(s: State, c: Id)
    requires Placed(s) && Ordered(s) && Attempting(s, c)
    ensures Placed(AttemptStep(s, c)) && Ordered(AttemptStep(s, c))
  {
    hide Placed, Ordered, Wake;
    var SendRetry(a, m) := s.cos[c].cont;
    var t := AttemptStep(s, c);
    if a !in s.boxes {
      DropPlaced(s, c);
      DropOrdered(s, c);
    } else if |s.boxes[a].queue| < s.boxes[a].capacity {
      PutInPlaced(s, c);
      PutInOrdered(s, c);
      if s.boxes[a].reader.Some? {
        WakeStill(PutIn(s, c), s.boxes[a].reader.value);
        StillPlaced(PutIn(s, c), t);
        StillOrdered(PutIn(s, c), t);
      }
    } else {
      assert Still(s, t);
      StillPlaced(s, t);
      StillOrdered(s, t);
    }
  }

  // ----- receiving -----

  lemma RemoveAtFacts<T>(q: seq<T>, k: nat)
    requires k < |q|
    ensures |RemoveAt(q, k)| == |q| - 1
    ensures forall i :: 0 <= i < |q| - 1 ==> RemoveAt(q, k)[i] == q[if i < k then i else i + 1]
    ensures NoDup(q) ==> NoDup(RemoveAt(q, k)) && q[k] !in RemoveAt(q, k)
    ensures forall x :: x in q && x != q[k] ==> x in RemoveAt(q, k)
  {
    forall x | x in q && x != q[k]
      ensures x in RemoveAt(q, k)
    {
      var i :| 0 <= i < |q| && q[i] == x;
      assert RemoveAt(q, k)[if i < k then i else i - 1] == x;
    }
  }

  lemma TakePlaced(s: State, c: Id, k: nat)
    requires Placed(s) && Enabled(s, Take(c, k))
    ensures Placed(TakeOut(s, c, k))
  {
    hide RemoveAt;
    var t := TakeOut(s, c, k);
    var q := s.boxes[c].queue;
    var m0 := q[k];
    RemoveAtFacts(q, k);
    assert QueueOk(s, c) && At(s, m0, c, Queued);
    assert forall m, x, p :: At(s, m, x, p) && m != m0 ==> At(t, m, x, p);
    assert At(t, m0, c, Received);
    forall d | d in t.cos && t.cos[d].cont.SendRetry?
      ensures PendingOk(t, d)
    {
      assert PendingOk(s, d);
    }
    forall m: Msg | m < |t.sent|
      ensures PlaceOk(t, m)
    {
      assert PlaceOk(s, m);
      LoggedSnoc(LogOf(s, c), Entry(m0, !s.cos[c].cont.MatchCheck?), m);
    }
    forall x | x in t.boxes
      ensures QueueOk(t, x)
    {
      assert QueueOk(s, x);
    }
    forall x | x in t.log
      ensures LogOk(t, x)
    {
      LogOkFor(s, x);
      if x != c {
        assert LogOf(t, x) == LogOf(s, x);
      } else {
        assert LogOf(t, c) == LogOf(s, c) + [Entry(m0, !s.cos[c].cont.MatchCheck?)];
        assert forall i :: 0 <= i < |LogOf(s, c)| ==> At(s, LogOf(s, c)[i].msg, c, Received);
      }
    }
  }

  lemma LogOkFor(s: State, a: Id)
    requires Placed(s)
    ensures LogOk(s, a)
  {
  }

  lemma LoggedSnoc(l: seq<Entry>, e: Entry, m: Msg)
    ensures Logged(l, m) || e.msg == m ==> Logged(l + [e], m)
  {
    if e.msg == m {
      assert (l + [e])[|l|].msg == m;
    } else if Logged(l, m) {
      var i :| 0 <= i < |l| && l[i].msg == m;
      assert (l + [e])[i].msg == m;
    }
  }

  lemma TakeOrdered(s: State, c: Id, k: nat)
    requires Ordered(s) && Enabled(s, Take(c, k))
    ensures Ordered(TakeOut(s, c, k))
  {
    hide RemoveAt;
    var t := TakeOut(s, c, k);
    assert forall m, n :: SameSender(t, m, n) <==> SameSender(s, m, n);
    forall d | d in t.cos && t.cos[d].cont.SendRetry?
      ensures Latest(t, d)
    {
      assert Latest(s, d);
    }
    TakeOwnOrdered(s, c, k);
    forall x | x in t.boxes
      ensures QueueOrdered(t, x) && LogBeforeQueue(t, x)
    {
      if x != c {
        OrderedFor(s, x);
        assert LogOf(t, x) == LogOf(s, x);
      }
    }
    forall x | x in t.log
      ensures LogOrdered(t, x)
    {
      if x != c {
        assert LogOf(t, x) == LogOf(s, x);
        assert LogOrdered(s, x);
      }
    }
  }

  /** The receiving actor's own queue and log. */
  lemma TakeOwnOrdered(s: State, c: Id, k: nat)
    requires Ordered(s) && Enabled(s, Take(c, k))
    ensures var t := TakeOut(s, c, k); QueueOrdered(t, c) && LogBeforeQueue(t, c) && LogOrdered(t, c)
  {
    hide RemoveAt, Ordered;
    var t := TakeOut(s, c, k);
    var (q, l) := (s.boxes[c].queue, LogOf(s, c));
    var e := Entry(q[k], !s.cos[c].cont.MatchCheck?);
    assert QueueOrdered(s, c) && LogBeforeQueue(s, c) && LogOrdered(s, c) by {
      OrderedFor(s, c);
    }
    RemoveAtFacts(q, k);
    assert t.boxes[c].queue == RemoveAt(q, k) && LogOf(t, c) == l + [e];
    assert forall m, n :: SameSender(t, m, n) <==> SameSender(s, m, n);
    assert e.plain ==> k == 0;
    forall i, j | 0 <= i < |l + [e]| && 0 <= j < |q| - 1 && (l + [e])[i].plain && SameSender(s, (l + [e])[i].msg, RemoveAt(q, k)[j])
      ensures (l + [e])[i].msg < RemoveAt(q, k)[j]
    {
      var n := if j < k then j else j + 1;
      assert RemoveAt(q, k)[j] == q[n];
      assert i < |l| ==> (l + [e])[i] == l[i];
    }
    forall i, j | 0 <= i < j < |l + [e]| && (l + [e])[i].plain && SameSender(s, (l + [e])[i].msg, (l + [e])[j].msg)
      ensures (l + [e])[i].msg < (l + [e])[j].msg
    {
      assert (l + [e])[i] == l[i];
      assert j < |l| ==> (l + [e])[j] == l[j];
    }
  }

  lemma OrderedFor(s: State, a: Id)
    requires Ordered(s) && a in s.boxes
    ensures QueueOrdered(s, a) && LogBeforeQueue(s, a) && LogOrdered(s, a)
  {
  }

  lemma TakeHistory(s: State, c: Id, k: nat)
    requires Placed(s) && Ordered(s) && Enabled(s, Take(c, k))
    ensures Placed(TakeStep(s, c, k)) && Ordered(TakeStep(s, c, k))
  {
    hide Placed, Ordered, Wake;
    var t := TakeOut(s, c, k);
    TakePlaced(s, c, k);
    TakeOrdered(s, c, k);
    var b := t.boxes[c];
    if b.waiters != [] {
      var u := SetBox(t, c, b.(waiters := b.waiters[1..]));
      assert Still(t, u);
      StillPlaced(t, u);
      StillOrdered(t, u);
      WakeStill(u, b.waiters[0]);
      StillPlaced(u, Wake(u, b.waiters[0]));
      StillOrdered(u, Wake(u, b.waiters[0]));
    }
  }

  // ----- losing a whole queue -----

  /** `t` is `s` after the mailbox of `c` was emptied or removed, its messages
      dropped; `c` itself has no send pending. */
  ghost predicate Emptied(s: State, t: State, c: Id)
    requires c in s.boxes
  {
    && t.sent == s.sent && t.log == s.log && t.place == DropAll(s, s.boxes[c].queue).place
    && (forall d :: d in s.cos && s.cos[d].cont.SendRetry? ==> d in t.cos && t.cos[d].cont == s.cos[d].cont)
    && (forall d :: d in t.cos && t.cos[d].cont.SendRetry? ==> d in s.cos && s.cos[d].cont == t.cos[d].cont)
    && (forall a :: a in t.boxes && a != c ==> a in s.boxes && t.boxes[a].queue == s.boxes[a].queue)
    && (forall a :: a in s.boxes && a != c ==> a in t.boxes)
    && (c in t.boxes ==> t.boxes[c].queue == [])
  }

  lemma EmptiedPlaced(s: State, t: State, c: Id)
    requires Placed(s) && c in s.boxes && Emptied(s, t, c)
    ensures Placed(t)
  {
    var q := s.boxes[c].queue;
    assert QueueOk(s, c);
    assert forall m :: m in q ==> At(s, m, c, Queued);
    assert forall m, x, p :: At(s, m, x, p) && m !in q ==> At(t, m, x, p);
    forall d | d in t.cos && t.cos[d].cont.SendRetry?
      ensures PendingOk(t, d)
    {
      assert PendingOk(s, d);
    }
    forall m: Msg | m < |t.sent|
      ensures PlaceOk(t, m)
    {
      assert PlaceOk(s, m);
    }
    forall x | x in t.boxes
      ensures QueueOk(t, x)
    {
      assert x != c ==> QueueOk(s, x);
    }
    forall x | x in t.log
      ensures LogOk(t, x)
    {
      assert LogOk(s, x);
    }
  }

  lemma EmptiedOrdered(s: State, t: State, c: Id)
    requires Ordered(s) && c in s.boxes && Emptied(s, t, c)
    ensures Ordered(t)
  {
    assert forall m, n :: SameSender(t, m, n) <==> SameSender(s, m, n);
    forall d | d in t.cos && t.cos[d].cont.SendRetry?
      ensures Latest(t, d)
    {
      assert Latest(s, d);
    }
    forall x | x in t.boxes
      ensures QueueOrdered(t, x) && LogBeforeQueue(t, x)
    {
      assert x != c ==> QueueOrdered(s, x) && LogBeforeQueue(s, x);
    }
    forall x | x in t.log
      ensures LogOrdered(t, x)
    {
      assert LogOrdered(s, x);
    }
  }

  lemma SendHistory(s: State, c: Id, a: Id)
    requires Placed(s) && Ordered(s) && MaySend(s, c, a)
    ensures Placed(SendStep(s, c, a)) && Ordered(SendStep(s, c, a))
  {
    hide Placed, Ordered, AttemptStep;
    IssuePlaced(s, c, a);
    IssueOrdered(s, c, a);
    AttemptHistory(IssueStep(s, c, a), c);
  }

  lemma StepHistory(s: State, step: Step)
    requires Linked(s) && Placed(s) && Ordered(s) && Enabled(s, step)
    ensures Placed(Apply(s, step)) && Ordered(Apply(s, step))
  {
    hide Placed, Ordered, Remove, Linked, DieStep, SendStep, AttemptStep, TakeStep, Still;
    var t := Apply(s, step);
    if step.SpawnActor? {
      NoBoxYet(s, step.c);
    }
    match step
    case Send(c, a) => SendHistory(s, c, a);
    case Retry(c) => AttemptHistory(s, c);
    case Take(c, k) => TakeHistory(s, c, k);
    case Flush(c) => EmptiedPlaced(s, t, c); EmptiedOrdered(s, t, c);
    case Die(c) => DieHistory(s, c);
    case _ =>
      OthersStill(s, step);
      StillPlaced(s, t);
      StillOrdered(s, t);
  }

  lemma OthersStill(s: State, step: Step)
    requires Enabled(s, step) && !step.Send? && !step.Retry? && !step.Take? && !step.Flush? && !step.Die?
    requires step.SpawnActor? ==> step.c !in s.boxes
    ensures Still(s, Apply(s, step))
  {
    hide Remove;
  }

  lemma NoBoxYet(s: State, c: Id)
    requires Linked(s) && c !in s.cos
    ensures c !in s.boxes
  {
    assert forall a :: a in s.boxes ==> BoxOk(s, a);
  }

  lemma DieHistory(s: State, c: Id)
    requires Placed(s) && Ordered(s) && MayDie(s, c)
    ensures Placed(DieStep(s, c)) && Ordered(DieStep(s, c))
  {
    hide Placed, Ordered, Remove, DropPending;
    var u := s;
    if s.cos[c].cont.SendRetry? {
      u := DropPending(s, c);
      DropPlaced(s, c);
      DropOrdered(s, c);
      DropEndsSend(s, c);
    }
    BuryHistory(u, c);
  }

  lemma DropEndsSend(s: State, c: Id)
    requires c in s.cos && s.cos[c].cont.SendRetry? && s.cos[c].cont.msg < |s.place|
    ensures c in DropPending(s, c).cos && DropPending(s, c).cos[c].cont.Idle?
  {
  }

  lemma BuryHistory(s: State, c: Id)
    requires Placed(s) && Ordered(s) && c in s.cos && !s.cos[c].cont.SendRetry?
    ensures var t := Bury(CloseBox(Scrub(s, c), c), c); Placed(t) && Ordered(t)
  {
    hide Placed, Ordered, Remove;
    var t := Bury(CloseBox(Scrub(s, c), c), c);
    if c in s.boxes {
      assert Emptied(s, t, c);
      EmptiedPlaced(s, t, c);
      EmptiedOrdered(s, t, c);
    } else {
      assert Still(s, t);
      StillPlaced(s, t);
      StillOrdered(s, t);
    }
  }
}
