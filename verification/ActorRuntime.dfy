/** The runtime's own data structures: the circular buffer behind a mailbox, and
    the coroutine table with the linked list of blocked senders. */
module ActorRuntime {
  import opened Prelude
  import opened ActorState

  lemma Wrap(i: nat, n: nat)
    requires i < 2 * n
    ensures i % n == if i < n then i else i - n
  {
    var q := i / n;
    assert i == n * q + i % n;
    if q >= 2 {
      MulGrows(n, 2, q);
    } else if q == 0 {
      assert n * 0 == 0;
    } else {
      assert q == 1 && n * 1 == n;
    }
  }

  lemma MulGrows(n: nat, a: nat, b: nat)
    requires a <= b
    ensures n * a <= n * b
  {
  }

  /** The queue when the messages after `k` have moved down as far as slot `j`. */
  ghost function Moved(q: seq<Msg>, k: nat, j: nat): (r: seq<Msg>)
    requires k <= j < |q|
    ensures |r| == |q|
  {
    q[..k] + q[k + 1..j + 1] + q[j..]
  }

  lemma MovedFacts(q: seq<Msg>, k: nat, j: nat)
    requires k <= j < |q|
    ensures Moved(q, k, k) == q
    ensures j + 1 < |q| ==> Moved(q, k, j)[j := Moved(q, k, j)[j + 1]] == Moved(q, k, j + 1)
    ensures Moved(q, k, |q| - 1)[..|q| - 1] == RemoveAt(q, k)
  {
  }

  /** A mailbox's messages: head, tail and count over a fixed block of slots. */
  class MailboxRing {
    const data: array<Msg>
    var head: nat
    var tail: nat
    var count: nat

    ghost predicate Valid()
      reads this
    {
      && head < data.Length && count <= data.Length
      && tail == Slot(count)
    }

    /** Index of the k-th oldest message. */
    ghost function Slot(k: nat): nat
      reads this
    {
      if head + k < data.Length then head + k else head + k - data.Length
    }

    ghost function Contents(): (q: seq<Msg>)
      requires Valid()
      reads this, data
      ensures |q| == count
    {
      seq(count, k requires 0 <= k < count && Valid() reads this, data => data[Slot(k)])
    }

    constructor (capacity: nat)
      requires capacity > 0
      ensures Valid() && fresh(data) && data.Length == capacity && Contents() == []
    {
      data := new Msg[capacity];
      head, tail, count := 0, 0, 0;
    }

    method Push(m: Msg)
      requires Valid() && count < data.Length
      modifies this, data
      ensures Valid() && Contents() == old(Contents()) + [m]
    {
      data[tail] := m;
      Wrap(tail + 1, data.Length);
      tail := (tail + 1) % data.Length;
      count := count + 1;
      assert forall k :: 0 <= k < old(count) ==> Contents()[k] == old(Contents())[k];
    }

    method Pop() returns (m: Msg)
      requires Valid() && count > 0
      modifies this
      ensures Valid() && m == old(Contents())[0] && Contents() == old(Contents())[1..]
    {
      m := data[head];
      Wrap(head + 1, data.Length);
      head := (head + 1) % data.Length;
      count := count - 1;
      assert forall k :: 0 <= k < count ==> Contents()[k] == old(Contents())[k + 1];
    }

    method Get(k: nat) returns (m: Msg)
      requires Valid() && k < count
      ensures m == Contents()[k]
    {
      Wrap(head + k, data.Length);
      m := data[(head + k) % data.Length];
    }

    /** Overwrites the message at index `j` with the one after it. */
    method MoveDown(j: nat)
      requires Valid() && j + 1 < count
      modifies data
      ensures Valid() && Contents() == old(Contents())[j := old(Contents())[j + 1]]
    {
      Wrap(head + j, data.Length);
      var m := Get(j + 1);
      data[(head + j) % data.Length] := m;
    }

    method DropLast()
      requires Valid() && count > 0
      modifies this`tail, this`count
      ensures Valid() && Contents() == old(Contents())[..|old(Contents())| - 1]
    {
      Wrap(tail + data.Length - 1, data.Length);
      tail := (tail + data.Length - 1) % data.Length;
      count := count - 1;
    }

    /** mailbox_remove_at: the messages after index `k` move down one slot. */
    method RemoveIndex(k: nat) returns (m: Msg)
      requires Valid() && k < count
      modifies this, data
      ensures Valid() && m == old(Contents())[k] && Contents() == RemoveAt(old(Contents()), k)
    {
      hide Contents, Valid, Slot, Moved, RemoveAt;
      ghost var q := Contents();
      assert |q| == count;
      m := Get(k);
      var j := k;
      MovedFacts(q, k, k);
      while j + 1 < count
        invariant k <= j < count == |q| && Valid() && Contents() == Moved(q, k, j)
      {
        MovedFacts(q, k, j);
        MoveDown(j);
        j := j + 1;
      }
      MovedFacts(q, k, j);
      DropLast();
    }

    /** The cleanup walk over the queued messages, oldest first. */
    method Drain() returns (drained: seq<Msg>)
      requires Valid()
      modifies this
      ensures Valid() && drained == old(Contents()) && Contents() == []
    {
      drained := [];
      var idx := head;
      for i := 0 to count
        invariant Valid() && count == old(count) && Contents() == old(Contents())
        invariant idx == Slot(i) && drained == Contents()[..i]
      {
        drained := drained + [data[idx]];
        Wrap(idx + 1, data.Length);
        idx := (idx + 1) % data.Length;
      }
      assert drained == Contents();
      head, tail, count := 0, 0, 0;
    }
  }

  /** One blocked sender of a cleanup walk: woken if asleep, no timer touched. */
  ghost function WakeSleeper(s: State, w: Id): State {
    if Is(s, w, Sleeping) then
      s.(cos := s.cos[w := s.cos[w].(status := Ready, blocked := false)], ready := s.ready + [w])
    else s
  }

  ghost function WakeSleepers(s: State, ws: seq<Id>): State
    decreases |ws|
  {
    if ws == [] then s else WakeSleeper(WakeSleepers(s, ws[..|ws| - 1]), ws[|ws| - 1])
  }

  /** On a mailbox's waiters the walk is the wakeup of the whole list. */
  lemma {:induction false} WalkWakesAll(s: State, ws: seq<Id>)
    requires NoDup(ws) && forall w :: w in ws ==> Is(s, w, Sleeping)
    ensures WakeSleepers(s, ws) == WakeBlocked(s, ws)
    decreases |ws|
  {
    if ws == [] {
      assert WakeBlocked(s, ws).cos == s.cos;
      assert s.ready + [] == s.ready;
    } else {
      hide WakeSleeper, WakeBlocked;
      var n := |ws| - 1;
      var (front, w) := (ws[..n], ws[n]);
      assert ws == front + [w] && w !in front && w in ws;
      assert forall x :: x in front ==> x in ws;
      WalkWakesAll(s, front);
      WakeOneMore(s, front, w);
    }
  }

  lemma WakeOneMore(s: State, front: seq<Id>, w: Id)
    requires w !in front && Is(s, w, Sleeping)
    ensures WakeSleeper(WakeBlocked(s, front), w) == WakeBlocked(s, front + [w])
  {
    assert WakeSleeper(WakeBlocked(s, front), w).cos == WakeBlocked(s, front + [w]).cos;
    assert (s.ready + front) + [w] == s.ready + (front + [w]);
  }

  /** From `head` the links of `next` lead through `ws`. */
  ghost predicate Threaded(cos: map<Id, Co>, next: map<Id, Id>, head: Option<Id>, ws: seq<Id>) {
    && NoDup(ws)
    && (if ws == [] then head.None? else head == Some(ws[0]))
    && (forall i :: 0 <= i < |ws| ==> ws[i] in cos)
    && (forall i :: 0 <= i < |ws| - 1 ==> ws[i] in next && next[ws[i]] == ws[i + 1])
    && (ws != [] ==> ws[|ws| - 1] !in next)
  }

  /** Links of coroutines outside `ws` are as they were. */
  ghost predicate SameOutside(before: map<Id, Id>, after: map<Id, Id>, ws: seq<Id>) {
    forall x :: x !in ws ==> (x in after <==> x in before) && (x in after ==> after[x] == before[x])
  }

  /** A list that shares nobody with the one that changed. */
  lemma ThreadedApart(cos: map<Id, Co>, before: map<Id, Id>, after: map<Id, Id>, head: Option<Id>, ws: seq<Id>, changed: seq<Id>)
    requires Threaded(cos, before, head, ws) && SameOutside(before, after, changed)
    requires forall x :: x in ws ==> x !in changed
    ensures Threaded(cos, after, head, ws)
  {
    forall i | 0 <= i < |ws|
      ensures ws[i] in after <==> ws[i] in before
      ensures ws[i] in after ==> after[ws[i]] == before[ws[i]]
    {
      var x := ws[i];
      assert x in ws;
      assert x !in changed;
    }
  }

  /** The coroutine table, the scheduler's lists, and m_blocked_sender_next. */
  class Scheduler {
    var cos: map<Id, Co>
    var ready: seq<Id>
    var timers: seq<Id>
    var next: map<Id, Id>

    constructor ()
      ensures cos == map[] && ready == [] && timers == [] && next == map[]
    {
      cos, ready, timers, next := map[], [], [], map[];
    }

    ghost function View(): State
      reads this
    {
      INITIAL.(cos := cos, ready := ready, timers := timers)
    }

    method CoroutineWake(w: Option<Id>)
      requires w.Some? ==> w.value in cos
      modifies this`cos, this`ready, this`timers
      ensures View() == if w.Some? then Wake(old(View()), w.value) else old(View())
    {
      if w.Some? {
        var ctx := cos[w.value];
        if ctx.status == Sleeping {
          if !ctx.blocked {
            timers := Remove(timers, w.value);
          }
          cos := cos[w.value := ctx.(blocked := false, status := Ready)];
          ready := ready + [w.value];
        }
      }
    }

    /** `ws` are the coroutines reached from `head` through `next`. */
    ghost predicate Chain(head: Option<Id>, ws: seq<Id>)
      reads this
    {
      Threaded(cos, next, head, ws)
    }

    /** The second loop of coroutine_cleanup_mailbox. */
    method WakeBlockedSenders(head: Option<Id>, ghost ws: seq<Id>)
      requires Chain(head, ws)
      modifies this`cos, this`ready, this`next
      ensures View() == WakeSleepers(old(View()), ws)
      ensures next == old(next) - (set w | w in ws)
    {
      var blocked := head;
      ghost var k := 0;
      ghost var s0 := View();
      assert ws[..0] == [];
      while blocked.Some?
        invariant 0 <= k <= |ws| && timers == old(timers) && cos.Keys == old(cos).Keys
        invariant blocked == if k < |ws| then Some(ws[k]) else None
        invariant View() == WakeSleepers(s0, ws[..k])
        invariant next == old(next) - (set w | w in ws[..k])
        decreases |ws| - k
      {
        var sender := blocked.value;
        assert ws[..k + 1][..k] == ws[..k];
        assert sender !in ws[..k];
        var after := if sender in next then Some(next[sender]) else None;
        next := next - {sender};
        if cos[sender].status == Sleeping {
          cos := cos[sender := cos[sender].(blocked := false, status := Ready)];
          ready := ready + [sender];
        }
        blocked := after;
        k := k + 1;
      }
      assert ws[..k] == ws;
    }

    /** mailbox_append_blocked_sender: to the tail of the list. */
    method AppendBlockedSender(head: Option<Id>, c: Id, ghost ws: seq<Id>) returns (first: Option<Id>)
      requires Chain(head, ws) && c in cos && c !in ws
      modifies this`next
      ensures Chain(first, ws + [c])
      ensures forall x :: x != c && (ws == [] || x != ws[|ws| - 1]) ==>
        (x in next <==> x in old(next)) && (x in next ==> next[x] == old(next)[x])
    {
      next := next - {c};
      if head.None? {
        first := Some(c);
      } else {
        first := head;
        var tail := head.value;
        ghost var k := 0;
        while tail in next
          invariant 0 <= k < |ws| && tail == ws[k] && next == old(next) - {c}
          invariant Chain(head, ws)
          decreases |ws| - k
        {
          tail := next[tail];
          k := k + 1;
        }
        next := next[tail := c];
      }
    }

    /** mailbox_wake_head_sender: the head leaves the list and is woken. */
    method WakeHeadSender(head: Option<Id>, ghost ws: seq<Id>) returns (first: Option<Id>)
      requires Chain(head, ws)
      modifies this`cos, this`ready, this`timers, this`next
      ensures ws == [] ==> Chain(first, []) && View() == old(View()) && next == old(next)
      ensures ws != [] ==> Chain(first, ws[1..]) && View() == Wake(old(View()), ws[0]) && next == old(next) - {ws[0]}
    {
      hide Remove;
      first := None;
      if head.Some? {
        var sender := head.value;
        first := if sender in next then Some(next[sender]) else None;
        next := next - {sender};
        assert forall i :: 0 <= i < |ws| - 1 ==> ws[1..][i] == ws[i + 1];
        CoroutineWake(Some(sender));
      }
    }

    /** Entry `j` of a list leaves it: the link before it now skips it. */
    method Unlink(head: Option<Id>, prev: Option<Id>, ghost ws: seq<Id>, sender: Id, ghost j: nat) returns (first: Option<Id>)
      requires Chain(head, ws) && j < |ws| && ws[j] == sender
      requires prev == if j == 0 then None else Some(ws[j - 1])
      modifies this`next
      ensures Chain(first, RemoveAt(ws, j)) && SameOutside(old(next), next, ws)
    {
      var after := if sender in next then Some(next[sender]) else None;
      first := head;
      if prev.None? {
        first := after;
      } else if after.Some? {
        next := next[prev.value := after.value];
      } else {
        next := next - {prev.value};
      }
      next := next - {sender};
      assert forall i :: 0 <= i < |ws| - 1 ==> RemoveAt(ws, j)[i] == ws[if i < j then i else i + 1];
    }

    /** The list of one mailbox in coroutine_scrub_registrations; no list holds an
        entry twice, so the walk may end at the one it unlinks. */
    method ScrubSender(head: Option<Id>, dying: Id, ghost ws: seq<Id>) returns (first: Option<Id>)
      requires Chain(head, ws)
      modifies this`next
      ensures Chain(first, Remove(ws, dying)) && SameOutside(old(next), next, ws)
    {
      hide Remove, RemoveAt;
      var prev: Option<Id> := None;
      var curr := head;
      ghost var k := 0;
      while curr.Some? && curr.value != dying
        invariant 0 <= k <= |ws| && Chain(head, ws)
        invariant curr == if k < |ws| then Some(ws[k]) else None
        invariant prev == if k == 0 then None else Some(ws[k - 1])
        invariant next == old(next) && forall i :: 0 <= i < k ==> ws[i] != dying
        decreases |ws| - k
      {
        prev := curr;
        curr := if curr.value in next then Some(next[curr.value]) else None;
        k := k + 1;
      }
      first := head;
      if curr.Some? {
        RemoveIs(ws, k);
        first := Unlink(head, prev, ws, dying, k);
      } else {
        RemoveAbsent(ws, dying);
      }
    }

    /** coroutine_scrub_registrations over the mailboxes of `s`: every list of
        blocked senders loses the dying coroutine. */
    method ScrubAll(heads: map<Id, Option<Id>>, dying: Id, ghost s: State) returns (firsts: map<Id, Option<Id>>)
      requires heads.Keys == s.boxes.Keys && forall a :: a in s.boxes ==> Chain(heads[a], s.boxes[a].waiters)
      requires forall a, b, x :: a in s.boxes && b in s.boxes && a != b && x in s.boxes[a].waiters ==> x !in s.boxes[b].waiters
      modifies this`next
      ensures firsts.Keys == s.boxes.Keys
      ensures forall a :: a in s.boxes ==> Chain(firsts[a], Scrub(s, dying).boxes[a].waiters)
    {
      hide Remove, Threaded;
      firsts := heads;
      var todo := heads.Keys;
      while todo != {}
        invariant todo <= heads.Keys == firsts.Keys
        invariant forall a :: a in s.boxes ==> Chain(firsts[a], Left(s, a, dying, a in todo))
        decreases todo
      {
        var a :| a in todo;
        ghost var before := next;
        ghost var ws := s.boxes[a].waiters;
        var first := ScrubSender(firsts[a], dying, ws);
        forall b | b in s.boxes && b != a
          ensures Chain(firsts[b], Left(s, b, dying, b in todo))
        {
          LeftWithin(s, b, dying, b in todo);
          ThreadedApart(cos, before, next, firsts[b], Left(s, b, dying, b in todo), ws);
        }
        firsts := firsts[a := first];
        todo := todo - {a};
      }
    }
  }

  /** The waiters of `a` before or after its list was scrubbed. */
  ghost function Left(s: State, a: Id, dying: Id, todo: bool): seq<Id>
    requires a in s.boxes
  {
    if todo then s.boxes[a].waiters else Remove(s.boxes[a].waiters, dying)
  }

  lemma LeftWithin(s: State, a: Id, dying: Id, todo: bool)
    requires a in s.boxes
    ensures forall x :: x in Left(s, a, dying, todo) ==> x in s.boxes[a].waiters
  {
    RemoveMembers(s.boxes[a].waiters, dying);
  }

  /** Without repetitions, removing a value is removing its index. */
  lemma {:induction false} RemoveIs(ws: seq<Id>, j: nat)
    requires NoDup(ws) && j < |ws|
    ensures Remove(ws, ws[j]) == RemoveAt(ws, j)
    decreases |ws|
  {
    if j == 0 {
      RemoveAbsent(ws[1..], ws[0]);
    } else {
      RemoveIs(ws[1..], j - 1);
    }
  }
}
