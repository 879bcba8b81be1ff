/** kern/sched.c: the cooperative round-robin scheduler, on the thread structures themselves. */
module Sched {
  import opened Words
  import opened Seqs

  datatype State = Runnable | Running | Blocked | Terminated

  class Thread {
    var state: State
    var next: Thread?
    var prev: Thread?

    constructor ()
      ensures state == Runnable && next == null && prev == null
    {
      state, next, prev := Runnable, null, null;
    }
  }

  // ---- the run queue as a value ------------------------------------------------------------------

  /** sched_run moves the head to the tail. */
  function Rotated<T>(q: seq<T>): seq<T>
  {
    if q == [] then [] else q[1..] + [q[0]]
  }

  /** thread_yield, as a step on the queue and the current thread. */
  function YieldStep<T(==)>(q: seq<T>, cur: T): (seq<T>, T)
  {
    if q == [] || q[0] == cur then (q, cur) else (Rotated(q), q[0])
  }

  /** `n` yields in a row, by whichever thread is current. */
  function Yields<T(==)>(q: seq<T>, cur: T, n: nat): (seq<T>, T)
  {
    if n == 0 then (q, cur) else YieldStep(Yields(q, cur, n - 1).0, Yields(q, cur, n - 1).1)
  }

  /** The threads that become current during `n` yields. */
  function Trace<T(==)>(q: seq<T>, cur: T, n: nat): seq<T>
  {
    if n == 0 then [] else Trace(q, cur, n - 1) + [Yields(q, cur, n).1]
  }

  /** When the current thread is not at the head, `k` yields have run the first `k` queued threads, in
      queue order. */
  lemma {:induction false} YieldsRotate<T>(q: seq<T>, cur: T, k: nat)
    requires Distinct(q) && q != [] && q[0] != cur && k <= |q|
    ensures Yields(q, cur, k) == (q[k..] + q[..k], if k == 0 then cur else q[k - 1])
    ensures Trace(q, cur, k) == q[..k]
  {
    if k > 0 {
      YieldsRotate(q, cur, k - 1);
      var before := q[k - 1..] + q[..k - 1];
      assert before[0] == q[k - 1] && before[1..] == q[k..] + q[..k - 1] && q[..k] == q[..k - 1] + [q[k - 1]];
      assert Rotated(before) == q[k..] + q[..k];
      var (q1, cur1) := Yields(q, cur, k - 1);
      assert q1 == before && cur1 != q[k - 1];
      assert Yields(q, cur, k) == YieldStep(q1, cur1) == (Rotated(before), q[k - 1]);
    } else {
      assert q[0..] + q[..0] == q;
    }
  }

  /** So a full round runs every queued thread exactly once, in order, and restores the order. */
  lemma FullRound<T>(q: seq<T>, cur: T)
    requires Distinct(q) && q != [] && q[0] != cur
    ensures Trace(q, cur, |q|) == q && Yields(q, cur, |q|).0 == q && Yields(q, cur, |q|).1 == q[|q| - 1]
  {
    YieldsRotate(q, cur, |q|);
    assert q[|q|..] + q[..|q|] == q;
  }

  /** What may happen to the queue while the current thread keeps the processor. */
  datatype Act<T> = Yield | Enqueue(thread: T)

  function Acts<T(==)>(q: seq<T>, cur: T, acts: seq<Act<T>>): (seq<T>, T)
  {
    if acts == [] then (q, cur)
    else
      var (q1, cur1) := Acts(q, cur, acts[..|acts| - 1]);
      match acts[|acts| - 1]
      case Yield => YieldStep(q1, cur1)
      case Enqueue(t) => (q1 + [t], cur1)
  }

  /** A current thread at the head of the queue keeps the processor for ever: no run of yields and
      new or woken threads takes it away. */
  lemma {:induction false} HeadIsNeverPreempted<T>(q: seq<T>, cur: T, acts: seq<Act<T>>)
    requires q != [] && q[0] == cur
    ensures Acts(q, cur, acts).1 == cur && Acts(q, cur, acts).0 != [] && Acts(q, cur, acts).0[0] == cur
    decreases |acts|
  {
    if acts != [] { HeadIsNeverPreempted(q, cur, acts[..|acts| - 1]); }
  }

  lemma {:induction false} EnqueuesKeepHead<T>(q: seq<T>, cur: T, acts: seq<Act<T>>)
    requires q != [] && Yield !in acts
    ensures Acts(q, cur, acts).1 == cur && q <= Acts(q, cur, acts).0
    decreases |acts|
  {
    if acts != [] { EnqueuesKeepHead(q, cur, acts[..|acts| - 1]); }
  }

  /** With threads queued, some prefix of a run hands the processor over if and only if the run
      yields and the current thread was not already at the head. */
  lemma SwitchesIffNotHead<T>(q: seq<T>, cur: T, acts: seq<Act<T>>)
    requires q != []
    ensures (exists n :: 0 <= n <= |acts| && Acts(q, cur, acts[..n]).1 != cur) <==> Yield in acts && q[0] != cur
  {
    if q[0] == cur {
      forall n | 0 <= n <= |acts| ensures Acts(q, cur, acts[..n]).1 == cur { HeadIsNeverPreempted(q, cur, acts[..n]); }
    } else if Yield in acts {
      var n := FirstYield(acts);
      EnqueuesKeepHead(q, cur, acts[..n]);
      assert acts[..n + 1][..n] == acts[..n];
      assert Acts(q, cur, acts[..n + 1]).1 != cur;
    } else {
      forall n | 0 <= n <= |acts| ensures Acts(q, cur, acts[..n]).1 == cur { EnqueuesKeepHead(q, cur, acts[..n]); }
    }
  }

  ghost function FirstYield<T>(acts: seq<Act<T>>): (n: nat)
    requires Yield in acts
    ensures n < |acts| && acts[n] == Yield && Yield !in acts[..n]
  {
    if acts[0] == Yield then 0 else 1 + FirstYield(acts[1..])
  }

  // ---- the list ------------------------------------------------------------------------------------

  /** The thread at position `i`, or none outside the queue. */
  function At(q: seq<Thread>, i: int): Thread?
  {
    if 0 <= i < |q| then q[i] else null
  }

  ghost predicate LinkedAt(q: seq<Thread>, i: nat)
    requires i < |q|
    reads q`next, q`prev
  {
    q[i].prev == At(q, i - 1) && q[i].next == At(q, i + 1)
  }

  ghost predicate Linked(q: seq<Thread>)
    reads q`next, q`prev
  {
    Distinct(q) && forall i :: 0 <= i < |q| ==> LinkedAt(q, i)
  }

  lemma AppendKeepsDistinct(q: seq<Thread>, t: Thread)
    requires Distinct(q) && t !in q
    ensures Distinct(q + [t])
  {}

  lemma AppendedAt(q: seq<Thread>, t: Thread, i: int)
    requires i <= |q| + 1
    ensures At(q + [t], i) == if i == |q| then t else At(q, i)
  {}

  lemma RemoveKeepsDistinct(q: seq<Thread>, k: nat)
    requires Distinct(q) && k < |q|
    ensures Distinct(q[..k] + q[k + 1..]) && q[k] !in q[..k] + q[k + 1..]
  {}

  lemma RemovedAt(q: seq<Thread>, k: nat, i: int)
    requires k < |q| && -1 <= i <= |q|
    ensures At(q[..k] + q[k + 1..], i) == if i < k then At(q, i) else At(q, i + 1)
  {
    var q' := q[..k] + q[k + 1..];
    if 0 <= i < |q'| { assert q'[i] == if i < k then q[i] else q[i + 1]; }
  }

  lemma RemoveMembers(q: seq<Thread>, k: nat)
    requires Distinct(q) && k < |q|
    ensures forall t :: t in q[..k] + q[k + 1..] <==> t in q && t != q[k]
  {
    var q' := q[..k] + q[k + 1..];
    forall t | t in q && t != q[k] ensures t in q' {
      var i :| 0 <= i < |q| && q[i] == t;
      assert q'[if i < k then i else i - 1] == t;
    }
  }

  lemma AtIn(q: seq<Thread>, i: int)
    ensures At(q, i) != null ==> At(q, i) in q
  {}

  lemma Positions(q: seq<Thread>, k: nat, j: nat)
    requires Distinct(q) && j < |q| && j != k && k < |q|
    ensures At(q, j) == q[j] && q[j] != q[k]
    ensures At(q, k - 1) == q[j] <==> j == k - 1
    ensures At(q, k + 1) == q[j] <==> j == k + 1
  {}

  /** Different positions hold different threads. */
  lemma AtDiffers(q: seq<Thread>, i: int, j: int)
    requires Distinct(q) && 0 <= i < |q| && i != j
    ensures At(q, i) != At(q, j)
  {}

  // ---- the scheduler -----------------------------------------------------------------------------

  class Scheduler {
    var head: Thread?
    var tail: Thread?
    var count: nat
    var current: Thread?
    var idle: Thread?
    ghost var queue: seq<Thread>
    ghost var threads: set<Thread>

    /** sched_init */
    constructor ()
      ensures QueueOk() && queue == [] && threads == {} && current == null && idle == null
    {
      head, tail, count, current, idle := null, null, 0, null, null;
      queue, threads := [], {};
    }

    /** The queue is a doubly-linked list of known threads and every other known thread is unlinked. */
    ghost predicate QueueOk()
      reads this, threads`next, threads`prev, queue`next, queue`prev
    {
      && Linked(queue) && count == |queue| % U32
      && head == At(queue, 0) && tail == At(queue, |queue| - 1)
      && (forall t :: t in queue ==> t in threads)
      && (forall t :: t in threads && t !in queue ==> t.prev == null && t.next == null)
      && (current != null ==> current in threads) && (idle != null ==> idle in threads)
    }

    /** Only the current thread can be running; it is, unless it has just blocked. */
    ghost predicate OneRuns()
      reads `threads, `current, threads`state
    {
      forall t :: t in threads && t.state == Running ==> t == current
    }

    /** sched_enqueue */
    method Enqueue(t: Thread)
      requires QueueOk() && t in threads && t !in queue
      modifies `head, `tail, `count, `queue, threads`next, threads`prev
      ensures QueueOk() && queue == old(queue) + [t]
    {
      ghost var was := queue;
      AppendKeepsDistinct(was, t);
      t.next := null;
      t.prev := tail;
      if tail != null {
        tail.next := t;
      } else {
        head := t;
      }
      tail := t;
      count := (count + 1) % U32;
      queue := queue + [t];
      hide Distinct, At;
      forall i | 0 <= i < |queue| ensures LinkedAt(queue, i) {
        AppendedAt(was, t, i - 1);
        AppendedAt(was, t, i);
        AppendedAt(was, t, i + 1);
        if i < |was| { assert old(LinkedAt(was, i)); }
        if i < |was| - 1 { AtDiffers(was, i, |was| - 1); }
      }
    }

    /** The pointer updates of sched_dequeue. */
    method Unlink(t: Thread, ghost k: nat)
      requires QueueOk() && k < |queue| && queue[k] == t
      modifies `head, `tail, threads`next, threads`prev
      ensures head == if k == 0 then At(queue, 1) else old(head)
      ensures tail == if k == |queue| - 1 then At(queue, k - 1) else old(tail)
      ensures t.next == null && t.prev == null
      ensures forall u :: u in threads && u != t ==>
                && u.next == (if u == At(queue, k - 1) then At(queue, k + 1) else old(u.next))
                && u.prev == (if u == At(queue, k + 1) then At(queue, k - 1) else old(u.prev))
    {
      assert LinkedAt(queue, k);
      if t.prev != null {
        t.prev.next := t.next;
      } else {
        head := t.next;
      }
      if t.next != null {
        t.next.prev := t.prev;
      } else {
        tail := t.prev;
      }
      AtDiffers(queue, k, k - 1);
      AtDiffers(queue, k, k + 1);
      if k > 0 { AtDiffers(queue, k - 1, k + 1); }
      t.next := null;
      t.prev := null;
    }

    /** ... which leave a list without `t`. */
    method Relink(t: Thread, ghost k: nat) returns (ghost q: seq<Thread>)
      requires QueueOk() && k < |queue| && queue[k] == t
      modifies `head, `tail, threads`next, threads`prev
      ensures q == queue[..k] + queue[k + 1..] && Linked(q)
      ensures forall u :: u in threads && (u == t || u !in queue) ==> u.prev == null && u.next == null
      ensures head == At(q, 0) && tail == At(q, |q| - 1)
    {
      q := queue[..k] + queue[k + 1..];
      RemoveKeepsDistinct(queue, k);
      RemovedAt(queue, k, 0);
      RemovedAt(queue, k, |queue| - 2);
      Unlink(t, k);
      AtIn(queue, k - 1);
      AtIn(queue, k + 1);
      hide Distinct, At;
      forall i | 0 <= i < |q| ensures LinkedAt(q, i) {
        ghost var j := if i < k then i else i + 1;
        RemovedAt(queue, k, i - 1);
        RemovedAt(queue, k, i);
        RemovedAt(queue, k, i + 1);
        assert old(LinkedAt(queue, j));
        Positions(queue, k, j);
      }
    }

    /** sched_dequeue of a queued thread */
    method Dequeue(t: Thread, ghost k: nat)
      requires QueueOk() && k < |queue| && queue[k] == t
      modifies `head, `tail, `count, `queue, threads`next, threads`prev
      ensures QueueOk() && queue == old(queue)[..k] + old(queue)[k + 1..] && t !in queue
    {
      hide At, LinkedAt;
      RemoveMembers(queue, k);
      ghost var q := Relink(t, k);
      count := (count + U32 - 1) % U32;
      queue := q;
    }

    /** The thread sched_choose answers: the head of the queue, or the idle thread. */
    function Choice(): Thread?
      reads this
    {
      if head != null then head else idle
    }

    /** The test by which sched_run decides whether the chosen thread is in the queue. */
    predicate LooksQueued(t: Thread)
      reads this, t
    {
      t.prev != null || t.next != null || head == t
    }

    /** ... recognises queued threads exactly. */
    lemma LooksQueuedExactly(t: Thread)
      requires QueueOk() && t in threads
      ensures LooksQueued(t) <==> t in queue
    {
      if t in queue {
        var i :| 0 <= i < |queue| && queue[i] == t;
        assert LinkedAt(queue, i);
        if i > 0 { assert t.prev == queue[i - 1]; }
      }
    }

    /** sched_block of a queued thread */
    method Block(t: Thread, ghost k: nat)
      requires QueueOk() && k < |queue| && queue[k] == t
      modifies `head, `tail, `count, `queue, threads`next, threads`prev, t`state
      ensures QueueOk() && queue == old(queue)[..k] + old(queue)[k + 1..] && t !in queue
      ensures t.state == Blocked
    {
      t.state := Blocked;
      Dequeue(t, k);
    }

    /** sched_unblock of a thread that is not queued */
    method Unblock(t: Thread)
      requires QueueOk() && t in threads && t !in queue
      modifies `head, `tail, `count, `queue, threads`next, threads`prev, t`state
      ensures QueueOk() && queue == old(queue) + [t]
      ensures t.state == Runnable
    {
      t.state := Runnable;
      Enqueue(t);
    }

    /** The dequeue and enqueue of sched_run, when the link test says that the thread is queued. */
    method MoveToTail(next: Thread)
      requires QueueOk() && next in threads && (queue != [] ==> next == queue[0])
      modifies `head, `tail, `count, `queue, threads`next, threads`prev
      ensures QueueOk() && queue == if next in old(queue) then Rotated(old(queue)) else old(queue)
    {
      LooksQueuedExactly(next);
      hide Linked, Distinct, At;
      if LooksQueued(next) {
        ghost var q := queue;
        Dequeue(next, 0);
        Enqueue(next);
        assert q[..0] + q[1..] == q[1..];
      }
    }

    /** sched_run: switches to the chosen thread, which moves to the tail of the queue. */
    method Run()
      requires QueueOk() && OneRuns()
      modifies this, threads
      ensures QueueOk() && OneRuns() && idle == old(idle) && threads == old(threads)
      ensures if old(Choice()) == null || old(Choice()) == old(current) then
                queue == old(queue) && current == old(current) && forall t :: t in threads ==> t.state == old(t.state)
              else
                && current == old(Choice()) && current.state == Running && queue == Rotated(old(queue))
                && forall t :: t in threads && t != current ==>
                     t.state == if t == old(current) && old(t.state) == Running then Runnable else old(t.state)
    {
      var next := Choice();
      var was := current;
      if next == null || next == was {
        return;
      }
      ChoiceKnown();
      hide Linked, Distinct, At;
      if was != null {
        if was.state == Running {
          was.state := Runnable;
        }
      }
      next.state := Running;
      MoveToTail(next);
      current := next;
    }

    lemma ChoiceKnown()
      requires QueueOk()
      ensures Choice() != null ==> Choice() in threads
      ensures head != null <==> queue != []
      ensures queue != [] ==> Choice() == queue[0] && Choice() in queue
      ensures queue == [] ==> Choice() == idle && idle !in queue
    {}

    /** thread_yield: with threads queued, the queue and the current thread take one YieldStep. */
    method ThreadYield()
      requires QueueOk() && OneRuns()
      modifies this, threads
      ensures QueueOk() && OneRuns() && idle == old(idle) && threads == old(threads)
      ensures (queue, current) == if old(queue) != [] then YieldStep(old(queue), old(current))
                                  else ([], if idle == null then old(current) else idle)
      ensures forall t :: t in threads ==>
                t.state == if current == old(current) then old(t.state) else if t == current then Running
                           else if t == old(current) && old(t.state) == Running then Runnable else old(t.state)
    {
      ChoiceKnown();
      var next := Choice();
      if next != null && next != current {
        Run();
      }
    }

    /** The scheduler's part of thread_create. */
    method Spawn() returns (t: Thread)
      requires QueueOk() && OneRuns()
      modifies `head, `tail, `count, `queue, `threads, threads`next, threads`prev
      ensures QueueOk() && OneRuns() && fresh(t) && t.state == Runnable
      ensures threads == old(threads) + {t} && queue == old(queue) + [t]
    {
      hide Linked, Distinct, At;
      t := new Thread();
      threads := threads + {t};
      Enqueue(t);
    }

    /** sched_create_idle while nothing runs yet, with thread_create's part in the scheduler. */
    method CreateIdle()
      requires QueueOk() && OneRuns() && current == null
      modifies `head, `tail, `count, `queue, `threads, `idle, `current, threads`next, threads`prev
      ensures QueueOk() && OneRuns() && idle != null && current == idle
      ensures queue == old(queue) + [idle] && threads == old(threads) + {idle} && fresh(idle) && idle.state == Running
    {
      hide Linked, Distinct, At;
      var t := Spawn();
      idle := t;
      current := t;
      t.state := Running;
    }
  }

  /** After boot the idle thread is current and at the head of its own queue, so whatever threads are
      created, sched_idle never leaves it. */
  lemma BootNeverSwitches<T>(idle: T, acts: seq<Act<T>>)
    ensures Acts([idle], idle, acts).1 == idle
  {
    HeadIsNeverPreempted([idle], idle, acts);
  }
}
