/** kern/ipc_port.c: a port's message queue, a ring of 32 slots. */
module IpcPort {
  import opened Seqs
  import opened KernReturn
  import opened Sched
  import opened IpcKmsg

  const IPC_PORT_QUEUE_MAX: nat := 32

  function Slot(first: nat, i: nat): nat { (first + i) % IPC_PORT_QUEUE_MAX }

  /** The slots of different queue positions differ. */
  lemma SlotsDiffer(first: nat, i: nat, j: nat)
    requires i < j < IPC_PORT_QUEUE_MAX
    ensures Slot(first, i) != Slot(first, j)
  {}

  lemma SlotNext(first: nat, i: nat)
    requires first < IPC_PORT_QUEUE_MAX
    ensures Slot(first, 0) == first && Slot(first, 1) < IPC_PORT_QUEUE_MAX
    ensures Slot(Slot(first, 1), i) == Slot(first, i + 1) < IPC_PORT_QUEUE_MAX
  {
    if first + 1 < IPC_PORT_QUEUE_MAX {
      assert Slot(first, 1) == first + 1;
    } else {
      assert Slot(first, 1) == 0 && first + (i + 1) == IPC_PORT_QUEUE_MAX + i;
    }
  }

  class Port {
    var ref_count: nat
    var waiting_thread: Thread?
    const messages: array<Kmsg?>
    var msg_count: nat
    var msg_first: nat
    var msg_last: nat
    ghost var queue: seq<Kmsg>

    /** ipc_port_alloc */
    constructor ()
      ensures RingOk() && queue == [] && waiting_thread == null && ref_count == 1 && fresh(messages)
    {
      ref_count, waiting_thread, msg_count, msg_first, msg_last := 1, null, 0, 0, 0;
      messages := new Kmsg?[IPC_PORT_QUEUE_MAX](_ => null);
      queue := [];
    }

    /** The ring holds the queue, oldest message at `msg_first`. */
    ghost predicate RingOk()
      reads `msg_count, `msg_first, `msg_last, `queue, messages
    {
      && messages.Length == IPC_PORT_QUEUE_MAX && |queue| == msg_count <= IPC_PORT_QUEUE_MAX
      && msg_first < IPC_PORT_QUEUE_MAX && msg_last == Slot(msg_first, msg_count)
      && forall i :: 0 <= i < msg_count ==> messages[Slot(msg_first, i)] == queue[i]
    }

    /** The store half of ipc_port_enqueue. */
    method Put(kmsg: Kmsg) returns (kr: nat)
      requires RingOk()
      modifies `msg_count, `msg_last, `queue, messages
      ensures RingOk()
      ensures kr == if |old(queue)| >= IPC_PORT_QUEUE_MAX then KERN_NO_SPACE else KERN_SUCCESS
      ensures queue == if kr == KERN_SUCCESS then old(queue) + [kmsg] else old(queue)
    {
      if msg_count >= IPC_PORT_QUEUE_MAX {
        return KERN_NO_SPACE;
      }
      forall i | 0 <= i < msg_count ensures Slot(msg_first, i) != msg_last {
        SlotsDiffer(msg_first, i, msg_count);
      }
      messages[msg_last] := kmsg;
      msg_last := (msg_last + 1) % IPC_PORT_QUEUE_MAX;
      msg_count := msg_count + 1;
      queue := queue + [kmsg];
      return KERN_SUCCESS;
    }

    /** ipc_port_dequeue */
    method Dequeue() returns (kmsg: Kmsg?)
      requires RingOk()
      modifies `msg_count, `msg_first, `queue, messages
      ensures RingOk()
      ensures kmsg == if old(queue) == [] then null else old(queue)[0]
      ensures queue == if old(queue) == [] then [] else old(queue)[1..]
    {
      if msg_count == 0 {
        return null;
      }
      ghost var was, first := queue, msg_first;
      SlotNext(first, 0);
      SlotNext(first, msg_count - 1);
      assert messages[Slot(first, 0)] == was[0];
      kmsg := messages[msg_first];
      messages[msg_first] := null;
      msg_first := (msg_first + 1) % IPC_PORT_QUEUE_MAX;
      msg_count := msg_count - 1;
      queue := queue[1..];
      assert msg_first == Slot(first, 1);
      hide Slot;
      forall i | 0 <= i < msg_count ensures messages[Slot(msg_first, i)] == queue[i] {
        SlotNext(first, i);
        SlotsDiffer(first, 0, i + 1);
        assert old(messages[Slot(first, i + 1)]) == was[i + 1];
      }
    }

    /** ipc_port_enqueue: a waiting thread is made runnable and joins the run queue. */
    method Enqueue(kmsg: Kmsg, sched: Scheduler) returns (kr: nat)
      requires RingOk() && sched.QueueOk()
      requires waiting_thread != null ==> waiting_thread in sched.threads && waiting_thread !in sched.queue
      modifies `msg_count, `msg_last, `queue, `waiting_thread, messages
      modifies sched`head, sched`tail, sched`count, sched`queue, sched.threads`next, sched.threads`prev, sched.threads`state
      ensures RingOk() && sched.QueueOk()
      ensures kr == if |old(queue)| >= 32 then 3 else 0
      ensures kr != KERN_SUCCESS ==>
                queue == old(queue) && waiting_thread == old(waiting_thread) && sched.queue == old(sched.queue)
      ensures kr == KERN_SUCCESS ==> queue == old(queue) + [kmsg] && waiting_thread == null
      ensures kr == KERN_SUCCESS && old(waiting_thread) == null ==> sched.queue == old(sched.queue)
      ensures kr == KERN_SUCCESS && old(waiting_thread) != null ==>
                sched.queue == old(sched.queue) + [old(waiting_thread)] && old(waiting_thread).state == Runnable
      ensures forall t :: t in sched.threads && (kr != KERN_SUCCESS || t != old(waiting_thread)) ==> t.state == old(t.state)
    {
      kr := Put(kmsg);
      if kr != KERN_SUCCESS {
        return;
      }
      if waiting_thread != null {
        var waiter := waiting_thread;
        waiting_thread := null;
        sched.Unblock(waiter);
      }
    }

    /** ipc_port_release: the last reference frees every queued message. */
    method Release(zone: KmsgZone)
      requires RingOk() && ref_count > 0
      requires Distinct(queue) && forall k :: k in queue ==> k in zone.live
      modifies `ref_count, `msg_count, `msg_first, `queue, messages, zone`live
      ensures RingOk() && ref_count == old(ref_count) - 1
      ensures if ref_count > 0 then queue == old(queue) && zone.live == old(zone.live)
              else queue == [] && zone.live == old(zone.live) - set k | k in old(queue)
    {
      ref_count := ref_count - 1;
      if ref_count > 0 {
        return;
      }
      ghost var n := 0;
      while msg_count > 0
        invariant RingOk() && ref_count == old(ref_count) - 1 && n + msg_count == |old(queue)| && queue == old(queue)[n..]
        invariant zone.live == old(zone.live) - set k | k in old(queue)[..n]
        decreases msg_count
      {
        var kmsg := Dequeue();
        assert kmsg == old(queue)[n] && kmsg !in old(queue)[..n];
        if kmsg != null {
          zone.Free(kmsg);
        }
        n := n + 1;
      }
      assert old(queue)[..n] == old(queue);
    }
  }
}
