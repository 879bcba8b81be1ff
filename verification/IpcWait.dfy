/** The wake-up protocol of kern/ipc_msg.c and kern/ipc_port.c.  A receive that finds its port empty is
    two steps: one up to the switch inside sched_run, and one when the scheduler comes back to the
    thread. */
module IpcWait {
  import opened Words
  import opened Seqs
  import opened KernReturn
  import opened Sched
  import opened IpcKmsg
  import opened IpcPort

  /** The first queued thread besides `t`. */
  function NextAfter(q: seq<Thread>, t: Thread): (n: Thread?)
  {
    if q == [] then null else if q[0] != t then q[0] else if |q| > 1 then q[1] else null
  }

  /** The waiting half of mach_msg_receive: register, block, switch to whoever is next. */
  method BlockOn(port: Port, sched: Scheduler)
    requires sched.QueueOk() && sched.OneRuns() && sched.current in sched.queue
    requires exists t :: t in sched.queue && t != sched.current
    modifies port`waiting_thread, sched, sched.threads
    ensures sched.QueueOk() && sched.OneRuns() && sched.threads == old(sched.threads) && sched.idle == old(sched.idle)
    ensures port.waiting_thread == old(sched.current) && old(sched.current).state == Blocked
    ensures sched.current != old(sched.current) && sched.current in old(sched.queue) && sched.current.state == Running
    ensures sched.current == NextAfter(old(sched.queue), old(sched.current))
    ensures forall t :: t in sched.queue <==> t in old(sched.queue) && t != old(sched.current)
    ensures forall t :: t in sched.threads && t != old(sched.current) && t != sched.current ==> t.state == old(t.state)
  {
    hide Linked, Distinct, At, Rotated, NextAfter;
    var thread := sched.current;
    ghost var q := sched.queue;
    ghost var k :| 0 <= k < |q| && q[k] == thread;
    QueueWithout(sched, k);
    port.waiting_thread := thread;
    sched.Block(thread, k);
    sched.ChoiceKnown();
    sched.Run();
  }

  /** The queue once its thread at `k` has left it. */
  lemma QueueWithout(sched: Scheduler, k: nat)
    requires sched.QueueOk() && k < |sched.queue| && |sched.queue| > 1
    ensures var q := sched.queue[..k] + sched.queue[k + 1..];
            && q != [] && q[0] == NextAfter(sched.queue, sched.queue[k])
            && (forall t :: t in q <==> t in sched.queue && t != sched.queue[k])
            && forall t :: t in Rotated(q) <==> t in q
  {
    RemoveMembers(sched.queue, k);
    RotatedMembers(sched.queue[..k] + sched.queue[k + 1..]);
  }

  lemma RotatedMembers(q: seq<Thread>)
    ensures forall t :: t in Rotated(q) <==> t in q
  {
    if q != [] { assert q == [q[0]] + q[1..]; }
  }

  class Waits {
    const sched: Scheduler
    /** The live ports. */
    var ports: set<Port>
    /** The one thread that may receive from a port. */
    var receiver: map<Port, Thread>
    /** Threads between the two steps of a receive, with their ports, which in the kernel are on their
        stacks. */
    var pending: map<Thread, Port>

    /** After sched_create_idle, with no port yet: every thread is queued. */
    constructor (sched: Scheduler)
      requires sched.QueueOk() && sched.OneRuns() && sched.current != null && sched.current.state == Running
      requires sched.idle != null
      requires forall t :: t in sched.threads ==> t in sched.queue && (t.state == Runnable || t.state == Running)
      ensures WaitOk() && this.sched == sched && ports == {} && pending == map[]
    {
      this.sched := sched;
      ports, receiver, pending := {}, map[], map[];
    }

    /** What holds of threads and ports between steps, whoever receives from where. */
    ghost predicate Steady()
      reads `ports, `pending, sched, sched.threads, sched.queue`next, sched.queue`prev, ports`waiting_thread, ports`queue
    {
      && sched.QueueOk() && sched.OneRuns() && sched.current != null && sched.current.state == Running
      && sched.idle != null && sched.idle.state != Blocked
      && QueuedOk() && WaitersOk() && PendingOk()
    }

    /** No blocked thread is forgotten, and no thread is woken for nothing. */
    ghost predicate Handshake()
      reads `ports, `pending, sched, sched.threads, sched.queue`next, sched.queue`prev, ports`waiting_thread, ports`queue
    {
      Steady() && BlockedOk() && WokenOk()
    }

    /** ... and each port has one receiver, which is what keeps it so. */
    ghost predicate WaitOk()
      reads `ports, `receiver, `pending, sched, sched.threads, sched.queue`next, sched.queue`prev,
            ports`waiting_thread, ports`queue
    {
      Handshake() && OneReceiver()
    }

    /** Exactly the blocked threads are off the run queue. */
    ghost predicate QueuedOk()
      reads sched, sched.threads`state
    {
      forall t :: t in sched.threads ==> t.state != Terminated && (t.state == Blocked <==> t !in sched.queue)
    }

    /** A port's waiter is blocked on it, and the port is empty. */
    ghost predicate WaitersOk()
      reads `ports, `pending, sched, sched.threads`state, ports`waiting_thread, ports`queue
    {
      forall p :: p in ports && p.waiting_thread != null ==>
        && p.waiting_thread in pending && pending[p.waiting_thread] == p
        && p.waiting_thread in sched.threads && p.waiting_thread.state == Blocked && p.queue == []
    }

    ghost predicate BlockedOk()
      reads `ports, `pending, sched, sched.threads`state, ports`waiting_thread
    {
      forall t :: t in sched.threads && t.state == Blocked ==>
        t in pending && pending[t] in ports && pending[t].waiting_thread == t
    }

    ghost predicate PendingOk()
      reads `ports, `pending, sched
    {
      forall t :: t in pending ==> t in sched.threads && t != sched.idle && pending[t] in ports
    }

    /** A thread inside a receive that has been woken has a message to take. */
    ghost predicate WokenOk()
      requires PendingOk()
      reads `ports, `pending, sched, sched.threads`state, ports`queue
    {
      forall t :: t in pending && t.state != Blocked ==> pending[t].queue != []
    }

    /** Only its receiver is inside a receive on a port. */
    ghost predicate OneReceiver()
      reads `receiver, `pending
    {
      forall t :: t in pending ==> pending[t] in receiver && receiver[pending[t]] == t
    }

    /** A blocked thread that no port would wake. */
    ghost predicate Lost(t: Thread)
      reads `ports, sched`threads, sched`queue, t`state, ports`waiting_thread
    {
      t in sched.threads && t.state == Blocked && t !in sched.queue && forall p :: p in ports ==> p.waiting_thread != t
    }

    lemma LostBreaksHandshake(t: Thread)
      requires Lost(t)
      ensures !Handshake()
    {}

    /** Every blocked thread is the waiter of exactly one port. */
    lemma BlockedWaitsOnce(t: Thread)
      requires WaitOk() && t in sched.threads && t.state == Blocked
      ensures t !in sched.queue && t in pending && pending[t] in ports
      ensures forall p :: p in ports ==> (p.waiting_thread == t <==> p == pending[t])
    {}

    /** The current thread has blocked on `port` and another thread runs. */
    twostate predicate Began(port: Port)
      reads this, sched, sched.threads`state, ports`waiting_thread, ports`queue
    {
      var thread := old(sched.current);
      && thread != null && ports == old(ports) && receiver == old(receiver) && pending == old(pending)[thread := port]
      && sched.threads == old(sched.threads) && sched.idle == old(sched.idle)
      && thread in sched.threads && thread.state == Blocked
      && sched.current in sched.threads && sched.current != thread && sched.current in old(sched.queue)
      && (forall t :: t in sched.threads ==> (t in sched.queue <==> t in old(sched.queue) && t != thread))
      && sched.current.state == Running
      && (forall t :: t in sched.threads && t != thread && t != sched.current ==> t.state == old(t.state))
      && (forall p :: p in ports ==>
            p.queue == old(p.queue) && p.waiting_thread == if p == port then thread else old(p.waiting_thread))
    }

    /** The exact condition for registering at a port: nobody waits there already. */
    twostate lemma BeganIff(port: Port)
      requires old(Steady()) && old(sched.current) !in old(pending) && old(sched.current) != old(sched.idle)
      requires old(port in ports && port.queue == []) && Began(port)
      ensures QueuedOk() && WaitersOk() && PendingOk() && sched.idle.state != Blocked
      ensures old(Handshake()) ==> WokenOk() && (BlockedOk() <==> old(port.waiting_thread) == null)
      ensures forall t :: t in sched.threads && old(Lost(t)) ==> Lost(t)
      ensures old(port.waiting_thread) != null ==> Lost(old(port.waiting_thread))
    {
      assert port.waiting_thread == old(sched.current);
      var first := old(port.waiting_thread);
      if first != null {
        assert first in pending && pending[first] == port && first.state == Blocked;
      }
    }

    /** The first step of a receive on an empty port: register, block, switch.  A thread that was
        registered there is lost. */
    method Register(port: Port)
      requires Steady() && port in ports && port.queue == [] && sched.current !in pending && sched.current != sched.idle
      modifies `pending, port`waiting_thread, sched, sched.threads
      ensures Steady() && sched.threads == old(sched.threads) && sched.idle == old(sched.idle)
      ensures pending == old(pending)[old(sched.current) := port] && sched.current != old(sched.current)
      ensures sched.current == NextAfter(old(sched.queue), old(sched.current))
      ensures old(sched.current).state == Blocked && port.waiting_thread == old(sched.current)
      ensures old(Handshake()) ==> (Handshake() <==> old(port.waiting_thread) == null)
      ensures old(port.waiting_thread) != null ==> Lost(old(port.waiting_thread))
      ensures forall t :: t in sched.threads && old(Lost(t)) ==> Lost(t)
    {
      QueueFacts();
      var thread: Thread := sched.current;
      hide QueuedOk, WaitersOk, BlockedOk, PendingOk, WokenOk, Lost, Scheduler.QueueOk, Scheduler.OneRuns;
      BlockOn(port, sched);
      pending := pending[thread := port];
      BeganIff(port);
    }

    /** Nobody waits at a port whose one receiver is outside a receive. */
    lemma NobodyWaits(port: Port)
      requires WaitOk() && port in ports && port in receiver && receiver[port] !in pending
      ensures port.waiting_thread == null
    {}

    /** ... so the discipline of one receiver per port keeps the handshake. */
    method ReceiveBegin(port: Port)
      requires WaitOk() && port in ports && port.queue == [] && port in receiver && receiver[port] == sched.current
      requires sched.current !in pending && sched.current != sched.idle
      modifies `pending, port`waiting_thread, sched, sched.threads
      ensures WaitOk() && sched.threads == old(sched.threads) && sched.idle == old(sched.idle)
      ensures pending == old(pending)[old(sched.current) := port] && sched.current != old(sched.current)
      ensures sched.current == NextAfter(old(sched.queue), old(sched.current))
      ensures old(sched.current).state == Blocked && port.waiting_thread == old(sched.current)
    {
      NobodyWaits(port);
      hide Steady, BlockedOk, WokenOk, Lost;
      Register(port);
    }

    /** A thread that runs again inside its receive finds a message at its port, and it is the port's
        receiver. */
    lemma WokenFinds()
      requires WaitOk() && sched.current in pending
      ensures var p := pending[sched.current]; p in ports && p.queue != [] && p in receiver && receiver[p] == sched.current
    {}

    lemma Settled()
      requires WaitOk()
      ensures Steady()
    {}

    lemma QueueFacts()
      requires Steady()
      ensures sched.current in sched.queue && sched.idle in sched.queue
      ensures forall t :: t in sched.queue ==> t in sched.threads && t.state != Blocked
    {}

    lemma BlockedFacts(t: Thread, port: Port)
      requires WaitOk() && port in ports && port.waiting_thread == t && RingsOk()
      ensures Steady() && t in sched.threads && t in pending && pending[t] == port && port.RingOk()
    {}

    lemma WokenIs(t: Thread, port: Port)
      requires t in pending && pending[t] == port && t != sched.current && t.state == Runnable
      ensures OtherWoken(port)
    {}

    /** A message has been queued at `port` and its waiter, if any, woken. */
    twostate predicate Pushed(port: Port)
      reads this, sched, sched.threads`state, ports`waiting_thread, ports`queue
    {
      && ports == old(ports) && receiver == old(receiver) && pending == old(pending) && port in ports
      && sched.threads == old(sched.threads) && sched.idle == old(sched.idle) && sched.current == old(sched.current)
      && port.queue != [] && port.waiting_thread == null
      && (forall p :: p in ports && p != port ==> p.queue == old(p.queue) && p.waiting_thread == old(p.waiting_thread))
      && (forall t :: t in sched.threads ==>
            && t.state == (if t == old(port.waiting_thread) then Runnable else old(t.state))
            && (t in sched.queue <==> t in old(sched.queue) || t == old(port.waiting_thread)))
    }

    twostate lemma PushedOk(port: Port)
      requires old(Steady()) && Pushed(port)
      ensures QueuedOk() && WaitersOk() && PendingOk() && sched.OneRuns() && sched.idle.state != Blocked
      ensures old(Handshake()) ==> BlockedOk() && WokenOk()
      ensures forall t :: t in sched.threads && old(Lost(t)) ==> Lost(t)
    {}

    /** ipc_port_enqueue on a port of the system. */
    method Push(port: Port, kmsg: Kmsg) returns (kr: nat)
      requires Steady() && port in ports && port.RingOk()
      modifies port`msg_count, port`msg_last, port`queue, port`waiting_thread, port.messages
      modifies sched`head, sched`tail, sched`count, sched`queue, sched.threads`next, sched.threads`prev, sched.threads`state
      ensures Steady() && port.RingOk() && (old(Handshake()) ==> Handshake()) && (old(WaitOk()) ==> WaitOk())
      ensures forall t :: t in sched.threads && old(Lost(t)) ==> Lost(t)
      ensures sched.current == old(sched.current)
      ensures kr == if |old(port.queue)| >= IPC_PORT_QUEUE_MAX then KERN_NO_SPACE else KERN_SUCCESS
      ensures port.queue == if kr == KERN_SUCCESS then old(port.queue) + [kmsg] else old(port.queue)
      ensures forall t :: t in sched.threads ==>
                t.state == if kr == KERN_SUCCESS && t == old(port.waiting_thread) then Runnable else old(t.state)
    {
      hide Linked, Distinct, At, BlockedOk, WokenOk, PendingOk, Lost, OneReceiver, Scheduler.QueueOk, Port.RingOk;
      assert port.waiting_thread != null ==> port.waiting_thread in sched.threads && port.waiting_thread !in sched.queue;
      kr := port.Enqueue(kmsg, sched);
      if kr == KERN_SUCCESS {
        PushedOk(port);
      } else {
        UntouchedOk();
      }
    }

    /** Nothing the protocol looks at has changed. */
    twostate lemma UntouchedOk()
      requires old(Steady()) && ports == old(ports) && pending == old(pending)
      requires sched.threads == old(sched.threads) && sched.idle == old(sched.idle) && sched.current == old(sched.current)
      requires sched.queue == old(sched.queue)
      requires forall p :: p in ports ==> p.queue == old(p.queue) && p.waiting_thread == old(p.waiting_thread)
      requires forall t :: t in sched.threads ==> t.state == old(t.state)
      ensures QueuedOk() && WaitersOk() && PendingOk() && sched.OneRuns() && sched.idle.state != Blocked
      ensures old(Handshake()) ==> BlockedOk() && WokenOk()
      ensures forall t :: t in sched.threads && old(Lost(t)) ==> Lost(t)
    {}

    /** ... so the protocol holds as before. */
    twostate lemma NothingWaited()
      requires old(WaitOk()) && ports == old(ports) && receiver == old(receiver) && pending == old(pending)
      requires unchanged(sched) && unchanged(sched.threads)
      requires forall p :: p in ports ==> p.queue == old(p.queue) && p.waiting_thread == old(p.waiting_thread)
      ensures WaitOk()
    {
      hide QueuedOk, WaitersOk, BlockedOk, WokenOk, PendingOk, Lost;
      UntouchedOk();
    }

    /** The current thread has left its receive, or taken a message without waiting. */
    twostate predicate Popped(port: Port)
      reads this, sched, sched.threads`state, ports`waiting_thread, ports`queue
    {
      && ports == old(ports) && receiver == old(receiver) && sched.current != null && port in ports
      && pending == old(pending) - {sched.current}
      && sched.threads == old(sched.threads) && sched.idle == old(sched.idle) && sched.current == old(sched.current)
      && sched.queue == old(sched.queue)
      && (forall p :: p in ports ==> p.waiting_thread == old(p.waiting_thread))
      && (forall p :: p in ports && p != port ==> p.queue == old(p.queue))
      && (forall t :: t in sched.threads ==> t.state == old(t.state))
    }

    /** A thread other than the current one has been woken for a message of `port`. */
    ghost predicate OtherWoken(port: Port)
      reads `pending, sched`current, pending.Keys`state
    {
      exists t :: t in pending && t != sched.current && pending[t] == port && t.state != Blocked
    }

    /** The exact condition for taking a message: another woken thread must be left one. */
    twostate lemma PoppedIff(port: Port)
      requires old(Steady()) && Popped(port) && port.queue == if old(port.queue) == [] then [] else old(port.queue)[1..]
      ensures QueuedOk() && WaitersOk() && PendingOk()
      ensures old(Handshake()) ==> BlockedOk() && (WokenOk() <==> !(|old(port.queue)| == 1 && old(OtherWoken(port))))
      ensures forall t :: t in sched.threads && old(Lost(t)) ==> Lost(t)
    {
      if old(OtherWoken(port)) && |old(port.queue)| == 1 {
        var t :| t in old(pending) && t != sched.current && old(pending)[t] == port && old(t.state) != Blocked;
        assert t in pending;
      }
      assert old(Handshake()) && old(OtherWoken(port)) ==> old(port.queue) != [];
    }

    /** ipc_port_dequeue by the current thread, which thereby leaves a receive. */
    method Pop(port: Port) returns (kmsg: Kmsg?)
      requires Steady() && port in ports && port.RingOk()
      modifies `pending, port`msg_count, port`msg_first, port`queue, port.messages
      ensures Steady() && port.RingOk() && pending == old(pending) - {sched.current}
      ensures old(Handshake()) ==> (Handshake() <==> !(|old(port.queue)| == 1 && old(OtherWoken(port))))
      ensures old(WaitOk() && port in receiver && receiver[port] == sched.current) ==> WaitOk()
      ensures forall t :: t in sched.threads && old(Lost(t)) ==> Lost(t)
      ensures kmsg == if old(port.queue) == [] then null else old(port.queue)[0]
      ensures port.queue == if old(port.queue) == [] then [] else old(port.queue)[1..]
    {
      hide Linked, Distinct, At, QueuedOk, WaitersOk, BlockedOk, WokenOk, PendingOk, Lost, OtherWoken;
      hide Scheduler.QueueOk, Scheduler.OneRuns, Port.RingOk;
      NoOtherWoken(port);
      kmsg := port.Dequeue();
      pending := pending - {sched.current};
      PoppedIff(port);
    }

    /** Under the discipline nobody else can be woken for the port's messages. */
    lemma NoOtherWoken(port: Port)
      ensures OneReceiver() && port in receiver && receiver[port] == sched.current ==> !OtherWoken(port)
    {}

    /** thread_yield by a thread outside a receive. */
    method Yield()
      requires Steady() && sched.current !in pending
      modifies sched, sched.threads
      ensures Steady() && sched.threads == old(sched.threads) && sched.idle == old(sched.idle)
      ensures (old(Handshake()) ==> Handshake()) && (old(WaitOk()) ==> WaitOk())
      ensures forall t :: t in sched.threads && old(Lost(t)) ==> Lost(t)
      ensures (sched.queue, sched.current) == YieldStep(old(sched.queue), old(sched.current))
    {
      QueueFacts();
      RotatedMembers(sched.queue);
      hide QueuedOk, WaitersOk, BlockedOk, WokenOk, PendingOk, Lost, OneReceiver, Scheduler.QueueOk, Scheduler.OneRuns, Rotated;
      sched.ThreadYield();
      YieldedOk();
    }

    /** The processor may have been handed to another queued thread. */
    twostate lemma YieldedOk()
      requires old(Steady()) && ports == old(ports) && pending == old(pending)
      requires sched.threads == old(sched.threads) && sched.idle == old(sched.idle)
      requires old(sched.current) !in pending && sched.current in old(sched.queue)
      requires forall t :: t in sched.threads ==> (t in sched.queue <==> t in old(sched.queue))
      requires forall t :: t in sched.threads ==>
                 t.state == if sched.current == old(sched.current) then old(t.state) else if t == sched.current then Running
                            else if t == old(sched.current) && old(t.state) == Running then Runnable else old(t.state)
      requires forall p :: p in ports ==> p.queue == old(p.queue) && p.waiting_thread == old(p.waiting_thread)
      ensures sched.current.state == Running && QueuedOk() && WaitersOk() && PendingOk() && sched.idle.state != Blocked
      ensures old(Handshake()) ==> BlockedOk() && WokenOk()
      ensures forall t :: t in sched.threads && old(Lost(t)) ==> Lost(t)
    {}

    /** thread_create */
    method Spawn() returns (t: Thread)
      requires WaitOk()
      modifies sched, sched.threads`next, sched.threads`prev
      ensures WaitOk() && fresh(t) && sched.threads == old(sched.threads) + {t} && sched.queue == old(sched.queue) + [t]
      ensures sched.current == old(sched.current) && pending == old(pending)
    {
      hide QueuedOk, WaitersOk, BlockedOk, WokenOk, PendingOk, Scheduler.QueueOk, Scheduler.OneRuns;
      t := sched.Spawn();
      SpawnedOk();
    }

    /** A runnable thread has joined. */
    twostate lemma SpawnedOk()
      requires old(WaitOk()) && ports == old(ports) && receiver == old(receiver) && pending == old(pending)
      requires old(sched.threads) <= sched.threads && sched.idle == old(sched.idle)
      requires forall t :: t in old(sched.threads) ==>
                 t.state == old(t.state) && (t in sched.queue <==> t in old(sched.queue))
      requires forall t :: t in sched.threads && t !in old(sched.threads) ==> t.state == Runnable && t in sched.queue
      requires forall p :: p in ports ==> p.queue == old(p.queue) && p.waiting_thread == old(p.waiting_thread)
      ensures QueuedOk() && WaitersOk() && PendingOk() && BlockedOk() && WokenOk() && sched.idle.state != Blocked
    {}

    /** ipc_port_alloc, with the thread that is to receive from the port. */
    method AddPort(rcv: Thread) returns (p: Port)
      requires WaitOk() && rcv in sched.threads
      modifies `ports, `receiver
      ensures WaitOk() && fresh(p) && fresh(p.messages) && p.RingOk() && p.queue == [] && p.ref_count == 1
      ensures ports == old(ports) + {p} && receiver == old(receiver)[p := rcv]
    {
      p := new Port();
      ports := ports + {p};
      receiver := receiver[p := rcv];
    }
  
    /** Some thread is inside a receive on `port`. */
    ghost predicate Awaited(port: Port)
      reads `pending
    {
      exists t :: t in pending && pending[t] == port
    }

    /** `port` is about to be freed.  The protocol survives if and only if no thread is inside a receive on
        it; a thread that is registered there is lost. */
    method Retire(port: Port)
      requires Steady() && port in ports
      modifies `ports, `receiver
      ensures ports == old(ports) - {port} && receiver == old(receiver) - {port}
      ensures old(WaitOk()) ==> (WaitOk() <==> !Awaited(port))
      ensures port.waiting_thread != null ==> Lost(port.waiting_thread)
    {
      ports := ports - {port};
      receiver := receiver - {port};
      RetiredIff(port);
    }

    twostate lemma RetiredIff(port: Port)
      requires old(Steady()) && old(port in ports) && ports == old(ports) - {port} && receiver == old(receiver) - {port}
      requires pending == old(pending) && unchanged(sched) && unchanged(sched.threads) && unchanged(ports) && unchanged(port)
      ensures old(WaitOk()) ==> (WaitOk() <==> !Awaited(port))
      ensures port.waiting_thread != null ==> Lost(port.waiting_thread)
    {
      if old(WaitOk()) && !Awaited(port) {
        forall t | t in pending ensures pending[t] in ports && pending[t] in receiver && receiver[pending[t]] == t {
          assert old(pending[t] in ports && pending[t] in receiver) && pending[t] != port;
        }
      }
    }

    /** Every port's ring is in order and no two ports share one. */
    ghost predicate RingsOk()
      reads `ports, ports`msg_count, ports`msg_first, ports`msg_last, ports`queue, Rings()
    {
      && (forall p :: p in ports ==> p.messages in Rings() && p.RingOk())
      && (forall p, q :: p in ports && q in ports && p != q ==> p.messages != q.messages)
    }

    ghost function Rings(): set<array<Kmsg?>>
      reads `ports
    {
      set p | p in ports :: p.messages
    }

    lemma CurrentKnown()
      requires Steady()
      ensures sched.current != null && (sched.current in pending ==> pending[sched.current] in ports)
    {}

    lemma Emptied(port: Port)
      requires port.RingOk() && port.msg_count == 0
      ensures port.queue == []
    {}

    lemma Known(port: Port)
      requires Steady() && port in ports && port.waiting_thread != null
      ensures port.waiting_thread in sched.threads
    {}

    /** One step of the current thread, whoever it is and whatever it asks for.  A thread inside a
        receive finishes it; the idle thread does not receive. */
    method Do(act: WaitAct)
      requires Steady() && RingsOk()
      modifies `pending, sched, sched.threads, ports, Rings()
      ensures Steady() && RingsOk() && sched.threads == old(sched.threads)
      ensures forall t :: t in sched.threads && old(Lost(t)) ==> Lost(t)
    {
      hide Steady, Lost, Handshake, OneReceiver, Port.RingOk;
      CurrentKnown();
      if sched.current in pending {
        var kmsg := Pop(pending[sched.current]);
      } else if act.SendAct? && act.port in ports {
        var kr := Push(act.port, act.kmsg);
      } else if act.ReceiveAct? && act.port in ports && act.port.msg_count > 0 {
        var kmsg := Pop(act.port);
      } else if act.ReceiveAct? && act.port in ports && sched.current != sched.idle {
        Emptied(act.port);
        Register(act.port);
      } else {
        Yield();
      }
    }

    /** Two receivers on one port: when a second thread registers, the first is lost, and no run of sends,
        receives and yields by any threads ever wakes it. */
    method SecondReceiver(port: Port, acts: seq<WaitAct>)
      requires Steady() && RingsOk() && port in ports && port.queue == [] && port.waiting_thread != null
      requires sched.current !in pending && sched.current != sched.idle
      modifies `pending, sched, sched.threads, ports, Rings()
      ensures Steady() && Lost(old(port.waiting_thread)) && !Handshake()
    {
      hide Steady, Lost, Handshake, OneReceiver, RingsOk;
      ghost var first: Thread := port.waiting_thread;
      Known(port);
      Register(port);
      var i := 0;
      while i < |acts|
        invariant Steady() && RingsOk() && sched.threads == old(sched.threads) && first in sched.threads && Lost(first)
      {
        Do(acts[i]);
        i := i + 1;
      }
      LostBreaksHandshake(first);
    }
  }

  /** Threads created before the idle thread are ahead of it in the queue. */
  method ThreadsBeforeIdle() returns (sched: Scheduler, t: Thread, u: Thread)
    ensures fresh(sched) && fresh(sched.threads) && sched.QueueOk() && sched.OneRuns() && sched.idle != null
    ensures sched.queue == [t, u, sched.idle] && t != u && t != sched.idle && u != sched.idle
    ensures sched.threads == {t, u, sched.idle} && sched.current == sched.idle && sched.idle.state == Running
    ensures t.state == Runnable && u.state == Runnable
  {
    hide Linked, Distinct, At, LinkedAt;
    sched := new Scheduler();
    t := sched.Spawn();
    u := sched.Spawn();
    sched.CreateIdle();
  }

  /** A new protocol with one port, whose receiver is `t`. */
  method OnePort(sched: Scheduler, t: Thread) returns (w: Waits, port: Port)
    requires sched.QueueOk() && sched.OneRuns() && sched.current != null && sched.current.state == Running && sched.idle != null
    requires forall t :: t in sched.threads ==> t in sched.queue && (t.state == Runnable || t.state == Running)
    requires t in sched.threads
    ensures fresh(w) && fresh(port) && fresh(port.messages) && w.sched == sched && w.WaitOk() && w.RingsOk()
    ensures w.ports == {port} && port in w.receiver && w.receiver[port] == t && w.pending == map[] && port.queue == []
  {
    hide Scheduler.QueueOk, Scheduler.OneRuns, Waits.WaitOk, Port.RingOk;
    w := new Waits(sched);
    port := w.AddPort(t);
    assert port.messages in w.Rings();
  }

  /** A state with a blocked receiver and another thread running, reached by kernel calls alone: the
      first yield runs the thread at the head of the queue, and it receives. */
  method BlockedReceiver() returns (w: Waits, port: Port, t: Thread)
    ensures fresh(w) && fresh(w.sched) && fresh(w.sched.threads) && fresh(port) && fresh(port.messages)
    ensures w.WaitOk() && w.RingsOk() && w.ports == {port} && t in w.sched.threads
    ensures t.state == Blocked && port.waiting_thread == t && port.queue == []
    ensures w.sched.current !in w.pending && w.sched.current != w.sched.idle
  {
    var sched, u;
    sched, t, u := ThreadsBeforeIdle();
    hide Scheduler.QueueOk, Scheduler.OneRuns, Waits.Steady, Waits.Handshake, Waits.OneReceiver, Port.RingOk, Waits.Lost;
    w, port := OnePort(sched, t);
    w.Settled();
    w.Yield();
    assert w.sched.queue == [u, sched.idle, t] && w.sched.current == t;
    w.ReceiveBegin(port);
  }

  /** A port that is freed while a thread is inside a receive on it: the thread is lost. */
  method FreedUnderReceiver() returns (w: Waits, t: Thread)
    ensures fresh(w) && w.Lost(t) && !w.Handshake()
  {
    hide Waits.Steady, Waits.WaitOk, Waits.OneReceiver, Waits.Lost, Waits.RingsOk;
    var port;
    w, port, t := BlockedReceiver();
    w.BlockedFacts(t, port);
    w.Retire(port);
    w.LostBreaksHandshake(t);
  }

  /** A receiver that has been woken finds its message gone when another thread has taken it: whoever is
      running may do that between the two steps of the receive. */
  method WokenForNothing(kmsg: Kmsg) returns (w: Waits, port: Port, t: Thread)
    ensures fresh(w) && w.Steady() && !w.Handshake()
    ensures t in w.pending && t.state == Runnable && w.pending[t] == port && port.queue == []
  {
    hide Waits.Steady, Waits.Handshake, Waits.OneReceiver, Waits.OtherWoken, Port.RingOk, Waits.Lost;
    w, port, t := BlockedReceiver();
    w.BlockedFacts(t, port);
    var kr := w.Push(port, kmsg);
    w.WokenIs(t, port);
    var taken := w.Pop(port);
  }

  /** ... in which a second receiver may register: the first is not woken by any number of messages. */
  method LostReceiver(kmsg: Kmsg, n: nat) returns (w: Waits, t: Thread)
    ensures fresh(w) && w.Steady() && w.Lost(t) && !w.Handshake()
  {
    hide Waits.Steady, Waits.OneReceiver, Waits.RingsOk, Waits.Lost;
    var port;
    w, port, t := BlockedReceiver();
    assert w.Rings() == {port.messages};
    w.SecondReceiver(port, seq(n, _ => SendAct(port, kmsg)));
  }

  /** What a thread outside a receive may ask for. */
  datatype WaitAct = SendAct(port: Port, kmsg: Kmsg) | ReceiveAct(port: Port) | YieldAct
}
