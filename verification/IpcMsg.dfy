/** kern/ipc_msg.c: sending and receiving messages. */
module IpcMsg {
  import opened Words
  import opened Seqs
  import opened KernReturn
  import opened Sched
  import opened IpcKmsg
  import opened IpcPort
  import opened IpcSpace
  import opened IpcWait

  class Ipc {
    const waits: Waits
    const zone: KmsgZone
    /** The port each live kernel message is queued at. */
    ghost var home: map<Kmsg, Port>
    /** Every message ever accepted by a port, and how many of them have been taken out again. */
    ghost var sent: map<Port, seq<Message>>
    ghost var taken: map<Port, nat>

    constructor (waits: Waits)
      requires waits.ports == {}
      ensures MessagesOk() && this.waits == waits && fresh(zone) && zone.live == {}
    {
      this.waits := waits;
      zone := new KmsgZone();
      home, sent, taken := map[], map[], map[];
    }

    function Ports(): set<Port>
      reads waits`ports
    {
      waits.ports
    }


    ghost function Bodies(): set<array<Byte>>
      reads `home
    {
      set k | k in home :: k.data
    }

    /** The message at position `i` of the queue of `p` is the one sent there, byte for byte. */
    ghost predicate HoldsAt(p: Port, i: nat)
      requires p in Ports() && i < |p.queue|
      reads this, home.Keys, waits`ports, Ports(), Bodies()
    {
      var k := p.queue[i];
      && k in home && k.data in Bodies() && home[k] == p
      && p in sent && p in taken && taken[p] + i < |sent[p]|
      && k.Valid() && k.Contents() == sent[p][taken[p] + i]
    }

    /** The queue of `p` is what was sent there and not yet taken, in order. */
    ghost predicate PortOk(p: Port)
      requires p in Ports()
      reads this, home.Keys, waits`ports, Ports(), waits.Rings(), Bodies()
    {
      && p.messages in waits.Rings() && p.RingOk() && Distinct(p.queue)
      && p in sent && p in taken && |sent[p]| == taken[p] + |p.queue|
      && forall i :: 0 <= i < |p.queue| ==> HoldsAt(p, i)
    }

    /** Every port is in order and every kernel message with a home is queued there. */
    ghost predicate Kept()
      reads this, home.Keys, waits`ports, Ports(), waits.Rings(), Bodies()
    {
      && (forall p :: p in Ports() ==> PortOk(p))
      && (forall k :: k in home ==> home[k] in Ports() && k in home[k].queue)
      && (forall p, q :: p in Ports() && q in Ports() && p != q ==> p.messages != q.messages)
    }

    /** ... and every live kernel message has one. */
    ghost predicate MessagesOk()
      reads this, zone, home.Keys, waits`ports, Ports(), waits.Rings(), Bodies()
    {
      Kept() && home.Keys == zone.live
    }

    /** A new kernel message has been queued at `port`. */
    twostate predicate Delivered(port: Port)
      requires port.queue != [] && old(port in Ports() && Kept())
      reads *
    {
      var kmsg := port.queue[|port.queue| - 1];
      && Ports() == old(Ports()) && taken == old(taken)
      && kmsg !in old(home) && kmsg.Valid() && port.RingOk() && port.queue == old(port.queue) + [kmsg]
      && home == old(home)[kmsg := port] && sent == old(sent)[port := old(sent[port]) + [kmsg.Contents()]]
      && (forall q :: q in Ports() && q != port ==> q.RingOk() && q.queue == old(q.queue))
      && (forall k :: k in old(home) ==> unchanged(k) && unchanged(k.data))
    }

    twostate lemma DeliveredElsewhere(f: Pair)
      requires f.port.queue != [] && old(f.port in Ports() && Kept()) && Delivered(f.port)
      requires f.other in Ports() && f.other != f.port
      ensures PortOk(f.other)
    {
      var q := f.other;
      hide Port.RingOk, Distinct;
      assert old(PortOk(q));
      forall i | 0 <= i < |q.queue| ensures HoldsAt(q, i) {
        assert old(HoldsAt(q, i));
      }
    }

    twostate lemma DeliveredHere(port: Port)
      requires port.queue != [] && old(port in Ports() && Kept()) && Delivered(port)
      ensures PortOk(port)
    {
      hide Port.RingOk;
      assert old(PortOk(port));
      forall i | 0 <= i < |port.queue| ensures HoldsAt(port, i) {
        if i < |port.queue| - 1 { assert old(HoldsAt(port, i)); }
      }
      assert Distinct(port.queue) by {
        forall i | 0 <= i < |port.queue| - 1 ensures port.queue[i] in old(home) { assert old(HoldsAt(port, i)); }
      }
    }

    twostate lemma DeliveredOk(port: Port)
      requires port.queue != [] && old(port in Ports() && Kept()) && Delivered(port)
      ensures Kept()
    {
      hide PortOk;
      var kmsg := port.queue[|port.queue| - 1];
      DeliveredHere(port);
      forall q | q in Ports() && q != port ensures PortOk(q) {
        DeliveredElsewhere(Pair(port, q));
      }
      forall k | k in home ensures home[k] in Ports() && k in home[k].queue {
        assert k != kmsg ==> k in old(home);
      }
    }

    /** Nothing has happened to the messages. */
    twostate lemma NothingDelivered()
      requires old(Kept()) && Ports() == old(Ports()) && home == old(home) && sent == old(sent) && taken == old(taken)
      requires forall k :: k in home ==> unchanged(k) && unchanged(k.data)
      requires forall q :: q in Ports() ==> q.RingOk() && q.queue == old(q.queue)
      ensures Kept()
    {
      hide Port.RingOk, Distinct;
      forall q | q in Ports() ensures PortOk(q) {
        assert old(PortOk(q));
        forall i | 0 <= i < |q.queue| ensures HoldsAt(q, i) { assert old(HoldsAt(q, i)); }
      }
    }

    lemma AllRings(port: Port)
      requires Kept() && port in Ports()
      ensures port in sent && port in taken
      ensures forall q :: q in Ports() ==> q.RingOk() && (q != port ==> q.messages != port.messages)
    {
      hide Port.RingOk;
      forall q | q in Ports() ensures q.RingOk() { assert PortOk(q); }
      assert PortOk(port);
    }

    /** `port` has accepted `m`, and nothing else has been sent. */
    twostate predicate Accepted(port: Port?, m: Message)
      reads `sent
    {
      port != null && port in old(sent) && sent == old(sent)[port := old(sent)[port] + [m]]
    }

    /** Queues a kernel message that is not queued anywhere. */
    method QueueCopy(port: Port, kmsg: Kmsg) returns (kr: nat)
      requires waits.WaitOk() && Kept() && port in Ports() && kmsg !in home && kmsg.Valid()
      modifies `home, `sent, port`msg_count, port`msg_last, port`queue, port`waiting_thread, port.messages
      modifies waits.sched`head, waits.sched`tail, waits.sched`count, waits.sched`queue
      modifies waits.sched.threads`next, waits.sched.threads`prev, waits.sched.threads`state
      ensures waits.WaitOk() && Kept()
      ensures kr == if |old(port.queue)| >= IPC_PORT_QUEUE_MAX then KERN_NO_SPACE else KERN_SUCCESS
      ensures kr == KERN_SUCCESS ==> home == old(home)[kmsg := port] && Accepted(port, old(kmsg.Contents()))
      ensures kr != KERN_SUCCESS ==>
                home == old(home) && sent == old(sent) && port.queue == old(port.queue) && port.RingOk()
    {
      hide Waits.WaitOk, Waits.Steady, Waits.Handshake, Waits.OneReceiver, Waits.Lost, Waits.OtherWoken;
      hide Kept, Port.RingOk, Kmsg.Contents, Kmsg.Valid, Waits.Rings, Bodies;
      AllRings(port);
      waits.Settled();
      kr := waits.Push(port, kmsg);
      if kr == KERN_SUCCESS {
        home := home[kmsg := port];
        sent := sent[port := sent[port] + [kmsg.Contents()]];
        DeliveredOk(port);
      } else {
        NothingDelivered();
      }
    }

    /** zalloc had no kernel message left. */
    twostate predicate Refused()
      reads zone
    {
      zone.refusals > old(zone.refusals)
    }

    /** ipc_kmsg_alloc and ipc_kmsg_copyin, undone when either fails. */
    method MakeCopy(msg: UserMessage, size: Word) returns (kr: nat, kmsg: Kmsg?)
      requires size <= HEADER_SIZE + msg.payload.Length
      modifies zone
      ensures kr != KERN_SUCCESS ==> zone.live == old(zone.live)
      ensures kr == if size > KMSG_ZONE_SIZE || Refused() then KERN_NO_SPACE
                    else if size < HEADER_SIZE then KERN_INVALID_ARGUMENT else KERN_SUCCESS
      ensures kr == KERN_SUCCESS ==>
                && HEADER_SIZE <= size <= KMSG_ZONE_SIZE && kmsg != null && fresh(kmsg) && fresh(kmsg.data)
                && zone.live == old(zone.live) + {kmsg} && kmsg.Valid()
                && kmsg.Contents() == Message(msg.header, msg.payload[..size - HEADER_SIZE])
    {
      kmsg := zone.Alloc(size);
      if kmsg == null {
        return KERN_NO_SPACE, null;
      }
      kr := CopyIn(kmsg, msg, size);
      if kr != KERN_SUCCESS {
        zone.Free(kmsg);
      }
    }

    /** The second half of mach_msg_send: copy the message into the kernel and queue it; a failure
        leaves no kernel message behind. */
    method Deliver(port: Port, msg: UserMessage, size: Word) returns (kr: nat)
      requires waits.WaitOk() && MessagesOk() && port in Ports() && size <= HEADER_SIZE + msg.payload.Length
      modifies `home, `sent, zone, port`msg_count, port`msg_last, port`queue, port`waiting_thread, port.messages
      modifies waits.sched`head, waits.sched`tail, waits.sched`count, waits.sched`queue
      modifies waits.sched.threads`next, waits.sched.threads`prev, waits.sched.threads`state
      ensures waits.WaitOk() && MessagesOk()
      ensures kr == if size > KMSG_ZONE_SIZE || Refused() then KERN_NO_SPACE
                    else if size < HEADER_SIZE then KERN_INVALID_ARGUMENT
                    else if |old(port.queue)| >= IPC_PORT_QUEUE_MAX then KERN_NO_SPACE else KERN_SUCCESS
      ensures kr == KERN_SUCCESS ==>
                && HEADER_SIZE <= size <= KMSG_ZONE_SIZE
                && Accepted(port, old(Message(msg.header, msg.payload[..size - HEADER_SIZE])))
      ensures kr != KERN_SUCCESS ==> sent == old(sent) && zone.live == old(zone.live)
      ensures forall k :: k in home ==> k in old(home) || (fresh(k) && fresh(k.data))
    {
      hide Waits.WaitOk, Waits.Steady, Waits.Handshake, Waits.OneReceiver, Waits.Lost, Waits.OtherWoken;
      hide Kept, Kmsg.Contents, Kmsg.Valid, Port.RingOk, Waits.Rings, Bodies;
      AllRings(port);
      var kmsg;
      kr, kmsg := MakeCopy(msg, size);
      NothingDelivered();
      if kr == KERN_SUCCESS {
        kr := QueueCopy(port, kmsg);
        if kr != KERN_SUCCESS {
          zone.Free(kmsg);
          NothingDelivered();
        }
      }
    }

    /** The oldest message of `port` has left. */
    twostate predicate Taken(port: Port)
      requires old(port in Ports() && Kept() && port.queue != [])
      reads *
    {
      && Ports() == old(Ports()) && sent == old(sent) && port in old(taken)
      && taken == old(taken)[port := old(taken[port]) + 1] && home == old(home) - {old(port.queue[0])}
      && port.RingOk() && port.queue == old(port.queue)[1..]
      && (forall q :: q in Ports() && q != port ==> q.RingOk() && q.queue == old(q.queue))
      && (forall k :: k in old(home) ==> unchanged(k) && unchanged(k.data))
    }

    twostate lemma TakenElsewhere(f: Pair)
      requires old(f.port in Ports() && Kept() && f.port.queue != []) && Taken(f.port)
      requires f.other in Ports() && f.other != f.port
      ensures PortOk(f.other)
    {
      var q := f.other;
      hide Port.RingOk, Distinct;
      assert old(PortOk(q)) && old(PortOk(f.port)) && old(HoldsAt(f.port, 0));
      forall i | 0 <= i < |q.queue| ensures HoldsAt(q, i) {
        assert old(HoldsAt(q, i));
      }
    }

    twostate lemma TakenHere(port: Port)
      requires old(port in Ports() && Kept() && port.queue != []) && Taken(port)
      ensures PortOk(port)
    {
      hide Port.RingOk;
      assert old(PortOk(port));
      forall i | 0 <= i < |port.queue| ensures HoldsAt(port, i) {
        assert old(HoldsAt(port, i + 1)) && port.queue[i] == old(port.queue)[i + 1];
      }
    }

    twostate lemma TakenOk(port: Port)
      requires old(port in Ports() && Kept() && port.queue != []) && Taken(port)
      ensures Kept()
    {
      hide PortOk, HoldsAt;
      TakenHere(port);
      forall q | q in Ports() && q != port ensures PortOk(q) {
        TakenElsewhere(Pair(port, q));
      }
      forall k | k in home ensures home[k] in Ports() && k in home[k].queue {
        assert k in old(home) && k in old(home[k].queue) && k != old(port.queue[0]);
      }
    }

    /** What the oldest message of a non-empty port is. */
    lemma OldestIs(port: Port)
      requires Kept() && port in Ports() && port.queue != []
      ensures var k := port.queue[0];
              && k in home && k.Valid() && k.data in Bodies() && port in sent && port in taken
              && taken[port] < |sent[port]| && k.Contents() == sent[port][taken[port]]
    {
      assert PortOk(port) && HoldsAt(port, 0);
    }

    /** ipc_port_dequeue and the bookkeeping, by the port's receiver. */
    method TakeOldest(port: Port) returns (kmsg: Kmsg?)
      requires waits.WaitOk() && Kept() && port in Ports()
      requires port in waits.receiver && waits.receiver[port] == waits.sched.current
      modifies `home, `taken, waits`pending, port`msg_count, port`msg_first, port`queue, port.messages
      ensures waits.WaitOk() && Kept() && waits.pending == old(waits.pending) - {waits.sched.current}
      ensures if old(port.queue) == [] then kmsg == null && home == old(home) && taken == old(taken)
              else kmsg == old(port.queue)[0] && Taken(port)
      ensures home.Keys <= old(home.Keys)
    {
      hide Waits.WaitOk, Waits.Steady, Waits.Handshake, Waits.OneReceiver, Waits.Lost, Waits.OtherWoken;
      hide Kept, Port.RingOk, Kmsg.Contents, Kmsg.Valid, Waits.Rings, Bodies;
      AllRings(port);
      waits.Settled();
      kmsg := waits.Pop(port);
      if kmsg != null {
        home := home - {kmsg};
        taken := taken[port := taken[port] + 1];
        TakenOk(port);
      } else {
        NothingDelivered();
      }
    }

    /** A buffer no kernel message uses. */
    ghost predicate Outside(payload: array<Byte>)
      reads this
    {
      forall k :: k in home ==> k.data != payload
    }

    /** ipc_kmsg_copyout and ipc_kmsg_free of a message that has left its port. */
    method CopyAndFree(kmsg: Kmsg, msg: UserMessage, size: Word) returns (kr: nat, size': Word)
      requires Kept() && kmsg !in home && zone.live == home.Keys + {kmsg} && kmsg.Valid()
      requires Outside(msg.payload) && kmsg.data != msg.payload && size <= HEADER_SIZE + msg.payload.Length
      modifies zone, msg`header, msg.payload
      ensures MessagesOk() && Copied(old(kmsg.Contents()), msg, size, kr, size')
    {
      hide Kept, Port.RingOk, Waits.Rings, Bodies;
      if p :| p in Ports() { AllRings(p); }
      kr, size' := CopyOut(kmsg, msg, size);
      zone.Free(kmsg);
      NothingDelivered();
    }

    /** The receiver's buffer holds `m`, unless it was too small for it. */
    ghost predicate Copied(m: Message, msg: UserMessage, size: Word, kr: nat, size': Word)
      reads msg, msg.payload
    {
      && (kr == 3 || kr == 0) && (kr == 3 <==> 48 + |m.data| > size)
      && (kr == 0 ==>
            && size' == 48 + |m.data| && |m.data| <= msg.payload.Length
            && msg.header == m.header && msg.payload[..|m.data|] == m.data)
    }

    /** The tail of mach_msg_receive: take the oldest message, copy it out, free it.  It is the next one
        in the order of sending, byte for byte, unless the buffer is too small, which loses it. */
    method Finish(port: Port, msg: UserMessage, size: Word) returns (kr: nat, size': Word)
      requires waits.WaitOk() && MessagesOk() && port in Ports() && Outside(msg.payload)
      requires port in waits.receiver && waits.receiver[port] == waits.sched.current
      requires size <= HEADER_SIZE + msg.payload.Length
      modifies `home, `taken, zone, waits`pending, port`msg_count, port`msg_first, port`queue, port.messages
      modifies msg`header, msg.payload
      ensures waits.WaitOk() && MessagesOk() && waits.pending == old(waits.pending) - {waits.sched.current}
      ensures kr == KERN_FAILURE <==> old(port.queue) == []
      ensures home.Keys <= old(home.Keys)
      ensures kr == KERN_FAILURE ==> taken == old(taken)
      ensures kr != KERN_FAILURE ==> kr != KERN_INVALID_ARGUMENT && Received(port, msg, size, kr, size')
    {
      hide Waits.WaitOk, Kept, Port.RingOk, Kmsg.Contents, Kmsg.Valid, Copied;
      if port.queue != [] { OldestIs(port); }
      size' := size;
      var kmsg := TakeOldest(port);
      if kmsg == null {
        return KERN_FAILURE, size';
      }
      kr, size' := CopyAndFree(kmsg, msg, size);
      assert kr != KERN_FAILURE && kr != KERN_INVALID_ARGUMENT by {
        CopiedAnswers(old(sent[port][taken[port]]), msg, size, kr, size');
      }
    }

    lemma CopiedAnswers(m: Message, msg: UserMessage, size: Word, kr: nat, size': Word)
      requires Copied(m, msg, size, kr, size')
      ensures kr != KERN_FAILURE && kr != KERN_INVALID_ARGUMENT
    {}

    /** What the receiver finds in its buffer. */
    twostate predicate Received(port: Port, msg: UserMessage, size: Word, kr: nat, size': Word)
      reads `taken, msg, msg.payload
    {
      && port in old(taken) && port in old(sent) && old(taken[port]) < |old(sent[port])|
      && taken == old(taken)[port := old(taken[port]) + 1]
      && Copied(old(sent[port])[old(taken[port])], msg, size, kr, size')
    }

    /** ipc_port_alloc: a port nothing has been sent to. */
    method AddPort(rcv: Thread) returns (p: Port)
      requires waits.WaitOk() && MessagesOk() && rcv in waits.sched.threads
      modifies waits`ports, waits`receiver, `sent, `taken
      ensures waits.WaitOk() && MessagesOk() && fresh(p) && Ports() == old(Ports()) + {p}
      ensures waits.receiver == old(waits.receiver)[p := rcv]
      ensures sent == old(sent)[p := []] && taken == old(taken)[p := 0] && p.queue == []
      ensures fresh(p.messages) && home == old(home) && p.ref_count == 1
    {
      hide Waits.WaitOk, Kept, Port.RingOk, Kmsg.Contents, Kmsg.Valid;
      RingsKnown();
      p := waits.AddPort(rcv);
      sent, taken := sent[p := []], taken[p := 0];
      PortsAddedOk();
    }

    lemma RingsKnown()
      requires Kept()
      ensures forall q :: q in Ports() ==> q.RingOk() && q in sent && q in taken
      ensures forall p, q :: p in Ports() && q in Ports() && p != q ==> p.messages != q.messages
    {
      hide Port.RingOk;
      forall q | q in Ports() ensures q.RingOk() && q in sent && q in taken { assert PortOk(q); }
    }

    /** Ports to which nothing has been sent have joined. */
    twostate lemma PortsAddedOk()
      requires old(Kept()) && home == old(home) && old(Ports()) <= Ports()
      requires forall k :: k in home ==> unchanged(k) && unchanged(k.data)
      requires forall q :: q in Ports() ==>
                 q.RingOk() && q in sent && q in taken
                 && if q in old(Ports()) then
                      q.queue == old(q.queue) && q in old(sent) && sent[q] == old(sent)[q]
                      && q in old(taken) && taken[q] == old(taken)[q]
                    else q.queue == [] && sent[q] == [] && taken[q] == 0
      requires forall p, q :: p in Ports() && q in Ports() && p != q ==> p.messages != q.messages
      ensures Kept()
    {
      hide Port.RingOk, Distinct;
      forall q | q in Ports() ensures PortOk(q) {
        if q in old(Ports()) {
          assert old(PortOk(q));
          forall i | 0 <= i < |q.queue| ensures HoldsAt(q, i) { assert old(HoldsAt(q, i)); }
        } else {
          NothingRepeats(q.queue);
        }
      }
    }

    lemma NothingRepeats(q: seq<Kmsg>)
      requires q == []
      ensures Distinct(q)
    {}

    // ---- the system calls --------------------------------------------------------------------------

    /** The names of a task stand for ports of the system. */
    ghost predicate KnownSpace(space: Space?)
      reads this, waits`ports, space, if space != null then {space.entries} else {}
    {
      space != null ==> space.Valid() && forall name: Word :: space.Named(name) != null ==> space.Named(name) in Ports()
    }

    /** The port a name stands for. */
    ghost function Target(space: Space?, name: Word): Port?
      requires KnownSpace(space)
      reads this, waits`ports, space, if space != null then {space.entries} else {}
    {
      if space == null then null else space.Named(name)
    }

    /** The message of `size` bytes in a task's buffer. */
    ghost function MessageIn(msg: UserMessage, size: nat): Message
      requires size <= 48 + msg.payload.Length
      reads msg, msg.payload
    {
      Message(msg.header, if size < 48 then [] else msg.payload[..size - 48])
    }

    ghost predicate IsFull(port: Port?)
      reads port
    {
      port != null && |port.queue| >= 32
    }

    /** What mach_msg_send answers: 4 for argument errors first, then 3 for whatever leaves no room. */
    function SendAnswer(size: nat, known: bool, full: bool, refused: bool): nat
    {
      if size < 48 || !known then 4
      else if size > 512 || refused || full then 3
      else 0
    }

    /** mach_msg_send.  Success means that the message is the last one sent to the port its header
        names; any failure leaves no trace in the message system, and each answer has its exact
        condition. */
    method Send(space: Space?, msg: UserMessage, size: Word) returns (kr: nat)
      requires waits.WaitOk() && MessagesOk() && KnownSpace(space) && size <= 48 + msg.payload.Length
      requires waits.sched.current !in waits.pending
      modifies `home, `sent, zone, Ports()`msg_count, Ports()`msg_last, Ports()`queue, Ports()`waiting_thread, waits.Rings()
      modifies waits.sched`head, waits.sched`tail, waits.sched`count, waits.sched`queue
      modifies waits.sched.threads`next, waits.sched.threads`prev, waits.sched.threads`state
      ensures waits.WaitOk() && MessagesOk()
      ensures kr == SendAnswer(size, old(Target(space, msg.header.remote_port)) != null,
                               old(IsFull(Target(space, msg.header.remote_port))), Refused())
      ensures kr == KERN_SUCCESS ==>
                Accepted(old(Target(space, msg.header.remote_port)), old(MessageIn(msg, size)))
      ensures kr != KERN_SUCCESS ==> sent == old(sent) && zone.live == old(zone.live)
      ensures forall k :: k in home ==> k in old(home) || (fresh(k) && fresh(k.data))
    {
      hide Waits.WaitOk, MessagesOk, Kept, Accepted;
      if size < HEADER_SIZE {
        return KERN_INVALID_ARGUMENT;
      }
      var remote_port := msg.header.remote_port;
      if remote_port == MACH_PORT_NULL {
        return KERN_INVALID_ARGUMENT;
      }
      if space == null {
        return KERN_INVALID_ARGUMENT;
      }
      var (lookup, port) := space.Lookup(remote_port);
      kr := lookup;
      if kr != KERN_SUCCESS {
        return;
      }
      kr := Deliver(port, msg, size);
    }

    // ---- removing names ----------------------------------------------------------------------------

    /** `port` is no port of the system any more, and its messages are gone with it. */
    twostate predicate Gone(port: Port)
      requires old(port in Ports() && Kept())
      reads *
    {
      && Ports() == old(Ports()) - {port} && home == old(home) - old(QueuedAt(port))
      && sent == old(sent) - {port} && taken == old(taken) - {port}
      && (forall q :: q in Ports() ==> q.RingOk() && q.queue == old(q.queue))
      && (forall k :: k in home ==> unchanged(k) && unchanged(k.data))
    }

    twostate lemma GoneElsewhere(f: Pair)
      requires old(f.port in Ports() && Kept()) && Gone(f.port) && f.other in Ports()
      ensures PortOk(f.other)
    {
      var q := f.other;
      hide Port.RingOk, Distinct;
      assert old(PortOk(q)) && old(PortOk(f.port));
      forall j | 0 <= j < |old(f.port.queue)|
        ensures old(f.port.queue)[j] in old(home) && old(home)[old(f.port.queue)[j]] == f.port
      {
        assert old(HoldsAt(f.port, j));
      }
      forall i | 0 <= i < |q.queue| ensures HoldsAt(q, i) {
        assert old(HoldsAt(q, i));
      }
    }

    twostate lemma GoneOk(port: Port)
      requires old(port in Ports() && Kept()) && Gone(port)
      ensures Kept()
    {
      hide PortOk, HoldsAt;
      forall q | q in Ports() ensures PortOk(q) {
        GoneElsewhere(Pair(port, q));
      }
      forall k | k in home ensures home[k] in Ports() && k in home[k].queue {
        assert k in old(home) && k in old(home[k].queue);
      }
    }

    /** A port of the system may lose a reference. */
    lemma PortIsReleasable(port: Port)
      requires MessagesOk() && port in Ports() && port.ref_count > 0
      ensures port.RingOk() && Distinct(port.queue) && forall k :: k in port.queue ==> k in zone.live
    {
      assert PortOk(port);
      forall k | k in port.queue ensures k in zone.live {
        var i :| 0 <= i < |port.queue| && port.queue[i] == k;
        assert HoldsAt(port, i);
      }
    }

    /** ipc_space_remove.  Dropping the last reference frees the port with its messages, and the messages
        of all other ports are conserved; the wake-up protocol survives if and only if no thread is inside
        a receive on the port, and the names of the space stay valid if and only if no other one stands
        for it. */
    method RemoveName(space: Space, name: Word) returns (kr: nat, ghost gone: Port?)
      requires waits.WaitOk() && MessagesOk() && KnownSpace(space)
      requires space.Named(name) != null ==> space.Named(name).ref_count > 0
      modifies `home, `sent, `taken, zone`live, waits`ports, waits`receiver, space`names, space.entries
      modifies Ports()`ref_count, Ports()`msg_count, Ports()`msg_first, Ports()`queue, waits.Rings()
      ensures MessagesOk() && space.Valid()
      ensures kr == if 1 <= name <= |old(space.names)| then KERN_SUCCESS else KERN_INVALID_ARGUMENT
      ensures space.names == if kr == KERN_SUCCESS then old(space.names)[name - 1 := null] else old(space.names)
      ensures gone ==
              if old(space.Named(name) != null && space.Named(name).ref_count == 1) then old(space.Named(name)) else null
      ensures gone == null ==> waits.WaitOk() && Ports() == old(Ports()) && home == old(home)
      ensures gone != null ==>
                && Ports() == old(Ports()) - {gone} && home == old(home) - old(QueuedAt(gone))
                && (waits.WaitOk() <==> !waits.Awaited(gone))
                && (KnownSpace(space) <==> forall n: Word :: n != name ==> old(space.Named(n)) != gone)
      ensures gone != null && gone.waiting_thread != null ==> waits.Lost(gone.waiting_thread)
      ensures forall p :: p in Ports() ==>
                p.ref_count == if p == old(space.Named(name)) then old(p.ref_count) - 1 else old(p.ref_count)
    {
      hide Waits.WaitOk, Waits.Awaited, Waits.Lost, MessagesOk, KnownSpace, Waits.Rings;
      NamesFacts(space, name);
      gone := null;
      var (lookup, port) := space.Lookup(name);
      if port != null && port.ref_count == 1 {
        gone := port;
        kr := RemoveLast(space, name, port);
      } else {
        kr := RemoveOther(space, name);
      }
    }

    /** ... of the last reference to `port`. */
    method RemoveLast(space: Space, name: Word, port: Port) returns (kr: nat)
      requires waits.WaitOk() && MessagesOk() && KnownSpace(space) && space.Named(name) == port && port.ref_count == 1
      modifies `home, `sent, `taken, zone`live, waits`ports, waits`receiver, space`names, space.entries
      modifies Ports()`ref_count, Ports()`msg_count, Ports()`msg_first, Ports()`queue, waits.Rings()
      ensures MessagesOk() && space.Valid() && kr == KERN_SUCCESS && space.names == old(space.names)[name - 1 := null]
      ensures Ports() == old(Ports()) - {port} && home == old(home) - old(QueuedAt(port))
      ensures waits.WaitOk() <==> !waits.Awaited(port)
      ensures KnownSpace(space) <==> forall n: Word :: n != name ==> old(space.Named(n)) != port
      ensures port.waiting_thread != null ==> waits.Lost(port.waiting_thread)
      ensures forall p :: p in Ports() ==> p.ref_count == old(p.ref_count)
    {
      hide Waits.WaitOk, Waits.Awaited, Waits.Lost, Waits.Rings, Kept, Port.RingOk, Kmsg.Contents, Kmsg.Valid;
      hide QueuedAt, KnownSpace;
      NamesFacts(space, name);
      RingsKnown();
      PortIsReleasable(port);
      kr := BuryAndRemove(space, name, port);
      GoneOk(port);
      NamesLeft(Naming(space, name, port));
    }

    method BuryAndRemove(space: Space, name: Word, port: Port) returns (kr: nat)
      requires waits.WaitOk() && MessagesOk() && KnownSpace(space) && space.Named(name) == port && port.ref_count == 1
      requires space.Releasable(port, zone)
      requires forall q :: q in Ports() ==> q.RingOk() && (q != port ==> q.messages != port.messages)
      modifies `home, `sent, `taken, zone`live, waits`ports, waits`receiver, space`names, space.entries
      modifies port`ref_count, port`msg_count, port`msg_first, port`queue, port.messages
      ensures Gone(port) && space.Valid() && kr == KERN_SUCCESS && space.names == old(space.names)[name - 1 := null]
      ensures waits.WaitOk() <==> !waits.Awaited(port)
      ensures port.waiting_thread != null ==> waits.Lost(port.waiting_thread)
      ensures zone.live == old(zone.live) - old(QueuedAt(port))
    {
      hide Waits.WaitOk, Waits.Awaited, Waits.Lost, Kept, Port.RingOk, Kmsg.Contents, Kmsg.Valid;
      hide QueuedAt, KnownSpace, Distinct;
      hide Space.NamedPort, Space.NamedRing, Waits.Rings, Space.Valid, MessagesOk;
      NamesFacts(space, name);
      Bury(port);
      kr := space.Remove(name, zone);
    }

    /** ... of a name that stands for no port, or for one that has other references. */
    method RemoveOther(space: Space, name: Word) returns (kr: nat)
      requires waits.WaitOk() && MessagesOk() && KnownSpace(space)
      requires space.Named(name) != null ==> space.Named(name).ref_count > 1
      modifies zone`live, space`names, space.entries
      modifies Ports()`ref_count, Ports()`msg_count, Ports()`msg_first, Ports()`queue, waits.Rings()
      ensures waits.WaitOk() && MessagesOk() && space.Valid()
      ensures kr == if 1 <= name <= |old(space.names)| then KERN_SUCCESS else KERN_INVALID_ARGUMENT
      ensures space.names == if kr == KERN_SUCCESS then old(space.names)[name - 1 := null] else old(space.names)
      ensures forall p :: p in Ports() ==>
                p.ref_count == if p == old(space.Named(name)) then old(p.ref_count) - 1 else old(p.ref_count)
    {
      hide Waits.WaitOk, Kept, Port.RingOk, Kmsg.Contents, Kmsg.Valid, QueuedAt, Waits.Rings, KnownSpace;
      NamesFacts(space, name);
      RingsKnown();
      if space.Named(name) != null { PortIsReleasable(space.Named(name)); }
      kr := space.Remove(name, zone);
      NothingDelivered();
      waits.NothingWaited();
    }

    lemma NamesFacts(space: Space, name: Word)
      requires KnownSpace(space)
      ensures space.Valid() && (space.Named(name) != null ==> space.Named(name) in Ports())
      ensures space.NamedPort(name) <= Ports() && space.NamedRing(name) <= waits.Rings()
      ensures space.Named(name) != null ==>
                space.NamedPort(name) == {space.Named(name)} && space.NamedRing(name) == {space.Named(name).messages}
    {}

    /** The last reference to `port` is about to go. */
    method Bury(port: Port)
      requires waits.WaitOk() && port in Ports()
      modifies `home, `sent, `taken, waits`ports, waits`receiver
      ensures Ports() == old(Ports()) - {port} && home == old(home) - QueuedAt(port)
      ensures sent == old(sent) - {port} && taken == old(taken) - {port}
      ensures waits.WaitOk() <==> !waits.Awaited(port)
      ensures port.waiting_thread != null ==> waits.Lost(port.waiting_thread)
    {
      waits.Settled();
      hide Waits.WaitOk, Waits.Steady, Waits.Awaited, Waits.Lost;
      waits.Retire(port);
      home := home - QueuedAt(port);
      sent, taken := sent - {port}, taken - {port};
    }

    /** The names of a task stand for live ports unless one of them still stands for the port that went. */
    twostate lemma NamesLeft(f: Naming)
      requires old(KnownSpace(f.space)) && f.space.Valid() && old(f.space.Named(f.name)) == f.port
      requires f.space.names == old(f.space.names)[f.name - 1 := null] && Ports() == old(Ports()) - {f.port}
      ensures KnownSpace(f.space) <==> forall n: Word :: n != f.name ==> old(f.space.Named(n)) != f.port
    {
      forall n: Word ensures f.space.Named(n) == if n == f.name then null else old(f.space.Named(n)) {}
    }

    /** mach_msg_receive up to its return or to the switch inside sched_run. */
    method Receive(space: Space?, msg: UserMessage, size: Word) returns (kr: nat, size': Word, blocked: bool)
      requires waits.WaitOk() && MessagesOk() && KnownSpace(space)
      requires Outside(msg.payload) && size <= 48 + msg.payload.Length
      requires waits.sched.current !in waits.pending && waits.sched.current != waits.sched.idle
      requires space != null && space.Named(msg.header.local_port) != null ==>
                 var p := space.Named(msg.header.local_port);
                 p in waits.receiver && waits.receiver[p] == waits.sched.current
      modifies `home, `taken, zone, waits`pending, Ports()`msg_count, Ports()`msg_first, Ports()`queue
      modifies Ports()`waiting_thread, waits.Rings(), msg`header, msg.payload, waits.sched, waits.sched.threads
      ensures waits.WaitOk() && MessagesOk()
      ensures blocked ==>
                && old(waits.sched.current).state == Blocked && sent == old(sent) && taken == old(taken)
                && old(space != null && space.Named(msg.header.local_port) != null)
                && waits.pending == old(waits.pending)[old(waits.sched.current) := old(space.Named(msg.header.local_port))]
      ensures !blocked && kr == 4 <==> old(Target(space, msg.header.local_port)) == null
      ensures blocked <==>
                old(Target(space, msg.header.local_port) != null && Target(space, msg.header.local_port).queue == [])
      ensures !blocked ==> kr != KERN_FAILURE && (kr == KERN_INVALID_ARGUMENT ==> taken == old(taken))
      ensures !blocked && kr != KERN_INVALID_ARGUMENT ==>
                && old(space != null && space.Named(msg.header.local_port) != null)
                && Received(old(space.Named(msg.header.local_port)), msg, size, kr, size')
      ensures waits.sched.threads == old(waits.sched.threads) && home.Keys <= old(home.Keys)
    {
      hide Waits.WaitOk, Kept, Received;
      blocked, size' := false, size;
      var local_port := msg.header.local_port;
      if local_port == MACH_PORT_NULL {
        return KERN_INVALID_ARGUMENT, size, false;
      }
      if space == null {
        return KERN_INVALID_ARGUMENT, size, false;
      }
      var (lookup, port) := space.Lookup(local_port);
      kr := lookup;
      if kr != KERN_SUCCESS {
        return;
      }
      kr, size', blocked := ReceiveFrom(port, msg, size);
    }

    /** ... once the port is known. */
    method ReceiveFrom(port: Port, msg: UserMessage, size: Word) returns (kr: nat, size': Word, blocked: bool)
      requires waits.WaitOk() && MessagesOk() && port in Ports()
      requires Outside(msg.payload) && size <= HEADER_SIZE + msg.payload.Length
      requires waits.sched.current !in waits.pending && waits.sched.current != waits.sched.idle
      requires port in waits.receiver && waits.receiver[port] == waits.sched.current
      modifies `home, `taken, zone, waits`pending, port`msg_count, port`msg_first, port`queue
      modifies port`waiting_thread, port.messages, msg`header, msg.payload, waits.sched, waits.sched.threads
      ensures waits.WaitOk() && MessagesOk()
      ensures blocked <==> old(port.queue) == []
      ensures blocked ==>
                && old(waits.sched.current).state == Blocked && sent == old(sent) && taken == old(taken)
                && waits.pending == old(waits.pending)[old(waits.sched.current) := port]
      ensures !blocked ==> kr != KERN_FAILURE && kr != KERN_INVALID_ARGUMENT && Received(port, msg, size, kr, size')
      ensures waits.sched.threads == old(waits.sched.threads) && home.Keys <= old(home.Keys)
    {
      hide Waits.WaitOk, Kept, Received;
      blocked, size' := false, size;
      AllRings(port);
      hide Port.RingOk;
      if port.msg_count == 0 {
        waits.ReceiveBegin(port);
        NothingDelivered();
        return KERN_SUCCESS, size, true;
      }
      kr, size' := Finish(port, msg, size);
    }

    /** mach_msg_receive from the return of sched_run on: the woken thread always finds a message. */
    method Resume(port: Port, msg: UserMessage, size: Word) returns (kr: nat, size': Word)
      requires waits.WaitOk() && MessagesOk() && Outside(msg.payload) && size <= 48 + msg.payload.Length
      requires waits.sched.current in waits.pending && waits.pending[waits.sched.current] == port
      modifies `home, `taken, zone, waits`pending, port`msg_count, port`msg_first, port`queue, port.messages
      modifies msg`header, msg.payload
      ensures waits.WaitOk() && MessagesOk() && waits.pending == old(waits.pending) - {waits.sched.current}
      ensures kr != KERN_FAILURE && Received(port, msg, size, kr, size')
      ensures home.Keys <= old(home.Keys)
    {
      waits.WokenFinds();
      hide Waits.WaitOk, Kept, Received;
      AllRings(port);
      if port.msg_count == 0 {
        return KERN_FAILURE, size;
      }
      kr, size' := Finish(port, msg, size);
    }

    /** thread_yield by a thread outside a receive does not concern the messages. */
    method Yield()
      requires waits.WaitOk() && MessagesOk() && waits.sched.current !in waits.pending
      modifies waits.sched, waits.sched.threads
      ensures waits.WaitOk() && MessagesOk() && waits.sched.threads == old(waits.sched.threads)
      ensures (waits.sched.queue, waits.sched.current) == YieldStep(old(waits.sched.queue), old(waits.sched.current))
    {
      hide Waits.WaitOk, Kept, Port.RingOk;
      RingsKnown();
      waits.Settled();
      waits.Yield();
      NothingDelivered();
    }

    /** Neither does thread_create. */
    method Spawn() returns (t: Thread)
      requires waits.WaitOk() && MessagesOk()
      modifies waits.sched, waits.sched.threads`next, waits.sched.threads`prev
      ensures waits.WaitOk() && MessagesOk() && fresh(t) && waits.sched.threads == old(waits.sched.threads) + {t}
    {
      hide Waits.WaitOk, Kept, Port.RingOk;
      RingsKnown();
      t := waits.Spawn();
      NothingDelivered();
    }

    // ---- conservation ------------------------------------------------------------------------------

    /** Live kernel messages that are queued at one of the listed ports. */
    ghost function At(order: seq<Port>): set<Kmsg>
      reads this
    {
      set k | k in home && home[k] in order
    }

    ghost function Counts(order: seq<Port>): nat
      reads order
    {
      if order == [] then 0 else Counts(order[..|order| - 1]) + order[|order| - 1].msg_count
    }

    lemma NewLast(order: seq<Port>)
      requires Distinct(order) && order != []
      ensures order == order[..|order| - 1] + [order[|order| - 1]] && order[|order| - 1] !in order[..|order| - 1]
    {}

    lemma {:induction false} CountsAt(order: seq<Port>)
      requires Kept() && Distinct(order) && forall p :: p in order ==> p in Ports()
      ensures |At(order)| == Counts(order)
      decreases |order|
    {
      hide Kept, Port.RingOk;
      if order == [] {
        assert At(order) == {};
      } else {
        var init, p := order[..|order| - 1], order[|order| - 1];
        CountsAt(init);
        QueuedHere(p);
        SetSize(p.queue);
        hide Distinct;
        NewLast(order);
        forall k ensures k in At(order) <==> k in At(init) || k in p.queue {}
        assert At(order) == At(init) + set k | k in p.queue;
      }
    }

    /** The queue of a port lists the messages whose home it is, each once. */
    lemma QueuedHere(p: Port)
      requires Kept() && p in Ports()
      ensures Distinct(p.queue) && |p.queue| == p.msg_count
      ensures forall k :: k in p.queue <==> k in home && home[k] == p
    {
      assert PortOk(p);
      forall k | k in p.queue ensures k in home && home[k] == p {
        var i :| 0 <= i < |p.queue| && p.queue[i] == k;
        assert HoldsAt(p, i);
      }
    }

    /** Conservation: the live kernel messages are as many as the ports together count. */
    lemma MessagesConserved(order: seq<Port>)
      requires MessagesOk() && Distinct(order) && forall p :: p in order <==> p in Ports()
      ensures |zone.live| == Counts(order)
    {
      CountsAt(order);
      assert At(order) == zone.live;
    }
  }

  lemma {:induction false} SetSize<T>(q: seq<T>)
    requires Distinct(q)
    ensures |set k | k in q| == |q|
    decreases |q|
  {
    if q != [] {
      var init, last := q[..|q| - 1], q[|q| - 1];
      SetSize(init);
      assert (set k | k in q) == (set k | k in init) + {last};
    }
  }

  datatype Pair = Pair(port: Port, other: Port)

  /** The port that a name of a task stands for. */
  datatype Naming = Naming(space: Space, name: Word, port: Port)
}
