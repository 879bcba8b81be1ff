/** Whole runs of the scheduler and the message system, with tasks that name ports, send, receive and
    drop names. */
module IpcRun {
  import opened Words
  import opened KernReturn
  import opened Sched
  import opened IpcKmsg
  import opened IpcPort
  import opened IpcSpace
  import opened IpcWait
  import opened IpcMsg

  /** What the current thread asks for, with the number of its task's space; a new port goes to the
      thread as its receiver.  Before a send or a receive the thread writes the header. */
  datatype Act =
    | Yield
    | Spawn
    | NewSpace
    | NewPort(i: nat)
    | DropName(i: nat, name: Word)
    | Send(i: nat, header: Header)
    | Receive(i: nat, header: Header)

  /** ... and the buffer it uses.  A thread inside a receive first finishes it. */
  datatype Event = Event(act: Act, msg: UserMessage, size: Word)

  class Kernel {
    const ipc: Ipc
    var spaces: seq<Space>

    constructor (ipc: Ipc)
      requires ipc.waits.WaitOk() && ipc.MessagesOk() && ipc.Ports() == {}
      ensures Sound() && this.ipc == ipc && spaces == []
    {
      this.ipc, spaces := ipc, [];
    }

    ghost function Tables(): set<array<Port?>>
      reads `spaces
    {
      set s | s in spaces :: s.entries
    }

    /** The spaces are apart, their names stand for live ports, and no port has two names: nothing in the
        kernel takes a second reference to a port, so it goes with its first name. */
    ghost predicate NamesOk()
      reads `spaces, spaces, Tables(), ipc.waits`ports, ipc.waits.ports`ref_count
    {
      && (forall i :: 0 <= i < |spaces| ==> spaces[i].entries in Tables() && spaces[i].Valid())
      && (forall i, j :: 0 <= i < j < |spaces| ==> spaces[i] != spaces[j] && spaces[i].entries != spaces[j].entries)
      && (forall i, n: Word :: 0 <= i < |spaces| && spaces[i].Named(n) != null ==> spaces[i].Named(n) in ipc.Ports())
      && (forall i, j, n: Word, m: Word ::
            0 <= i < |spaces| && 0 <= j < |spaces| && spaces[i].Named(n) != null ==>
              (spaces[i].Named(n) == spaces[j].Named(m) ==> i == j && n == m))
      && (forall p :: p in ipc.waits.ports ==> p.ref_count == 1)
    }

    ghost predicate Sound()
      reads *
    {
      ipc.waits.WaitOk() && ipc.MessagesOk() && NamesOk()
    }

    /** The space of the current task, if it has one. */
    function SpaceAt(i: nat): Space?
      reads `spaces
    {
      if i < |spaces| then spaces[i] else null
    }

    lemma SpaceKnown(i: nat)
      requires NamesOk()
      ensures ipc.KnownSpace(SpaceAt(i)) && (i < |spaces| ==> spaces[i].Valid())
    {}

    /** A step creates threads, ports, spaces and kernel messages and takes none over. */
    twostate predicate Grew()
      reads this, ipc, ipc.waits, ipc.waits.sched
    {
      && (forall t :: t in ipc.waits.sched.threads ==> t in old(ipc.waits.sched.threads) || fresh(t))
      && (forall p :: p in ipc.waits.ports ==> p in old(ipc.waits.ports) || (fresh(p) && fresh(p.messages)))
      && (forall k :: k in ipc.home ==> k in old(ipc.home) || (fresh(k) && fresh(k.data)))
      && (forall s :: s in spaces ==> s in old(spaces) || (fresh(s) && fresh(s.entries)))
    }

    /** Nothing that names are about has changed. */
    twostate lemma NamesStay()
      requires old(NamesOk()) && spaces == old(spaces) && ipc.waits.ports == old(ipc.waits.ports)
      requires forall s :: s in spaces ==> unchanged(s) && unchanged(s.entries)
      requires forall p :: p in ipc.waits.ports ==> p.ref_count == old(p.ref_count)
      ensures NamesOk()
    {}

    /** The other spaces, and the ports that were there, are as they were. */
    twostate predicate OtherSpacesSame(i: nat)
      reads `spaces, spaces, Tables(), ipc.waits`ports, ipc.waits.ports`ref_count
    {
      && old(spaces) <= spaces
      && (forall j :: 0 <= j < |old(spaces)| && j != i ==>
            spaces[j].entries in Tables() && unchanged(spaces[j]) && unchanged(spaces[j].entries))
      && (forall p :: p in ipc.waits.ports && p in old(ipc.waits.ports) ==> p.ref_count == old(p.ref_count))
    }

    /** A space without names has joined. */
    twostate lemma SpaceJoined()
      requires old(NamesOk()) && OtherSpacesSame(|old(spaces)|) && |spaces| == |old(spaces)| + 1
      requires ipc.waits.ports == old(ipc.waits.ports)
      requires var s := spaces[|old(spaces)|];
               s !in old(spaces) && s.entries !in old(Tables()) && s.entries in Tables() && s.Valid() && s.names == []
      ensures NamesOk()
    {
      forall i | 0 <= i < |old(spaces)|
        ensures spaces[i] == old(spaces[i]) && spaces[i] in old(spaces) && spaces[i].entries in old(Tables())
      {}
    }

    /** A new port has joined, and space `i` may have a name for it. */
    twostate lemma PortJoined(i: nat)
      requires old(NamesOk()) && OtherSpacesSame(i) && spaces == old(spaces) && i < |spaces|
      requires spaces[i].entries in Tables() && spaces[i].Valid() && old(ipc.waits.ports) <= ipc.waits.ports
      requires forall p :: p in ipc.waits.ports && p !in old(ipc.waits.ports) ==> p.ref_count == 1
      requires old(spaces[i].names) <= spaces[i].names
      requires forall k :: |old(spaces[i].names)| <= k < |spaces[i].names| ==>
                 && k == |old(spaces[i].names)| && spaces[i].names[k] != null
                 && spaces[i].names[k] in ipc.waits.ports && spaces[i].names[k] !in old(ipc.waits.ports)
      ensures NamesOk()
    {
      forall j, n: Word | 0 <= j < |spaces|
        ensures spaces[j].Named(n) == old(spaces[j].Named(n))
                || (j == i && n == |old(spaces[i].names)| + 1 && spaces[j].Named(n) in ipc.waits.ports
                    && spaces[j].Named(n) !in old(ipc.waits.ports))
      {}
    }

    /** A name has become empty, and its port, if it stood for one, is gone. */
    twostate lemma NameDropped(f: Drop)
      requires old(NamesOk()) && OtherSpacesSame(f.i) && spaces == old(spaces) && f.i < |spaces|
      requires spaces[f.i].entries in Tables() && spaces[f.i].Valid()
      requires spaces[f.i].names ==
               if 1 <= f.name <= |old(spaces[f.i].names)| then old(spaces[f.i].names)[f.name - 1 := null]
               else old(spaces[f.i].names)
      requires ipc.waits.ports == old(ipc.waits.ports) - old(spaces[f.i].NamedPort(f.name))
      ensures NamesOk()
    {
      forall j, n: Word | 0 <= j < |spaces|
        ensures spaces[j].Named(n) == if j == f.i && n == f.name then null else old(spaces[j].Named(n))
      {}
    }

    /** A task writes the header of its buffer. */
    method WriteHeader(msg: UserMessage, header: Header)
      requires Sound()
      modifies msg`header
      ensures Sound() && msg.header == header
    {
      hide Waits.WaitOk, Ipc.Kept, NamesOk, Port.RingOk;
      ipc.RingsKnown();
      msg.header := header;
      ipc.NothingDelivered();
      ipc.waits.NothingWaited();
      NamesStay();
    }

    /** mach_msg_send */
    method SendStep(i: nat, header: Header, msg: UserMessage, size: Word)
      requires Sound() && size <= HEADER_SIZE + msg.payload.Length && ipc.waits.sched.current !in ipc.waits.pending
      modifies ipc`home, ipc`sent, ipc.zone, ipc.Ports()`msg_count, ipc.Ports()`msg_last, ipc.Ports()`queue
      modifies ipc.Ports()`waiting_thread, ipc.waits.Rings()
      modifies ipc.waits.sched`head, ipc.waits.sched`tail, ipc.waits.sched`count, ipc.waits.sched`queue
      modifies ipc.waits.sched.threads`next, ipc.waits.sched.threads`prev, ipc.waits.sched.threads`state, msg`header
      ensures Sound() && Grew()
    {
      hide Waits.WaitOk, Ipc.MessagesOk, NamesOk, Ipc.KnownSpace, Ipc.Target, Ipc.IsFull, Ipc.SendAnswer, Ipc.Accepted;
      hide Ipc.Refused;
      WriteHeader(msg, header);
      SpaceKnown(i);
      var kr := ipc.Send(SpaceAt(i), msg, size);
      NamesStay();
    }

    /** The thread may receive from the port a name stands for: it is that port's receiver, and not the
        idle thread. */
    predicate MayReceive(i: nat, name: Word)
      requires i < |spaces| ==> spaces[i].Valid()
      reads `spaces, if i < |spaces| then {spaces[i], spaces[i].entries} else {}, ipc.waits, ipc.waits.sched
    {
      && ipc.waits.sched.current != ipc.waits.sched.idle
      && (i < |spaces| ==>
            var port := spaces[i].Lookup(name).1;
            port != null ==> port in ipc.waits.receiver && ipc.waits.receiver[port] == ipc.waits.sched.current)
    }

    /** mach_msg_receive up to its switch. */
    method ReceiveStep(i: nat, header: Header, msg: UserMessage, size: Word)
      requires Sound() && size <= HEADER_SIZE + msg.payload.Length && ipc.waits.sched.current !in ipc.waits.pending
      requires ipc.Outside(msg.payload)
      modifies ipc`home, ipc`taken, ipc.zone, ipc.waits`pending, ipc.Ports()`msg_count, ipc.Ports()`msg_first
      modifies ipc.Ports()`queue, ipc.Ports()`waiting_thread, ipc.waits.Rings(), msg`header, msg.payload
      modifies ipc.waits.sched, ipc.waits.sched.threads
      ensures Sound() && Grew()
    {
      hide Waits.WaitOk, Ipc.MessagesOk, NamesOk, Ipc.KnownSpace, Ipc.Received;
      WriteHeader(msg, header);
      SpaceKnown(i);
      if MayReceive(i, msg.header.local_port) {
        var kr, size', blocked := ipc.Receive(SpaceAt(i), msg, size);
        NamesStay();
      }
    }

    /** mach_msg_receive from the return of its switch on. */
    method ResumeStep(msg: UserMessage, size: Word)
      requires Sound() && size <= HEADER_SIZE + msg.payload.Length && ipc.waits.sched.current in ipc.waits.pending
      requires ipc.Outside(msg.payload)
      modifies ipc`home, ipc`taken, ipc.zone, ipc.waits`pending, ipc.Ports()`msg_count, ipc.Ports()`msg_first
      modifies ipc.Ports()`queue, ipc.waits.Rings(), msg`header, msg.payload
      ensures Sound() && Grew()
    {
      hide Waits.WaitOk, Ipc.MessagesOk, NamesOk, Ipc.Received;
      ipc.waits.WokenFinds();
      var kr, size' := ipc.Resume(ipc.waits.pending[ipc.waits.sched.current], msg, size);
      NamesStay();
    }

    /** thread_yield */
    method YieldNow()
      requires Sound() && ipc.waits.sched.current !in ipc.waits.pending
      modifies ipc.waits.sched, ipc.waits.sched.threads
      ensures Sound() && Grew()
    {
      hide Waits.WaitOk, Ipc.MessagesOk, NamesOk;
      ipc.Yield();
      NamesStay();
    }

    /** thread_create */
    method SpawnOne()
      requires Sound()
      modifies ipc.waits.sched, ipc.waits.sched.threads`next, ipc.waits.sched.threads`prev
      ensures Sound() && Grew()
    {
      hide Waits.WaitOk, Ipc.MessagesOk, NamesOk;
      var t := ipc.Spawn();
      NamesStay();
    }

    /** ipc_space_create, for a new task. */
    method AddSpace()
      requires Sound()
      modifies `spaces
      ensures Sound() && Grew() && |spaces| == |old(spaces)| + 1 && spaces[|old(spaces)|].names == []
      ensures fresh(spaces[|old(spaces)|]) && fresh(spaces[|old(spaces)|].entries)
    {
      hide Waits.WaitOk, Ipc.Kept, NamesOk, Port.RingOk;
      ipc.RingsKnown();
      var s := new Space();
      spaces := spaces + [s];
      ipc.NothingDelivered();
      ipc.waits.NothingWaited();
      SpaceJoined();
    }

    lemma SpacesApart(i: nat)
      requires NamesOk() && i < |spaces|
      ensures forall j :: 0 <= j < |spaces| ==>
                spaces[j].entries in Tables() && spaces[j].Valid()
                && (j != i ==> spaces[j] != spaces[i] && spaces[j].entries != spaces[i].entries)
    {}

    lemma CurrentIsKnown()
      requires ipc.waits.WaitOk()
      ensures ipc.waits.sched.current != null && ipc.waits.sched.current in ipc.waits.sched.threads
    {
      ipc.waits.QueueFacts();
    }

    /** ipc_space_insert */
    method NamePort(i: nat, port: Port)
      requires ipc.waits.WaitOk() && ipc.MessagesOk() && i < |spaces| && spaces[i].Valid()
      modifies spaces[i], spaces[i].entries
      ensures ipc.waits.WaitOk() && ipc.MessagesOk() && spaces[i].Valid()
      ensures spaces[i].names ==
              if |old(spaces[i].names)| >= IPC_SPACE_MAX_PORTS then old(spaces[i].names) else old(spaces[i].names) + [port]
    {
      hide Waits.WaitOk, Ipc.Kept, Port.RingOk;
      ipc.RingsKnown();
      var kr, name := spaces[i].Insert(port);
      ipc.NothingDelivered();
      ipc.waits.NothingWaited();
    }

    /** ipc_port_alloc for the current thread, and ipc_space_insert; a full space leaves the port without a
        name. */
    method AddPort(i: nat)
      requires Sound() && i < |spaces|
      modifies ipc.waits`ports, ipc.waits`receiver, ipc`sent, ipc`taken, spaces[i], spaces[i].entries
      ensures Sound() && Grew()
    {
      hide Waits.WaitOk, Ipc.MessagesOk, NamesOk, Space.Valid, Port.RingOk;
      CurrentIsKnown();
      SpacesApart(i);
      var port := ipc.AddPort(ipc.waits.sched.current);
      NamePort(i, port);
      PortJoined(i);
    }

    /** ipc_space_remove, of a name whose port nobody is waiting to receive from. */
    method DropStep(i: nat, name: Word)
      requires Sound() && i < |spaces|
      modifies ipc`home, ipc`sent, ipc`taken, ipc.zone`live, ipc.waits`ports, ipc.waits`receiver, spaces[i]
      modifies spaces[i].entries, ipc.Ports()`ref_count, ipc.Ports()`msg_count, ipc.Ports()`msg_first
      modifies ipc.Ports()`queue, ipc.waits.Rings()
      ensures Sound() && Grew()
    {
      hide Waits.WaitOk, Ipc.MessagesOk, NamesOk, Ipc.KnownSpace, Space.Valid, Waits.Awaited, Waits.Rings;
      SpaceKnown(i);
      SpacesApart(i);
      NamedOnce(i, name);
      var space := spaces[i];
      var (lookup, port) := space.Lookup(name);
      if port != null && port in ipc.waits.pending.Values {
        return;
      }
      if port != null { NobodyPending(port); }
      var kr, gone := ipc.RemoveName(space, name);
      NameDropped(Drop(i, name));
    }

    lemma NamedOnce(i: nat, name: Word)
      requires NamesOk() && i < |spaces|
      ensures spaces[i].Named(name) != null ==>
                spaces[i].Named(name) in ipc.Ports() && spaces[i].Named(name).ref_count == 1
    {}

    lemma NobodyPending(port: Port)
      requires port !in ipc.waits.pending.Values
      ensures !ipc.waits.Awaited(port)
    {}

    twostate lemma NothingGrew()
      requires unchanged(this) && unchanged(ipc) && unchanged(ipc.waits) && unchanged(ipc.waits.sched)
      ensures Grew()
    {}

    /** The objects a step may touch existed at the start of the run or were created during it, and no
        kernel message shares a user buffer. */
    twostate predicate Within(known: set<object>, buffers: set<array<Byte>>)
      reads this, ipc, ipc.waits, ipc.waits.sched
    {
      && (forall t :: t in ipc.waits.sched.threads ==> t in known || fresh(t))
      && (forall p :: p in ipc.waits.ports ==> (p in known || fresh(p)) && (p.messages in known || fresh(p.messages)))
      && (forall s :: s in spaces ==> (s in known || fresh(s)) && (s.entries in known || fresh(s.entries)))
      && (forall b :: b in buffers ==> b in known)
      && (forall k :: k in ipc.home ==> k.data !in buffers)
    }

    /** The space of the current task may change when it names or drops a port. */
    ghost function SpaceObjects(act: Act): set<object>
      reads `spaces
    {
      if (act.NewPort? || act.DropName?) && act.i < |spaces| then {spaces[act.i], spaces[act.i].entries} else {}
    }

    /** One step of the current thread, if it is one its callers may ask for. */
    method Handle(event: Event)
      requires Sound() && ipc.Outside(event.msg.payload)
      modifies `spaces, SpaceObjects(event.act), ipc, ipc.zone, ipc.waits, ipc.waits.sched, ipc.waits.sched.threads
      modifies ipc.Ports(), ipc.waits.Rings(), event.msg, event.msg.payload
      ensures Sound() && Grew()
    {
      var msg, size := event.msg, event.size;
      if size > HEADER_SIZE + msg.payload.Length {
        return;
      }
      hide Waits.WaitOk, Ipc.MessagesOk, NamesOk, Grew;
      NothingGrew();
      if ipc.waits.sched.current in ipc.waits.pending {
        ResumeStep(msg, size);
        return;
      }
      match event.act {
        case Yield => YieldNow();
        case Spawn => SpawnOne();
        case NewSpace => AddSpace();
        case NewPort(i) => if i < |spaces| { AddPort(i); }
        case DropName(i, name) => if i < |spaces| { DropStep(i, name); }
        case Send(i, header) => SendStep(i, header, msg, size);
        case Receive(i, header) => ReceiveStep(i, header, msg, size);
      }
    }

    /** Any run of events: new threads, tasks, ports and names, sends, receives and dropped names, with any
        outcomes, keep the wake-up protocol, the messages and the names in order. */
    method Run(events: seq<Event>, ghost known: set<object>, ghost buffers: set<array<Byte>>)
      requires Sound()
      requires forall t :: t in ipc.waits.sched.threads ==> t in known
      requires forall p :: p in ipc.waits.ports ==> p in known && p.messages in known
      requires forall s :: s in spaces ==> s in known && s.entries in known
      requires forall b :: b in buffers ==> b in known && ipc.Outside(b)
      requires forall e :: e in events ==> e.msg in known && e.msg.payload in buffers
      modifies this, ipc, ipc.waits, ipc.zone, ipc.waits.sched, known
      ensures Sound()
    {
      hide Waits.WaitOk, Ipc.MessagesOk, NamesOk;
      var i := 0;
      while i < |events|
        invariant Sound() && Within(known, buffers)
      {
        Handle(events[i]);
        i := i + 1;
      }
    }
  }

  /** A name of a space. */
  datatype Drop = Drop(i: nat, name: Word)

  /** Why a port must not be given two names: nobody takes a reference for the second, so removing the first
      frees the port and leaves the other name pointing at it. */
  method DanglingName() returns (k: Kernel)
    ensures fresh(k) && k.ipc.MessagesOk() && |k.spaces| == 1
    ensures k.spaces[0].Named(2) != null && k.spaces[0].Named(2) !in k.ipc.Ports() && !k.ipc.KnownSpace(k.spaces[0])
  {
    var sched, t, u := ThreadsBeforeIdle();
    hide Scheduler.QueueOk, Scheduler.OneRuns, Waits.WaitOk, Ipc.MessagesOk, Kernel.NamesOk, Waits.Awaited, Waits.Lost;
    var w := new Waits(sched);
    var ipc := new Ipc(w);
    k := new Kernel(ipc);
    k.AddSpace();
    TwoNames(k, t);
  }

  lemma BothNames(ipc: Ipc, space: Space, port: Port)
    requires space.Valid() && space.names == [port, port] && port in ipc.Ports()
    ensures ipc.KnownSpace(space) && space.Named(1) == port && space.Named(2) == port
    ensures space.NamedPort(1) <= ipc.Ports() && port.messages in ipc.waits.Rings()
  {}

  method TwoNames(k: Kernel, t: Thread)
    requires k.Sound() && |k.spaces| == 1 && k.spaces[0].names == [] && t in k.ipc.waits.sched.threads
    modifies k.ipc, k.ipc.waits, k.ipc.zone, k.spaces[0], k.spaces[0].entries, k.ipc.Ports(), k.ipc.waits.Rings()
    ensures k.ipc.MessagesOk() && k.spaces == old(k.spaces)
    ensures k.spaces[0].Named(2) != null && k.spaces[0].Named(2) !in k.ipc.Ports() && !k.ipc.KnownSpace(k.spaces[0])
  {
    hide Waits.WaitOk, Ipc.MessagesOk, Kernel.NamesOk, Waits.Awaited, Waits.Lost, Space.Valid;
    hide Port.RingOk, QueuedAt, Ipc.KnownSpace;
    k.SpacesApart(0);
    var port := k.ipc.AddPort(t);
    k.NamePort(0, port);
    k.NamePort(0, port);
    BothNames(k.ipc, k.spaces[0], port);
    var kr, gone := k.ipc.RemoveName(k.spaces[0], 1);
  }
}
