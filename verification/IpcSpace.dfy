/** kern/ipc_space.c: the port names of a task. */
module IpcSpace {
  import opened Words
  import opened Seqs
  import opened KernReturn
  import opened Sched
  import opened IpcKmsg
  import opened IpcPort

  const IPC_SPACE_MAX_PORTS: nat := 1024
  const MACH_PORT_NULL: nat := 0

  /** The messages queued at `port`. */
  ghost function QueuedAt(port: Port): set<Kmsg>
    reads port`queue
  {
    set k | k in port.queue
  }

  /** The messages that go when port `p` loses one reference. */
  ghost function Dropped(p: Port): set<Kmsg>
    reads p`ref_count, p`queue
  {
    if p.ref_count == 1 then QueuedAt(p) else {}
  }

  class Space {
    var port_count: nat
    const entries: array<Port?>
    ghost var names: seq<Port?>

    /** ipc_space_create */
    constructor ()
      ensures Valid() && names == [] && fresh(entries)
    {
      port_count, names := 0, [];
      entries := new Port?[IPC_SPACE_MAX_PORTS](_ => null);
    }

    /** `names[i]` is the port named i + 1; a removed name stays behind, empty. */
    ghost predicate Valid()
      reads this, entries
    {
      && entries.Length == IPC_SPACE_MAX_PORTS && port_count == |names| <= IPC_SPACE_MAX_PORTS
      && forall i :: 0 <= i < port_count ==> entries[i] == names[i]
    }

    /** The port a name stands for. */
    ghost function Named(name: Word): Port?
      reads this
    {
      if 1 <= name <= |names| then names[name - 1] else null
    }

    /** The port a name stands for, as a set. */
    ghost function NamedPort(name: Word): set<Port>
      reads this
    {
      if Named(name) == null then {} else {Named(name)}
    }

    ghost function NamedRing(name: Word): set<array<Kmsg?>>
      reads this
    {
      set p | p in NamedPort(name) :: p.messages
    }

    /** ipc_space_insert: the new name was never used before. */
    method Insert(port: Port) returns (kr: nat, name: Word)
      requires Valid()
      modifies `port_count, `names, entries
      ensures Valid()
      ensures kr == if |old(names)| >= 1024 then 3 else 0
      ensures kr == KERN_SUCCESS ==> name == |old(names)| + 1 && names == old(names) + [port] && Named(name) == port
      ensures kr != KERN_SUCCESS ==> names == old(names)
    {
      if port_count >= IPC_SPACE_MAX_PORTS {
        return KERN_NO_SPACE, MACH_PORT_NULL;
      }
      name := port_count + 1;
      entries[port_count] := port;
      port_count := port_count + 1;
      names := names + [port];
      return KERN_SUCCESS, name;
    }

    /** ipc_space_lookup */
    function Lookup(name: Word): (r: (nat, Port?))
      requires Valid()
      reads this, entries
      ensures r.1 == Named(name)
      ensures r.0 == if Named(name) == null then 4 else 0
    {
      if name == MACH_PORT_NULL || name > port_count then (KERN_INVALID_ARGUMENT, null)
      else if entries[name - 1] == null then (KERN_INVALID_ARGUMENT, null)
      else (KERN_SUCCESS, entries[name - 1])
    }

    /** A port may lose a reference. */
    ghost predicate Releasable(p: Port, zone: KmsgZone)
      reads p, p.messages, zone
    {
      p.RingOk() && p.ref_count > 0 && Distinct(p.queue) && forall k :: k in p.queue ==> k in zone.live
    }

    /** ipc_space_remove: the name is gone for good and its port has lost a reference. */
    method Remove(name: Word, zone: KmsgZone) returns (kr: nat)
      requires Valid() && (Named(name) != null ==> Releasable(Named(name), zone))
      modifies `names, entries, zone`live, NamedPort(name)`ref_count, NamedPort(name)`msg_count, NamedPort(name)`msg_first
      modifies NamedPort(name)`queue, NamedRing(name)
      ensures Valid() && port_count == old(port_count)
      ensures kr == if 1 <= name <= port_count then 0 else 4
      ensures kr != KERN_SUCCESS ==> names == old(names) && zone.live == old(zone.live)
      ensures kr == KERN_SUCCESS ==> names == old(names)[name - 1 := null]
      ensures zone.live == old(zone.live) - if old(Named(name)) == null then {} else old(Dropped(Named(name)))
      ensures old(Named(name)) != null ==>
                && old(Named(name)).RingOk() && old(Named(name)).ref_count == old(Named(name).ref_count) - 1
                && (old(Named(name)).ref_count > 0 ==> old(Named(name)).queue == old(Named(name).queue))
    {
      if name == MACH_PORT_NULL || name > port_count {
        return KERN_INVALID_ARGUMENT;
      }
      var port := entries[name - 1];
      if port != null {
        port.Release(zone);
        entries[name - 1] := null;
        names := names[name - 1 := null];
      } else {
        assert names[name - 1 := null] == names;
      }
      return KERN_SUCCESS;
    }
  }
}
