/** kern/ipc_kmsg.c: kernel copies of messages. */
module IpcKmsg {
  import opened Words
  import opened KernReturn

  const KMSG_ZONE_SIZE: nat := 512
  const HEADER_SIZE: nat := 48

  datatype Header = Header(bits: Word, size: Word, remote_port: Word, local_port: Word, voucher_port: Word, id: Word)

  /** A message as a value. */
  datatype Message = Message(header: Header, data: Bytes)

  /** A message buffer of a task: the header and the room behind it. */
  class UserMessage {
    var header: Header
    const payload: array<Byte>

    constructor (header: Header, payload: array<Byte>)
      ensures this.header == header && this.payload == payload
    {
      this.header, this.payload := header, payload;
    }
  }

  class Kmsg {
    var size: Word
    var header: Header
    const data: array<Byte>

    constructor (size: Word, data: array<Byte>)
      ensures this.size == size && this.data == data
    {
      this.size, this.data := size, data;
      header := Header(0, 0, 0, 0, 0, 0);
    }

    ghost predicate Valid()
      reads this
    {
      HEADER_SIZE <= size <= KMSG_ZONE_SIZE == data.Length
    }

    ghost function Contents(): Message
      requires Valid()
      reads this, data
    {
      Message(header, data[..size - HEADER_SIZE])
    }
  }

  /** The kmsg zone, as the set of its live elements. */
  class KmsgZone {
    ghost var live: set<Kmsg>
    /** How often zalloc had no element left. */
    ghost var refusals: nat

    constructor ()
      ensures live == {} && refusals == 0
    {
      live, refusals := {}, 0;
    }

    /** ipc_kmsg_alloc: fails for messages that do not fit an element, and when zalloc refuses. */
    method Alloc(size: Word) returns (kmsg: Kmsg?)
      modifies this
      ensures kmsg == null <==> size > KMSG_ZONE_SIZE || refusals > old(refusals)
      ensures old(refusals) <= refusals <= old(refusals) + 1
      ensures kmsg == null ==> live == old(live)
      ensures kmsg != null ==>
                && fresh(kmsg) && fresh(kmsg.data) && live == old(live) + {kmsg}
                && kmsg.size == size && kmsg.data.Length == KMSG_ZONE_SIZE
    {
      if size > KMSG_ZONE_SIZE {
        return null;
      }
      var available: bool := *;
      if !available {
        refusals := refusals + 1;
        return null;
      }
      var data := new Byte[KMSG_ZONE_SIZE];
      kmsg := new Kmsg(size, data);
      live := live + {kmsg};
    }

    /** ipc_kmsg_free of a live message */
    method Free(kmsg: Kmsg)
      requires kmsg in live
      modifies `live
      ensures live == old(live) - {kmsg}
    {
      live := live - {kmsg};
    }
  }

  /** ipc_kmsg_copyin: the kernel copy holds the header and the bytes after it. */
  method CopyIn(kmsg: Kmsg, user_msg: UserMessage, size: Word) returns (kr: nat)
    requires kmsg.size == size <= 512 == kmsg.data.Length && kmsg.data != user_msg.payload
    requires size <= 48 + user_msg.payload.Length
    modifies kmsg`header, kmsg.data
    ensures kr == if size < 48 then 4 else 0
    ensures kr == KERN_SUCCESS ==>
              kmsg.Valid() && kmsg.Contents() == Message(user_msg.header, user_msg.payload[..size - 48])
  {
    if size < HEADER_SIZE {
      return KERN_INVALID_ARGUMENT;
    }
    kmsg.header := user_msg.header;
    var data_size := size - HEADER_SIZE;
    forall i | 0 <= i < data_size { kmsg.data[i] := user_msg.payload[i]; }
    return KERN_SUCCESS;
  }

  /** ipc_kmsg_copyout: a buffer that is too small gets nothing. */
  method CopyOut(kmsg: Kmsg, user_msg: UserMessage, size: Word) returns (kr: nat, size': Word)
    requires kmsg.Valid() && kmsg.data != user_msg.payload && size <= 48 + user_msg.payload.Length
    modifies user_msg`header, user_msg.payload
    ensures kr == if kmsg.size > size then 3 else 0
    ensures kr == KERN_SUCCESS ==>
              && size' == kmsg.size && user_msg.payload.Length >= size' - 48
              && Message(user_msg.header, user_msg.payload[..size' - 48]) == kmsg.Contents()
              && user_msg.payload[size' - 48..] == old(user_msg.payload[kmsg.size - 48..])
    ensures kr != KERN_SUCCESS ==>
              size' == size && user_msg.header == old(user_msg.header) && user_msg.payload[..] == old(user_msg.payload[..])
  {
    if kmsg.size > size {
      return KERN_NO_SPACE, size;
    }
    user_msg.header := kmsg.header;
    var data_size := kmsg.size - HEADER_SIZE;
    forall i | 0 <= i < data_size { user_msg.payload[i] := kmsg.data[i]; }
    return KERN_SUCCESS, kmsg.size;
  }
}
