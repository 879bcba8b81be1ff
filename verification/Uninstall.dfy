/** Undoing an installation: uninstall and the clean-up of bios_install in limine/limine.c. */
module Uninstall {
  import opened Words
  import opened BlockDevice
  import opened Journal

  /** Forgets the cached block, written back or not. */
  method DropCache(d: Device)
    requires d.Shape()
    modifies d`dirty, d`cached_block
    ensures d.Coherent() && d.Logical() == d.disk && !d.dirty
  {
    d.dirty := false;
    d.cached_block := NO_BLOCK;
  }

  /** The retry loop around one entry. */
  method RestoreEntry(d: Device, e: Entry) returns (write_fail: bool, flush_fail: bool)
    requires d.Shape() && d.uninstalling && |e.data| < U64
    modifies d`disk, d`dirty, d`cached_block, d`faults, d`torn, d`uninstall_data, d.cache
    ensures d.Shape() && |d.disk| == |old(d.disk)| && d.uninstall_data == old(d.uninstall_data)
    ensures !write_fail && !flush_fail && old(d.Coherent()) ==>
              d.Coherent() && d.Logical() == Splice(old(d.Logical()), e.loc, e.data)
    ensures d.faults >= old(d.faults)
    ensures (write_fail || flush_fail) && d.faults == old(d.faults) ==> !d.RunInRange(e.loc, |e.data|)
  {
    hide Device.Coherent, Device.Logical, Device.RunInRange, Splice;
    write_fail, flush_fail := false, false;
    ghost var logical, coherent := d.Logical(), d.Coherent();
    var retry := false;
    var ok;
    ghost var done;
    ok, done := d.Write(e.loc, e.data);
    while !ok
      invariant d.Shape() && |d.disk| == |logical| && d.uninstall_data == old(d.uninstall_data)
      invariant 0 <= done <= |e.data| && (ok ==> done == |e.data|) && !write_fail
      invariant !flush_fail && coherent ==>
                  d.Logical() == Splice(logical, e.loc, e.data[..done]) && (ok ==> d.Coherent())
      invariant d.faults >= old(d.faults) && (flush_fail ==> d.faults > old(d.faults))
      invariant !ok && d.faults == old(d.faults) ==> !d.RunInRange(e.loc, |e.data|)
      decreases if ok then 0 else if retry then 1 else 2
    {
      if retry {
        write_fail := true;
        break;
      }
      var flushed := d.FlushCache();
      if !flushed {
        flush_fail := true;
      }
      DropCache(d);
      retry := true;
      ghost var before := done;
      ok, done := d.Write(e.loc, e.data);
      SpliceAgain(logical, e.loc, e.data, before, done);
      done := if before <= done then done else before;
    }
    assert e.data[..|e.data|] == e.data;
  }

  /** Writing a prefix after another prefix leaves the longer one. */
  lemma SpliceAgain(img: Bytes, at: nat, data: Bytes, p: nat, q: nat)
    requires p <= |data| && q <= |data|
    ensures Splice(Splice(img, at, data[..p]), at, data[..q]) == Splice(img, at, data[..if p <= q then q else p])
  {}

  /** The journal can be replayed: it is not too long and every entry lies on the device. */
  ghost predicate Replayable(d: Device)
    requires d.block_size > 0
    reads d`disk, d`uninstall_data
  {
    && |d.uninstall_data| <= UNINSTALL_DATA_MAX
    && forall e :: e in d.uninstall_data ==> |e.data| < U64 && d.RunInRange(e.loc, |e.data|)
  }

  /** State of the loop of uninstall after `n` entries: `clean` as long as nothing has failed. */
  ghost predicate Restoring(d: Device, was: Bytes, es: seq<Entry>, n: nat, clean: bool)
    reads d, d.cache
  {
    && n <= |es| && d.uninstall_data == es && d.uninstalling && d.Shape() && |d.disk| == |was|
    && (clean ==> d.Coherent() && d.Logical() == Apply(was, es[..n]))
  }

  /** One turn of the loop. */
  method RestoreNext(d: Device, n: nat, ghost was: Bytes, ghost es: seq<Entry>, ghost clean: bool)
    returns (write_fail: bool, flush_fail: bool)
    requires Restoring(d, was, es, n, clean) && n < |es| && |es[n].data| < U64
    modifies d`disk, d`dirty, d`cached_block, d`faults, d`torn, d`uninstall_data, d.cache
    ensures Restoring(d, was, es, n + 1, clean && !write_fail && !flush_fail) && d.faults >= old(d.faults)
    ensures (write_fail || flush_fail) && d.faults == old(d.faults) ==> !d.RunInRange(es[n].loc, |es[n].data|)
  {
    hide Device.Coherent, Device.Logical, Splice, Apply, Fits;
    write_fail, flush_fail := RestoreEntry(d, d.uninstall_data[n]);
    ApplyNext(was, es, n);
  }

  lemma NothingRestored(d: Device, was: Bytes)
    requires d.Coherent() && d.Logical() == was && d.uninstalling && |d.disk| == |was|
    ensures Restoring(d, was, d.uninstall_data, 0, true)
  {
    assert d.uninstall_data[..0] == [];
  }

  lemma AllRestored(d: Device, was: Bytes, es: seq<Entry>, clean: bool)
    requires Restoring(d, was, es, |es|, clean)
    ensures d.Shape() && d.uninstall_data == es && |d.disk| == |was| && (clean ==> d.Logical() == Apply(was, es))
  {
    assert es[..|es|] == es;
  }

  /** uninstall: drops whatever the cache holds and writes the journal out, entry by entry.  Whatever
      reads and writes fail and whatever damage they do, the answer true means that the device holds
      exactly the in-order application of all entries. */
  method UninstallAll(d: Device) returns (ret: bool)
    requires d.Shape() && forall e :: e in d.uninstall_data ==> |e.data| < U64
    modifies d`disk, d`dirty, d`cached_block, d`faults, d`torn, d`uninstalling, d`uninstall_data, d.cache
    ensures d.Shape() && |d.disk| == |old(d.disk)| && d.uninstall_data == old(d.uninstall_data)
    ensures ret ==> d.disk == Apply(old(d.disk), d.uninstall_data) && !d.dirty
    ensures d.faults >= old(d.faults) && (old(Replayable(d)) && d.faults == old(d.faults) ==> ret)
  {
    hide Restoring, Device.Logical, Device.Coherent, Device.RunInRange, Apply, Splice, Fits, Replayable;
    InRangeByData(d);
    var print_cache_flush_fail, print_write_fail := false, false;
    ret := true;
    d.uninstalling := true;
    DropCache(d);
    ghost var was, es := d.disk, d.uninstall_data;
    NothingRestored(d, was);
    var i := 0;
    while i < |d.uninstall_data|
      invariant 0 <= i <= |es| && d.uninstall_data == es && |d.disk| == |was|
      invariant Restoring(d, was, es, i, !print_write_fail && !print_cache_flush_fail)
      invariant d.faults >= old(d.faults)
      invariant old(Replayable(d)) && d.faults == old(d.faults) ==> !print_write_fail && !print_cache_flush_fail
    {
      ghost var clean := !print_write_fail && !print_cache_flush_fail;
      var write_fail, flush_fail := RestoreNext(d, i, was, es, clean);
      KeepsData(d, was, es, i + 1, clean && !write_fail && !flush_fail);
      SameRange(d, was, es[i]);
      print_write_fail := print_write_fail || write_fail;
      print_cache_flush_fail := print_cache_flush_fail || flush_fail;
      i := i + 1;
    }
    AllRestored(d, was, es, !print_write_fail && !print_cache_flush_fail);
    var flushed := d.FlushCache();
    if !flushed {
      print_cache_flush_fail := true;
    }
    if print_write_fail {
      ret := false;
    }
    if print_cache_flush_fail {
      ret := false;
    }
  }

  lemma KeepsData(d: Device, was: Bytes, es: seq<Entry>, n: nat, clean: bool)
    requires Restoring(d, was, es, n, clean)
    ensures d.uninstall_data == es && |d.disk| == |was|
  {}

  lemma InRangeByData(d: Device)
    requires d.block_size > 0
    ensures Replayable(d) ==> forall e :: e in d.uninstall_data ==> Fits(|d.disk|, d.block_size, e.loc, |e.data|)
  {
    hide Fits;
  }

  /** Whether a run lies on the device depends on its size alone. */
  lemma SameRange(d: Device, was: Bytes, e: Entry)
    requires d.block_size > 0 && |d.disk| == |was|
    ensures d.RunInRange(e.loc, |e.data|) <==> Fits(|was|, d.block_size, e.loc, |e.data|)
  {}

  /** One write and its roll-back, on a device nothing has been written to yet.  A completed write is
      undone.  One that fails after `done` bytes was not saved: what of it had reached the device stays
      there although the roll-back answers true. */
  method WriteAndRollBack(d: Device, loc: Word, data: Bytes)
    returns (ok: bool, undone: bool, ghost done: nat, ghost kept: bool)
    requires d.Coherent() && !d.uninstalling && !d.torn && d.uninstall_data == [] && !d.dirty && |data| < U64
    modifies d`disk, d`dirty, d`cached_block, d`faults, d`torn, d`uninstalling, d`uninstall_data, d.cache
    ensures d.Shape() && |d.disk| == |old(d.disk)| && done <= |data| && (ok ==> done == |data|)
    ensures ok && undone ==> d.disk == old(d.disk)
    ensures !ok && undone && kept ==> d.disk == Splice(old(d.disk), loc, data[..done])
    ensures !ok && undone && kept && done > 0 ==>
              (d.disk == old(d.disk) <==>
               forall k: nat :: loc <= k < loc + done && k < |d.disk| ==> data[k - loc] == old(d.disk)[k])
  {
    ghost var orig := d.disk;
    NothingSaved(d);
    hide Splice, Device.Coherent, Recoverable, Faithful, Holds;
    ok, done := d.Write(loc, data);
    ghost var es, crashed := d.uninstall_data, d.disk;
    kept := !d.dirty;
    assert kept ==> d.disk == Splice(orig, loc, data[..done]);
    hide Device.Logical;
    if ok {
      ghost var saved :| es == [] + [Entry(saved, loc)] && |saved| == |data| && Holds(orig, loc, saved);
      RecordWrite(orig, orig, orig, [], d.disk, data, saved, loc);
      RecoverableIs(orig, d.disk, Splice(orig, loc, data), es);
      ReplayRestores(orig, d.disk, es);
    }
    ReverseJournal(d);
    assert forall e :: e in d.uninstall_data ==> e in es;
    undone := UninstallAll(d);
    SpliceChanges(orig, loc, data[..done]);
    assert !ok ==> d.uninstall_data == [] && Apply(crashed, []) == crashed;
  }

  lemma SpliceChanges(img: Bytes, at: nat, data: Bytes)
    ensures Splice(img, at, data) == img <==> forall k: nat :: at <= k < at + |data| && k < |img| ==> data[k - at] == img[k]
  {
    if forall k: nat :: at <= k < at + |data| && k < |img| ==> data[k - at] == img[k] {
      assert Splice(img, at, data) == img;
    } else {
      var k: nat :| at <= k < at + |data| && k < |img| && data[k - at] != img[k];
      assert Splice(img, at, data)[k] != img[k];
    }
  }

  // ---- bios_install as a sequence of device operations ---------------------------------------------

  /** What bios_install asks of the device, in order; `GiveUp` is a check that sends it to its
      clean-up. */
  datatype Op =
    | ReadOp(loc: Word, count: nat)
    | WriteOp(loc: Word, data: Bytes)
    | FlushOp
    | GiveUp

  predicate OpFits(op: Op)
  {
    match op
    case ReadOp(_, count) => count < U64
    case WriteOp(_, data) => |data| < U64
    case _ => true
  }

  /** The write spans more than one block. */
  predicate Crosses(op: Op, block_size: nat)
    requires block_size > 0
  {
    op.WriteOp? && op.data != [] && op.loc / block_size < (op.loc + |op.data| - 1) / block_size
  }

  function WritesOf(ops: seq<Op>): seq<Entry>
  {
    if ops == [] then []
    else
      var last := ops[|ops| - 1];
      WritesOf(ops[..|ops| - 1]) + if last.WriteOp? then [Entry(last.data, last.loc)] else []
  }

  lemma WritesMore(img: Bytes, ops: seq<Op>, n: nat)
    requires n < |ops|
    ensures Apply(img, WritesOf(ops[..n + 1])) ==
            if ops[n].WriteOp? then Splice(Apply(img, WritesOf(ops[..n])), ops[n].loc, ops[n].data)
            else Apply(img, WritesOf(ops[..n]))
  {
    assert ops[..n + 1][..n] == ops[..n];
    var es := WritesOf(ops[..n]);
    if ops[n].WriteOp? {
      var all := es + [Entry(ops[n].data, ops[n].loc)];
      assert WritesOf(ops[..n + 1]) == all && all[..|all| - 1] == es;
    } else {
      assert WritesOf(ops[..n + 1]) == es + [] == es;
    }
  }

  /** Nothing but a failing device or a full journal can stop the operation. */
  predicate Doable(op: Op, size: nat, block_size: nat)
    requires block_size > 0
  {
    match op
    case ReadOp(loc, count) => Fits(size, block_size, loc, count)
    case WriteOp(loc, data) => Fits(size, block_size, loc, |data|)
    case FlushOp => true
    case GiveUp => false
  }

  /** The journal has one entry per write, in order and for the same bytes. */
  ghost predicate SameRuns(es: seq<Entry>, writes: seq<Entry>)
  {
    |es| == |writes| && forall i :: 0 <= i < |es| ==> es[i].loc == writes[i].loc && |es[i].data| == |writes[i].data|
  }

  /** A write adds its entry to the journal. */
  ghost predicate Recorded(op: Op, es: seq<Entry>, es': seq<Entry>)
  {
    if op.WriteOp? then exists e :: es' == es + [e] && e.loc == op.loc && |e.data| == |op.data| else es' == es
  }

  /** One operation, up to the jump to the clean-up.  Failing or not, it leaves a faithful journal. */
  method Step(d: Device, op: Op, ghost orig: Bytes) returns (ok: bool, ghost split: bool)
    requires d.Coherent() && !d.uninstalling && Replayable(d) && OpFits(op) && !d.torn
    requires Recoverable(orig, d.disk, d.Logical(), d.uninstall_data)
    modifies d`disk, d`dirty, d`cached_block, d`faults, d`torn, d`uninstall_data, d.cache
    ensures d.Shape() && |d.disk| == |old(d.disk)| && Replayable(d) && Faithful(orig, d.uninstall_data)
    ensures ok ==> d.Coherent() && !d.torn && d.faults == old(d.faults)
    ensures ok ==> d.Logical() == if op.WriteOp? then Splice(old(d.Logical()), op.loc, op.data) else old(d.Logical())
    ensures if ok then Recorded(op, old(d.uninstall_data), d.uninstall_data) else d.uninstall_data == old(d.uninstall_data)
    ensures d.faults >= old(d.faults) && (d.faults == old(d.faults) ==> !d.torn)
    ensures !ok && d.faults == old(d.faults) ==>
              !Doable(op, |d.disk|, d.block_size) || (op.WriteOp? && |d.uninstall_data| >= UNINSTALL_DATA_MAX)
    ensures ok || (!d.torn && !split) ==> Recoverable(orig, d.disk, d.Logical(), d.uninstall_data)
    ensures split ==> !ok && Crosses(op, d.block_size)
    ensures op.FlushOp? && ok ==> !d.dirty
  {
    hide Splice, Recoverable, Faithful, Device.Logical, Holds, Fits;
    ghost var disk, logical, es := d.disk, d.Logical(), d.uninstall_data;
    RecoverableIs(orig, disk, logical, es);
    split := false;
    match op {
      case ReadOp(loc, count) =>
        var buffer;
        ok, buffer := d.Read(loc, count);
        if !d.torn { RecordNothing(orig, disk, logical, es, d.disk); }
      case WriteOp(loc, data) =>
        ghost var done;
        ok, done := d.Write(loc, data);
        SpliceNothing(logical, loc);
        if ok {
          assert data[..|data|] == data;
          ghost var saved :| d.uninstall_data == es + [Entry(saved, loc)] && |saved| == |data| && Holds(logical, loc, saved);
          RecordWrite(orig, disk, logical, es, d.disk, data, saved, loc);
          RecoverableIs(orig, d.disk, d.Logical(), d.uninstall_data);
        } else if done == 0 {
          if !d.torn { NothingBetween(disk, logical, d.disk, loc); RecordNothing(orig, disk, logical, es, d.disk); }
        } else {
          split := true;
          OneBlockIsAtomic(loc, |data|, done, d.block_size);
        }
      case FlushOp =>
        ok := d.FlushCache();
        if !d.torn { RecordNothing(orig, disk, logical, es, d.disk); }
      case GiveUp =>
        ok := false;
    }
  }

  lemma NothingBetween(disk: Bytes, logical: Bytes, disk': Bytes, loc: nat)
    requires Written(disk, logical, disk', loc, loc)
    ensures Written(disk, logical, disk', 0, 0)
  {}

  /** No operation is one that fails by itself, and the journal has room for all writes. */
  ghost predicate AllDoable(ops: seq<Op>, size: nat, block_size: nat)
    requires block_size > 0
  {
    (forall op :: op in ops ==> Doable(op, size, block_size)) && |WritesOf(ops)| <= UNINSTALL_DATA_MAX
  }

  lemma {:induction false} FewerWrites(ops: seq<Op>, n: nat)
    requires n <= |ops|
    ensures |WritesOf(ops[..n])| <= |WritesOf(ops)|
    decreases |ops|
  {
    if n < |ops| {
      FewerWrites(ops[..|ops| - 1], n);
      assert ops[..|ops| - 1][..n] == ops[..n];
    } else {
      assert ops[..n] == ops;
    }
  }

  /** A full journal stops a write only if there are too many writes. */
  lemma TooManyWrites(ops: seq<Op>, n: nat, size: nat, block_size: nat)
    requires n < |ops| && block_size > 0
    requires !Doable(ops[n], size, block_size) || (ops[n].WriteOp? && |WritesOf(ops[..n])| >= UNINSTALL_DATA_MAX)
    ensures !AllDoable(ops, size, block_size)
  {
    hide Doable;
    assert ops[n] in ops;
    assert ops[..n + 1][..n] == ops[..n];
    FewerWrites(ops, n + 1);
  }

  lemma RunsMore(es: seq<Entry>, ops: seq<Op>, n: nat, es': seq<Entry>)
    requires n < |ops| && SameRuns(es, WritesOf(ops[..n])) && Recorded(ops[n], es, es')
    ensures SameRuns(es', WritesOf(ops[..n + 1]))
  {
    assert ops[..n + 1][..n] == ops[..n];
  }

  /** State of the run after `n` operations, or after the one at which it gave up. */
  ghost predicate Running(d: Device, orig: Bytes, faults: nat, ops: seq<Op>, n: nat, ok: bool, split: bool)
    reads d, d.cache
  {
    && n <= |ops| && d.Shape() && |d.disk| == |orig| && Replayable(d) && Faithful(orig, d.uninstall_data)
    && (ok ==> d.Coherent() && !d.torn && d.faults == faults)
    && (ok ==> d.Logical() == Apply(orig, WritesOf(ops[..n])) && SameRuns(d.uninstall_data, WritesOf(ops[..n])))
    && (!ok && d.faults == faults ==> !AllDoable(ops, |d.disk|, d.block_size))
    && (ok || (!d.torn && !split) ==> Recoverable(orig, d.disk, d.Logical(), d.uninstall_data))
    && (split ==> !ok && exists op :: op in ops && Crosses(op, d.block_size))
    && d.faults >= faults && (d.torn ==> d.faults > faults)
  }

  /** One more operation of a run. */
  method RunOne(d: Device, ghost orig: Bytes, ghost faults: nat, ops: seq<Op>, n: nat) returns (ok: bool, ghost split: bool)
    requires Running(d, orig, faults, ops, n, true, false) && n < |ops| && OpFits(ops[n]) && !d.uninstalling
    modifies d`disk, d`dirty, d`cached_block, d`faults, d`torn, d`uninstall_data, d.cache
    ensures Running(d, orig, faults, ops, n + 1, ok, split)
  {
    hide Splice, Recoverable, Faithful, Device.Logical, Device.Coherent, Device.RunInRange, Crosses, Doable, AllDoable, SameRuns;
    hide Recorded, OpFits, Apply, WritesOf, Replayable;
    ghost var es := d.uninstall_data;
    WritesMore(orig, ops, n);
    ok, split := Step(d, ops[n], orig);
    if ok {
      RunsMore(es, ops, n, d.uninstall_data);
    } else if d.faults == faults {
      SameLength(es, ops, n);
      TooManyWrites(ops, n, |d.disk|, d.block_size);
    }
  }

  /** The body of bios_install between device_init and its clean-up. */
  method RunOps(d: Device, ops: seq<Op>) returns (ok: bool, ghost split: bool)
    requires d.Coherent() && !d.uninstalling && !d.torn && d.uninstall_data == [] && !d.dirty
    requires forall op :: op in ops ==> OpFits(op)
    modifies d`disk, d`dirty, d`cached_block, d`faults, d`torn, d`uninstall_data, d.cache
    ensures Running(d, old(d.disk), old(d.faults), ops, |ops|, ok, split)
  {
    ghost var orig, faults := d.disk, d.faults;
    ok, split := true, false;
    var i := 0;
    hide Running, OpFits;
    RunStarts(d, ops);
    while i < |ops| && ok
      invariant 0 <= i <= |ops| && Running(d, orig, faults, ops, i, ok, split) && (ok ==> !split)
    {
      ok, split := RunOne(d, orig, faults, ops, i);
      RunningStops(d, orig, faults, ops, i + 1, ok, split);
      i := i + 1;
    }
    RunningStops(d, orig, faults, ops, i, ok, split);
  }

  lemma RunStarts(d: Device, ops: seq<Op>)
    requires d.Coherent() && !d.torn && d.uninstall_data == [] && !d.dirty
    ensures Running(d, d.disk, d.faults, ops, 0, true, false)
  {
    NothingSaved(d);
    assert ops[..0] == [];
    hide Splice, Recoverable, Faithful, Device.Logical, Device.Coherent, SameRuns, Apply, WritesOf, Replayable;
  }

  /** A run that has given up is over. */
  lemma RunningStops(d: Device, orig: Bytes, faults: nat, ops: seq<Op>, n: nat, ok: bool, split: bool)
    requires Running(d, orig, faults, ops, n, ok, split)
    ensures ok ==> !split
    ensures !ok ==> Running(d, orig, faults, ops, |ops|, ok, split)
  {
    hide Splice, Recoverable, Faithful, Device.Logical, Device.Coherent, SameRuns, Apply, WritesOf, Replayable, Crosses, AllDoable;
  }

  lemma SameLength(es: seq<Entry>, ops: seq<Op>, n: nat)
    requires n <= |ops| && SameRuns(es, WritesOf(ops[..n]))
    ensures |es| == |WritesOf(ops[..n])|
  {}

  lemma NothingSaved(d: Device)
    requires d.Coherent() && !d.dirty && d.uninstall_data == []
    ensures Replayable(d) && WritesOf([]) == []
    ensures Recoverable(d.disk, d.disk, d.Logical(), d.uninstall_data) && Faithful(d.disk, d.uninstall_data)
    ensures SameRuns(d.uninstall_data, []) && Apply(d.disk, []) == d.Logical() == d.disk
  {}

  /** bios_install from device_init on: run the operations, flush, and on failure undo everything.
      A successful run leaves the device as the writes say and a journal that undoes them.  After a
      failed run let `crashed` be the device and `saved` the journal at the jump to the clean-up: a
      roll-back that answers true replays the journal backwards, and the device is what it was if and
      only if it had changed only where the journal had saved something.  Only a torn block or a write
      spanning several blocks that failed half-way makes a difference there. */
  method Install(d: Device, ops: seq<Op>)
    returns (installed: bool, undone: bool,
             ghost crashed: Bytes, ghost saved: seq<Entry>, ghost split: bool, ghost torn: bool)
    requires d.Coherent() && !d.uninstalling && !d.torn && d.uninstall_data == [] && !d.dirty
    requires forall op :: op in ops ==> OpFits(op)
    modifies d`disk, d`dirty, d`cached_block, d`faults, d`torn, d`uninstalling, d`uninstall_data, d.cache
    ensures d.Shape() && |d.disk| == |old(d.disk)| && Replayable(d) && d.uninstall_data == Reverse(saved)
    ensures installed ==> d.disk == Apply(old(d.disk), WritesOf(ops)) && !d.dirty && SameRuns(saved, WritesOf(ops))
    ensures installed ==> Apply(d.disk, d.uninstall_data) == old(d.disk)
    ensures !installed && undone ==> d.disk == Apply(crashed, Reverse(saved))
    ensures !installed && undone ==> (d.disk == old(d.disk) <==> SavedElsewhere(old(d.disk), crashed, saved))
    ensures !split && !torn ==> SavedElsewhere(old(d.disk), crashed, saved)
    ensures split ==> exists op :: op in ops && Crosses(op, d.block_size)
    ensures d.faults >= old(d.faults) && (d.faults == old(d.faults) ==> !torn && (installed || undone))
    ensures d.faults == old(d.faults) && AllDoable(ops, |d.disk|, d.block_size) ==> installed
  {
    hide Splice, Device.Logical, Device.Coherent, Crosses, Recoverable, Faithful, SavedElsewhere, Doable, AllDoable, SameRuns;
    ghost var orig := d.disk;
    installed, split := FlushedRun(d, ops);
    torn, undone, crashed, saved := d.torn, false, d.disk, d.uninstall_data;
    ReverseJournal(d);
    ReversedIsReplayable(d, saved);
    ReplayRestores(orig, crashed, saved);
    if installed || (!torn && !split) {
      RecoverableIs(orig, d.disk, d.Logical(), saved);
    }
    if !installed {
      undone := UninstallAll(d);
    }
  }

  lemma ReversedIsReplayable(d: Device, es: seq<Entry>)
    requires d.Shape() && d.uninstall_data == Reverse(es) && |es| <= UNINSTALL_DATA_MAX
    requires forall e :: e in es ==> |e.data| < U64 && d.RunInRange(e.loc, |e.data|)
    ensures Replayable(d)
  {
    hide Fits;
    assert forall e :: e in Reverse(es) ==> e in es;
  }

  lemma RecoverableIs(orig: Bytes, disk: Bytes, logical: Bytes, es: seq<Entry>)
    requires Recoverable(orig, disk, logical, es)
    ensures Faithful(orig, es) && SavedElsewhere(orig, disk, es)
  {}

  /** The operations and the flush that ends a successful installation. */
  method FlushedRun(d: Device, ops: seq<Op>) returns (ok: bool, ghost split: bool)
    requires d.Coherent() && !d.uninstalling && !d.torn && d.uninstall_data == [] && !d.dirty
    requires forall op :: op in ops ==> OpFits(op)
    modifies d`disk, d`dirty, d`cached_block, d`faults, d`torn, d`uninstall_data, d.cache
    ensures d.Shape() && |d.disk| == |old(d.disk)| && Replayable(d) && Faithful(old(d.disk), d.uninstall_data)
    ensures ok ==> d.disk == Apply(old(d.disk), WritesOf(ops)) && !d.dirty && !d.torn
    ensures ok ==> d.faults == old(d.faults) && SameRuns(d.uninstall_data, WritesOf(ops))
    ensures !ok && d.faults == old(d.faults) ==> !AllDoable(ops, |d.disk|, d.block_size)
    ensures ok || (!d.torn && !split) ==> Recoverable(old(d.disk), d.disk, d.Logical(), d.uninstall_data)
    ensures split ==> !ok && exists op :: op in ops && Crosses(op, d.block_size)
    ensures d.faults >= old(d.faults) && (d.torn ==> d.faults > old(d.faults))
  {
    hide Splice, Device.Logical, Device.Coherent, Crosses, Recoverable, Faithful, Doable, AllDoable, SameRuns;
    ghost var orig := d.disk;
    ok, split := RunOps(d, ops);
    assert ops[..|ops|] == ops;
    if ok {
      ghost var disk, logical, es := d.disk, d.Logical(), d.uninstall_data;
      ok := d.FlushCache();
      if !d.torn {
        AfterFlush(disk, logical, d.disk);
        RecordNothing(orig, disk, logical, es, d.disk);
      }
    }
  }

  lemma AfterFlush(disk: Bytes, logical: Bytes, disk': Bytes)
    requires |disk| == |logical| && (disk' == disk || disk' == logical)
    ensures Written(disk, logical, disk', 0, 0)
  {}
}
