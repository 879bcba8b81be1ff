/** Installing, keeping the journal in a file, and uninstalling from that file later. */
module InstallCycle {
  import opened Words
  import opened BlockDevice
  import opened Journal
  import opened Uninstall
  import UninstallFile

  /** Every entry of a journal lies on a device of `size` bytes with the smallest blocks. */
  predicate OnDevice(es: seq<Entry>, size: nat)
  {
    forall e :: e in es ==> Fits(size, 512, e.loc, |e.data|)
  }

  /** The uninstall mode of bios_install: a fresh process, a fresh cache, the journal from the file. */
  method UninstallFrom(disk: Bytes, file: Bytes) returns (ok: bool, disk': Bytes, ghost faulted: bool)
    requires |disk| < 0x8000_0000_0000_0000
    ensures ok ==> UninstallFile.Decode(file).Some? && disk' == Apply(disk, UninstallFile.Decode(file).value)
    ensures !faulted && |disk| >= 512 ==>
              (UninstallFile.Decode(file).Some? && OnDevice(UninstallFile.Decode(file).value, |disk|) ==> ok)
  {
    disk' := disk;
    ok := false;
    var d;
    d, faulted := OpenDevice(disk);
    if d != null {
      var es;
      ghost var unread;
      ok, es, unread := UninstallFile.Load(file);
      faulted := faulted || unread;
      if ok {
        UninstallFile.DecodeExactly(file, es);
        d.uninstall_data := es;
        ghost var faults := d.faults;
        ok := UninstallAll(d);
        faulted := faulted || d.faults > faults;
        disk' := d.disk;
      }
    }
  }

  /** Operations that can be carried out on a device of `size` bytes with the smallest blocks, and
      whose journal can be stored. */
  ghost predicate Installable(ops: seq<Op>, size: nat)
  {
    size >= 512 && AllDoable(ops, size, 512) && forall op :: op in ops && op.WriteOp? ==> op.data != []
  }

  /** The journal of writes that are not empty can be stored. */
  lemma {:induction false} WritesAreFull(ops: seq<Op>)
    requires forall op :: op in ops && op.WriteOp? ==> op.data != []
    ensures forall i :: 0 <= i < |WritesOf(ops)| ==> WritesOf(ops)[i].data != []
    decreases |ops|
  {
    if ops != [] { WritesAreFull(ops[..|ops| - 1]); }
  }

  lemma JournalIsStorable(ops: seq<Op>, size: nat, saved: seq<Entry>, es: seq<Entry>)
    requires Installable(ops, size) && SameRuns(saved, WritesOf(ops)) && es == Reverse(saved)
    requires forall e :: e in es ==> |e.data| < U64
    ensures UninstallFile.Storable(es)
  {
    hide Doable;
    WritesAreFull(ops);
    forall i | 0 <= i < |es| ensures 0 < |es[i].data| < U64 {
      assert es[i] == saved[|saved| - 1 - i];
    }
  }

  /** Whatever an installation wrote, and whatever fails on the way: if installing, storing the
      journal and uninstalling from the stored file all report success, the device is back to what
      it was byte for byte.  If nothing faults they do, for all operations that fit the device. */
  method InstallThenUninstall(disk: Bytes, ops: seq<Op>) returns (ok: bool, disk': Bytes, ghost faulted: bool)
    requires |disk| < 0x8000_0000_0000_0000 && forall op :: op in ops ==> OpFits(op)
    ensures ok ==> disk' == disk
    ensures !faulted && Installable(ops, |disk|) ==> ok
  {
    hide Apply, Fits, AllDoable, OpFits, WritesOf, SameRuns, SavedElsewhere, Crosses, UninstallFile.Storable;
    disk' := disk;
    ok := false;
    var d;
    d, faulted := OpenDevice(disk);
    if d != null {
      var installed, undone;
      ghost var crashed, saved, split, torn, faults := [], [], false, false, d.faults;
      installed, undone, crashed, saved, split, torn := Install(d, ops);
      faulted := faulted || d.faults > faults;
      disk' := d.disk;
      if installed {
        var stored, file;
        ghost var unstored, unread;
        if !faulted && Installable(ops, |disk|) { JournalIsStorable(ops, |disk|, saved, d.uninstall_data); }
        stored, file, unstored := UninstallFile.Store(d.uninstall_data);
        faulted := faulted || unstored;
        if stored {
          UninstallFile.StoredIsLoaded(d.uninstall_data);
          ok, disk', unread := UninstallFrom(d.disk, file);
          faulted := faulted || unread;
        }
      }
    }
  }
}
