/** The undo journal of limine/limine.c: replaying it backwards restores the original bytes. */
module Journal {
  import opened Words
  import opened Arith
  import opened BlockDevice

  /** All entries written in order. */
  function Apply(img: Bytes, es: seq<Entry>): (r: Bytes)
    ensures |r| == |img|
  {
    if es == [] then img
    else Splice(Apply(img, es[..|es| - 1]), es[|es| - 1].loc, es[|es| - 1].data)
  }

  lemma ApplyNext(img: Bytes, es: seq<Entry>, i: nat)
    requires i < |es|
    ensures Apply(img, es[..i + 1]) == Splice(Apply(img, es[..i]), es[i].loc, es[i].data)
  {
    assert es[..i + 1][..i] == es[..i];
  }

  function Reverse(es: seq<Entry>): (r: seq<Entry>)
    ensures |r| == |es| && forall i :: 0 <= i < |es| ==> r[i] == es[|es| - 1 - i]
  {
    seq(|es|, i requires 0 <= i < |es| => es[|es| - 1 - i])
  }

  predicate Covers(e: Entry, k: nat) { e.loc <= k < e.loc + |e.data| }

  predicate Covered(es: seq<Entry>, k: nat)
  {
    exists i :: 0 <= i < |es| && Covers(es[i], k)
  }

  /** Every saved byte that no earlier entry had saved is the original one. */
  ghost predicate Faithful(orig: Bytes, es: seq<Entry>)
  {
    forall i, k: nat {:trigger Covers(es[i], k)} ::
      0 <= i < |es| && k < |orig| && Covers(es[i], k) && !Covered(es[..i], k) ==> es[i].data[k - es[i].loc] == orig[k]
  }

  /** `img` can only differ from `orig` where the journal has saved something. */
  ghost predicate SavedElsewhere(orig: Bytes, img: Bytes, es: seq<Entry>)
  {
    |img| == |orig| && forall k: nat :: k < |orig| && !Covered(es, k) ==> img[k] == orig[k]
  }

  // ---- replaying backwards -----------------------------------------------------------------------

  lemma {:induction false} ApplyHead(img: Bytes, e: Entry, rest: seq<Entry>)
    ensures Apply(img, [e] + rest) == Apply(Splice(img, e.loc, e.data), rest)
    decreases |rest|
  {
    var all := [e] + rest;
    if rest == [] {
      assert all[..0] == [] && Apply(img, []) == img;
    } else {
      ApplyHead(img, e, rest[..|rest| - 1]);
      assert all[..|all| - 1] == [e] + rest[..|rest| - 1];
    }
  }

  lemma FaithfulPrefix(orig: Bytes, es: seq<Entry>, n: nat)
    requires Faithful(orig, es) && n <= |es|
    ensures Faithful(orig, es[..n])
  {
    forall i, k: nat | 0 <= i < n && k < |orig| && Covers(es[..n][i], k) && !Covered(es[..n][..i], k)
      ensures es[i].data[k - es[i].loc] == orig[k]
    {
      assert es[..n][..i] == es[..i] && Covers(es[i], k);
    }
  }

  /** After a backward replay every saved byte is the original one, and the others are untouched. */
  lemma {:induction false} ReplayByte(orig: Bytes, img: Bytes, es: seq<Entry>, k: nat)
    requires Faithful(orig, es) && |img| == |orig| && k < |orig|
    ensures Apply(img, Reverse(es))[k] == if Covered(es, k) then orig[k] else img[k]
    decreases |es|
  {
    if es == [] {
      assert Reverse(es) == [];
    } else {
      var init, last := es[..|es| - 1], es[|es| - 1];
      assert Reverse(es) == [last] + Reverse(init);
      ApplyHead(img, last, Reverse(init));
      FaithfulPrefix(orig, es, |es| - 1);
      ReplayByte(orig, Splice(img, last.loc, last.data), init, k);
      assert es == init + [last];
      CoveredMore(init, last, k);
      if !Covered(init, k) && Covers(last, k) {
        assert Covers(es[|es| - 1], k) && es[..|es| - 1] == init;
      }
    }
  }

  /** Replaying a faithful journal backwards restores the original image exactly when the image
      differs from it only where something was saved. */
  lemma ReplayRestores(orig: Bytes, img: Bytes, es: seq<Entry>)
    requires Faithful(orig, es) && |img| == |orig|
    ensures Apply(img, Reverse(es)) == orig <==> SavedElsewhere(orig, img, es)
  {
    forall k: nat | k < |orig| ensures Apply(img, Reverse(es))[k] == if Covered(es, k) then orig[k] else img[k] {
      ReplayByte(orig, img, es, k);
    }
  }

  // ---- keeping the journal -------------------------------------------------------------------------

  /** Everything the rollback needs, on the device and behind the cache. */
  ghost predicate Recoverable(orig: Bytes, disk: Bytes, logical: Bytes, es: seq<Entry>)
  {
    Faithful(orig, es) && SavedElsewhere(orig, disk, es) && SavedElsewhere(orig, logical, es)
  }

  lemma CoveredMore(es: seq<Entry>, e: Entry, k: nat)
    ensures Covered(es + [e], k) <==> Covered(es, k) || Covers(e, k)
  {
    assert (es + [e])[|es|] == e;
    if i :| 0 <= i < |es| && Covers(es[i], k) { assert (es + [e])[i] == es[i]; }
  }

  /** A write that saved what it overwrote. */
  lemma RecordWrite(orig: Bytes, disk: Bytes, logical: Bytes, es: seq<Entry>,
                    disk': Bytes, data: Bytes, saved: Bytes, loc: Word)
    requires Recoverable(orig, disk, logical, es) && |saved| == |data| && Holds(logical, loc, saved)
    requires Written(disk, logical, disk', loc, loc + |data|)
    ensures Recoverable(orig, disk', Splice(logical, loc, data), es + [Entry(saved, loc)])
  {
    var e := Entry(saved, loc);
    var es' := es + [e];
    forall k: nat | k < |orig| ensures Covered(es', k) <==> Covered(es, k) || Covers(e, k) { CoveredMore(es, e, k); }
    forall i, k: nat | 0 <= i < |es'| && k < |orig| && Covers(es'[i], k) && !Covered(es'[..i], k)
      ensures es'[i].data[k - es'[i].loc] == orig[k]
    {
      if i < |es| {
        assert es'[..i] == es[..i] && Covers(es[i], k);
      } else {
        assert es'[..i] == es;
      }
    }
  }

  /** Writing nothing new: cache traffic, and writes that fail before their first chunk. */
  lemma RecordNothing(orig: Bytes, disk: Bytes, logical: Bytes, es: seq<Entry>, disk': Bytes)
    requires Recoverable(orig, disk, logical, es) && Written(disk, logical, disk', 0, 0)
    ensures Recoverable(orig, disk', logical, es)
  {}

  /** A write that failed after its first chunk has changed bytes the journal never saved.  The
      rollback still restores the original image if and only if those bytes were saved by an earlier
      write or were overwritten with what was already there. */
  lemma SplitWriteUndone(orig: Bytes, img: Bytes, es: seq<Entry>, loc: nat, data: Bytes, done: nat)
    requires Faithful(orig, es) && SavedElsewhere(orig, img, es) && done <= |data|
    ensures Apply(Splice(img, loc, data[..done]), Reverse(es)) == orig <==>
              forall k: nat {:trigger Covered(es, k)} ::
                loc <= k < loc + done && k < |orig| ==> Covered(es, k) || data[k - loc] == orig[k]
  {
    var img' := Splice(img, loc, data[..done]);
    ReplayRestores(orig, img', es);
    forall k: nat | k < |orig| && !Covered(es, k)
      ensures img'[k] == orig[k] <==> !(loc <= k < loc + done) || data[k - loc] == orig[k]
    {}
  }

  /** A write that fails after its first chunk spans two blocks: inside one block it is atomic. */
  lemma OneBlockIsAtomic(loc: nat, count: nat, done: nat, block_size: nat)
    requires block_size > 0 && 0 < done < count && (loc + done) % block_size == 0
    ensures loc / block_size < (loc + count - 1) / block_size
  {
    var q := (loc + done) / block_size;
    DivMonotone(loc + done, loc + count - 1, block_size);
    assert loc + done == q * block_size && loc == loc / block_size * block_size + loc % block_size;
    assert (loc / block_size - q) * block_size < 0;
    SmallMultiple(loc / block_size - q + 1, block_size);
  }

  /** reverse_uninstall_data */
  method ReverseJournal(d: Device)
    modifies d`uninstall_data
    ensures d.uninstall_data == Reverse(old(d.uninstall_data))
  {
    var n := |d.uninstall_data|;
    var rev := d.uninstall_data;
    var i := 0;
    while i < n
      invariant i <= n == |rev|
      invariant forall k :: 0 <= k < i ==> rev[n - 1 - k] == d.uninstall_data[k]
    {
      rev := rev[n - 1 - i := d.uninstall_data[i]];
      i := i + 1;
    }
    assert rev == Reverse(d.uninstall_data);
    d.uninstall_data := rev;
  }
}
