/** The byte device behind limine/limine.c and its one-block write-back cache.  Reads and writes of
    a block may fail: a failed read leaves rubbish in the cache buffer, a failed write may leave
    rubbish in that block of the device. */
module BlockDevice {
  import opened Words
  import opened Arith

  /** `img` with `data` written at `at`; what falls outside the image is lost. */
  function Splice(img: Bytes, at: nat, data: Bytes): (r: Bytes)
    ensures |r| == |img|
    ensures forall k :: 0 <= k < |img| ==> r[k] == if at <= k < at + |data| then data[k - at] else img[k]
  {
    seq(|img|, k requires 0 <= k < |img| => if at <= k < at + |data| then data[k - at] else img[k])
  }

  /** Writing a prefix and then the bytes that follow it is writing the longer prefix. */
  lemma SpliceMore(img: Bytes, at: nat, data: Bytes, p: nat, q: nat)
    requires p <= q <= |data|
    ensures Splice(Splice(img, at, data[..p]), at + p, data[p..q]) == Splice(img, at, data[..q])
  {}

  lemma SpliceNothing(img: Bytes, at: nat)
    ensures Splice(img, at, []) == img
  {}

  /** `data` is what `img` holds at `at`. */
  ghost predicate Holds(img: Bytes, at: nat, data: Bytes)
  {
    (data == [] || at + |data| <= |img|) && forall k :: 0 <= k < |data| ==> data[k] == img[at + k]
  }

  lemma HoldsIs(img: Bytes, at: nat, data: Bytes)
    requires Holds(img, at, data) && data != []
    ensures at + |data| <= |img| && img[at..at + |data|] == data
  {}

  lemma HoldsNothing(img: Bytes, at: nat)
    ensures Holds(img, at, [])
  {}

  lemma HoldsMore(img: Bytes, at: nat, a: Bytes, b: Bytes)
    requires Holds(img, at, a) && Holds(img, at + |a|, b)
    ensures Holds(img, at, a + b)
  {}

  lemma HoldsPart(img: Bytes, at: nat, data: Bytes, i: nat, j: nat)
    requires Holds(img, at, data) && i <= j <= |data|
    ensures Holds(img, at + i, data[i..j])
  {}

  /** Overwriting a part of a block inside the whole image, or in the block alone. */
  lemma SpliceInBlock(disk: Bytes, start: nat, block: Bytes, offset: nat, data: Bytes)
    requires offset + |data| <= |block| && start + |block| <= |disk|
    ensures Splice(disk, start, Splice(block, offset, data)) == Splice(Splice(disk, start, block), start + offset, data)
  {}

  lemma SpliceSame(disk: Bytes, start: nat, block: Bytes)
    requires Holds(disk, start, block)
    ensures Splice(disk, start, block) == disk
  {}

  /** Two images that differ only inside one block are the same once that block is written. */
  lemma SpliceHides(a: Bytes, b: Bytes, start: nat, block: Bytes)
    requires |a| == |b| && forall k :: 0 <= k < |a| && !(start <= k < start + |block|) ==> a[k] == b[k]
    ensures Splice(a, start, block) == Splice(b, start, block)
  {}

  /** The blocks that a run of bytes touches lie within `size` bytes. */
  predicate Fits(size: nat, block_size: nat, loc: nat, count: nat)
    requires block_size > 0
  {
    count > 0 ==> (loc + count - 1) / block_size * block_size + block_size <= size
  }

  /** Changing a cached block and writing it back is changing the image the cache stands for. */
  lemma SpliceCached(disk: Bytes, logical: Bytes, start: nat, block: Bytes, offset: nat, data: Bytes)
    requires Holds(logical, start, block) && offset + |data| <= |block| && start + |block| <= |disk|
    requires logical == disk || logical == Splice(disk, start, block)
    ensures Splice(disk, start, Splice(block, offset, data)) == Splice(logical, start + offset, data)
    ensures Holds(Splice(logical, start + offset, data), start, Splice(block, offset, data))
  {
    SpliceInBlock(disk, start, block, offset, data);
    SpliceSame(logical, start, block);
    SpliceHides(disk, logical, start, block);
  }

  datatype Entry = Entry(data: Bytes, loc: Word)

  const UNINSTALL_DATA_MAX: nat := 256
  const NO_BLOCK: Word := U64 - 1

  class Device {
    const block_size: nat
    const cache: array<Byte>
    var disk: Bytes
    var cached_block: Word
    var dirty: bool
    var uninstalling: bool
    var uninstall_data: seq<Entry>
    ghost var faults: nat
    ghost var torn: bool

    constructor (disk: Bytes, block_size: nat)
      requires 512 <= block_size <= 4096 && |disk| < 0x8000_0000_0000_0000
      ensures Shape() && fresh(cache) && this.disk == disk && this.block_size == block_size
      ensures !dirty && !uninstalling && uninstall_data == [] && !torn && faults == 0
      ensures cached_block == NO_BLOCK
    {
      this.disk, this.block_size := disk, block_size;
      cache := new Byte[block_size];
      cached_block, dirty, uninstalling, uninstall_data := NO_BLOCK, false, false, [];
      faults, torn := 0, false;
    }

    function Start(b: nat): nat { b * block_size }

    /** The part of the device that whole blocks cover. */
    predicate InRange(b: nat)
      reads `disk
    {
      Start(b) + block_size <= |disk|
    }

    ghost predicate Shape()
      reads `disk, `cached_block, `dirty
    {
      && 512 <= block_size == cache.Length && |disk| < 0x8000_0000_0000_0000
      && (cached_block == NO_BLOCK || InRange(cached_block)) && (dirty ==> cached_block != NO_BLOCK)
    }

    /** What the device holds once the cache has been written back. */
    ghost function Logical(): (r: Bytes)
      requires Shape()
      reads `disk, `cached_block, `dirty, cache
      ensures |r| == |disk|
    {
      if dirty then Splice(disk, Start(cached_block), cache[..]) else disk
    }

    /** The buffer holds the block it claims to hold. */
    ghost predicate Coherent()
      reads `disk, `cached_block, `dirty, cache
    {
      Shape() && (cached_block != NO_BLOCK ==> Holds(Logical(), Start(cached_block), cache[..]))
    }

    // ---- the device itself ---------------------------------------------------------------------

    /** fseek and fread of one block into the buffer. */
    method ReadBlock(b: Word) returns (ok: bool)
      requires Shape() && !dirty
      modifies cache, this`faults
      ensures ok ==> InRange(b) && Holds(disk, Start(b), cache[..]) && faults == old(faults)
      ensures !ok && InRange(b) ==> faults > old(faults)
      ensures faults >= old(faults)
    {
      ok := *;
      if ok && InRange(b) {
        forall i | 0 <= i < block_size { cache[i] := disk[Start(b) + i]; }
      } else {
        if !ok { faults := faults + 1; }
        ok := false;
        forall i | 0 <= i < block_size { cache[i] := *; }
      }
    }

    /** fseek and fwrite of the buffer to its block. */
    method WriteBlock() returns (ok: bool)
      requires Shape() && cached_block != NO_BLOCK
      modifies this`disk, this`faults, this`torn
      ensures Shape()
      ensures ok ==> disk == Splice(old(disk), Start(cached_block), cache[..]) && faults == old(faults) && torn == old(torn)
      ensures !ok ==> faults > old(faults) && (torn <==> old(torn) || disk != old(disk))
      ensures |disk| == |old(disk)|
      ensures forall k :: 0 <= k < |disk| && !(Start(cached_block) <= k < Start(cached_block) + block_size) ==>
                disk[k] == old(disk)[k]
    {
      ok := *;
      if ok {
        disk := Splice(disk, Start(cached_block), cache[..]);
      } else {
        var rubbish: Bytes := *;
        if |rubbish| == block_size {
          var damaged := Splice(disk, Start(cached_block), rubbish);
          torn := torn || damaged != disk;
          disk := damaged;
        }
        faults := faults + 1;
      }
    }

    // ---- the cache -----------------------------------------------------------------------------

    /** device_flush_cache: whether or not it succeeds, the logical image is what it was. */
    method FlushCache() returns (ok: bool)
      requires Shape()
      modifies this`disk, this`dirty, this`faults, this`torn
      ensures |disk| == |old(disk)|
      ensures Shape() && Logical() == old(Logical()) && (old(Coherent()) ==> Coherent())
      ensures ok ==> !dirty && disk == Logical() && faults == old(faults) && torn == old(torn)
      ensures !ok ==> dirty && faults > old(faults) && (torn <==> old(torn) || disk != old(disk))
    {
      if !dirty {
        return true;
      }
      ok := WriteBlock();
      SpliceHides(disk, old(disk), Start(cached_block), cache[..]);
      if ok {
        dirty := false;
      }
    }

    /** device_cache_block: whether or not it succeeds, the logical image is what it was; a failure
        may leave the buffer out of step with the block it claims to hold. */
    method CacheBlock(block: Word) returns (ok: bool)
      requires Shape() && block != NO_BLOCK
      modifies this`disk, this`dirty, this`cached_block, this`faults, this`torn, cache
      ensures |disk| == |old(disk)|
      ensures Shape() && Logical() == old(Logical())
      ensures ok ==> cached_block == block && (old(Coherent()) ==> Coherent())
      ensures ok ==> faults == old(faults) && torn == old(torn)
      ensures !ok && faults == old(faults) ==> !InRange(block)
      ensures faults == old(faults) ==> torn == old(torn)
      ensures faults >= old(faults)
      ensures !torn ==> !old(torn) && (disk == old(disk) || disk == Logical())
    {
      if cached_block == block {
        return true;
      }
      if dirty {
        ok := FlushCache();
        if !ok {
          return false;
        }
      }
      ok := ReadBlock(block);
      if ok {
        cached_block := block;
      }
    }

    /** memcpy into the buffer, which makes it dirty. */
    method CopyIn(offset: nat, data: Bytes)
      requires Shape() && cached_block != NO_BLOCK && offset + |data| <= block_size
      modifies this`dirty, cache
      ensures Shape() && dirty
      ensures old(Coherent()) ==> Coherent() && Logical() == Splice(old(Logical()), Start(cached_block) + offset, data)
    {
      ghost var start, was, block := Start(cached_block), Logical(), cache[..];
      forall i | 0 <= i < |data| { cache[offset + i] := data[i]; }
      dirty := true;
      assert cache[..] == Splice(block, offset, data);
      hide Splice, Holds;
      if old(Coherent()) {
        SpliceCached(disk, was, start, block, offset, data);
      }
    }

    // ---- reading and writing any run of bytes ------------------------------------------------------

    /** Every byte of the run lies in a whole block. */
    predicate RunInRange(loc: nat, count: nat)
      requires block_size > 0
      reads `disk
    {
      Fits(|disk|, block_size, loc, count)
    }

    lemma RunEnds(loc: nat, count: nat)
      requires Shape()
      ensures block_size > 0
      ensures RunInRange(loc, count) <==>
              count == 0 || (loc + count - 1) / block_size * block_size + block_size <= |disk|
    {}

    /** Where byte `p` of the run lies. */
    lemma BlockOf(loc: nat, count: nat, p: nat)
      requires Shape() && p < count
      ensures Start((loc + p) / block_size) + (loc + p) % block_size == loc + p
      ensures RunInRange(loc, count) ==> InRange((loc + p) / block_size)
    {
      DivMonotone(loc + p, loc + count - 1, block_size);
      MulMonotone((loc + p) / block_size, (loc + count - 1) / block_size, block_size);
    }

    /** A chunk that stays in its block stays on the device, and a full one ends at a block boundary. */
    lemma ChunkFits(loc: nat, p: nat, chunk: nat)
      requires Shape() && 0 < chunk <= block_size - (loc + p) % block_size && InRange((loc + p) / block_size)
      ensures RunInRange(loc, p + chunk) && loc + p + chunk <= |disk|
      ensures chunk == block_size - (loc + p) % block_size ==> (loc + p + chunk) % block_size == 0
    {
      var b, offset := (loc + p) / block_size, (loc + p) % block_size;
      assert loc + p == b * block_size + offset;
      DivIs(loc + p + chunk - 1, block_size, b, offset + chunk - 1);
      if chunk == block_size - offset {
        assert b * block_size + block_size == (b + 1) * block_size;
        DivIs(loc + p + chunk, block_size, b + 1, 0);
      }
    }

    /** The head of both chunk loops: brings in the block of byte `progress` of the run. */
    method NextChunk(loc: Word, count: nat, progress: nat) returns (ok: bool, offset: nat, chunk: nat)
      requires Shape() && progress < count && loc + progress < U64
      modifies this`disk, this`dirty, this`cached_block, this`faults, this`torn, cache
      ensures |disk| == |old(disk)|
      ensures Shape() && Logical() == old(Logical())
      ensures ok ==>
                && cached_block != NO_BLOCK && Start(cached_block) + offset == loc + progress
                && 0 < chunk && offset + chunk <= block_size && progress + chunk <= count
                && RunInRange(loc, progress + chunk) && loc + progress + chunk <= |disk|
                && (progress + chunk == count || (loc + progress + chunk) % block_size == 0)
                && (old(Coherent()) ==> Coherent()) && faults == old(faults) && torn == old(torn)
      ensures !ok && faults == old(faults) ==> !RunInRange(loc, count)
      ensures faults == old(faults) ==> torn == old(torn)
      ensures faults >= old(faults)
      ensures !torn ==> !old(torn) && (disk == old(disk) || disk == Logical())
    {
      hide Logical, Coherent, Holds, Splice, InRange, RunInRange, Start;
      SmallBlock(loc + progress, block_size);
      var block := (loc + progress) % U64 / block_size;
      offset, chunk := 0, 0;
      ok := CacheBlock(block);
      BlockOf(loc, count, progress);
      if ok {
        chunk := count - progress;
        offset := (loc + progress) % U64 % block_size;
        if chunk > block_size - offset {
          chunk := block_size - offset;
        }
        CachedInRange();
        ChunkFits(loc, progress, chunk);
      }
    }

    lemma CachedInRange()
      requires Shape() && cached_block != NO_BLOCK
      ensures InRange(cached_block)
    {}

    /** `buffer` holds the first bytes of a run, and the device holds what it held or what the cache
        was holding. */
    ghost predicate ReadSoFar(was: Bytes, logical: Bytes, loc: nat, buffer: Bytes)
      reads `disk, `cached_block, `dirty, `torn, cache
    {
      && Coherent() && Logical() == logical && Holds(logical, loc, buffer)
      && (|buffer| == 0 || loc + |buffer| <= |disk|) && RunInRange(loc, |buffer|)
      && (!torn ==> Written(was, logical, disk, 0, 0))
    }

    /** One turn of the chunk loop of _device_read. */
    method ReadChunk(loc: Word, count: nat, buffer: Bytes, ghost was: Bytes, ghost logical: Bytes)
      returns (ok: bool, buffer': Bytes)
      requires ReadSoFar(was, logical, loc, buffer) && |buffer| < count < U64
      modifies this`disk, this`dirty, this`cached_block, this`faults, this`torn, cache
      ensures Shape() && |disk| == |old(disk)| && Logical() == logical
      ensures ok ==> |buffer| < |buffer'| <= count && ReadSoFar(was, logical, loc, buffer')
      ensures ok ==> faults == old(faults) && torn == old(torn)
      ensures !ok && faults == old(faults) ==> !RunInRange(loc, count)
      ensures faults == old(faults) ==> torn == old(torn)
      ensures faults >= old(faults)
      ensures !torn ==> !old(torn) && Written(was, logical, disk, 0, 0)
    {
      hide Logical, Splice, InRange, Start, Fits, Holds;
      buffer' := buffer;
      var offset, chunk;
      ok, offset, chunk := NextChunk(loc, count, |buffer|);
      if ok {
        HoldsPart(logical, Start(cached_block), cache[..], offset, offset + chunk);
        HoldsMore(logical, loc, buffer, cache[offset..offset + chunk]);
        buffer' := buffer + cache[offset..offset + chunk];
      }
    }

    /** _device_read */
    method Read(loc: Word, count: nat) returns (ok: bool, buffer: Bytes)
      requires Coherent() && count < U64
      modifies this`disk, this`dirty, this`cached_block, this`faults, this`torn, cache
      ensures Shape() && Logical() == old(Logical()) && |disk| == |old(disk)|
      ensures ok ==> Coherent() && |buffer| == count && Holds(Logical(), loc, buffer) && RunInRange(loc, count)
      ensures ok && count > 0 ==> loc + count <= |disk| && buffer == old(Logical())[loc..loc + count]
      ensures ok && count > 0 ==> (loc + count - 1) / block_size * block_size + block_size <= |disk|
      ensures !ok && faults == old(faults) ==>
                count > 0 && (loc + count - 1) / block_size * block_size + block_size > |disk|
      ensures ok ==> faults == old(faults) && torn == old(torn)
      ensures !ok && faults == old(faults) ==> !RunInRange(loc, count)
      ensures faults == old(faults) ==> torn == old(torn)
      ensures faults >= old(faults)
      ensures !torn ==> !old(torn) && Written(old(disk), old(Logical()), disk, 0, 0)
    {
      buffer := [];
      ghost var was, logical := disk, Logical();
      hide Logical, Splice, InRange, Start, Fits, Holds;
      HoldsNothing(logical, loc);
      NothingWritten(loc);
      RunEnds(loc, count);
      while |buffer| < count
        invariant |buffer| <= count && ReadSoFar(was, logical, loc, buffer)
        invariant faults == old(faults) && torn == old(torn) && |disk| == |was|
      {
        ok, buffer := ReadChunk(loc, count, buffer, was, logical);
        if !ok {
          return;
        }
      }
      if count > 0 { HoldsIs(logical, loc, buffer); }
      return true, buffer;
    }

    /** The first `p` bytes of a run have been written, starting from `logical` on the device `was`;
        nothing is known of the contents if the buffer was out of step (`coherent` is false). */
    ghost predicate WroteUpTo(was: Bytes, logical: Bytes, coherent: bool, loc: nat, data: Bytes, p: nat)
      reads `disk, `cached_block, `dirty, `torn, cache
    {
      && Shape() && p <= |data| && |disk| == |was| == |logical|
      && (p == 0 || p == |data| || (loc + p) % block_size == 0)
      && (p == 0 || loc + p <= |disk|) && RunInRange(loc, p)
      && (coherent ==> Coherent() && Logical() == Splice(logical, loc, data[..p]))
      && (coherent && !torn ==> Written(was, logical, disk, loc, loc + p))
    }

    /** One turn of the chunk loop of _device_write. */
    method WriteChunk(loc: Word, data: Bytes, progress: nat, ghost was: Bytes, ghost logical: Bytes, ghost coherent: bool)
      returns (ok: bool, next: nat)
      requires WroteUpTo(was, logical, coherent, loc, data, progress) && progress < |data| < U64
      modifies this`disk, this`dirty, this`cached_block, this`faults, this`torn, cache
      ensures Shape() && |disk| == |was|
      ensures ok ==> progress < next <= |data| && WroteUpTo(was, logical, coherent, loc, data, next)
      ensures ok ==> faults == old(faults) && torn == old(torn)
      ensures !ok ==> (coherent ==> Logical() == Splice(logical, loc, data[..progress]))
      ensures !ok && coherent && !torn ==> !old(torn) && Written(was, logical, disk, loc, loc + progress)
      ensures !ok && faults == old(faults) ==> !RunInRange(loc, |data|)
      ensures faults == old(faults) ==> torn == old(torn)
      ensures faults >= old(faults) && (!torn ==> !old(torn))
    {
      hide InRange, RunInRange, Start, Holds, Logical;
      next := progress;
      var offset, chunk;
      ok, offset, chunk := NextChunk(loc, |data|, progress);
      if ok {
        SpliceMore(logical, loc, data, progress, progress + chunk);
        CopyIn(offset, data[progress..progress + chunk]);
        next := progress + chunk;
      }
    }

    /** The chunk loop of _device_write.  A failure leaves the part written so far, which ends at a
        block boundary. */
    method WriteRun(loc: Word, data: Bytes) returns (ok: bool, ghost done: nat)
      requires Shape() && |data| < U64
      modifies this`disk, this`dirty, this`cached_block, this`faults, this`torn, cache
      ensures |disk| == |old(disk)|
      ensures Shape() && done <= |data| && (ok ==> done == |data|)
      ensures !ok ==> done < |data| && (done == 0 || (loc + done) % block_size == 0)
      ensures old(Coherent()) ==> Logical() == Splice(old(Logical()), loc, data[..done])
      ensures ok ==> RunInRange(loc, |data|) && (old(Coherent()) ==> Coherent())
      ensures ok ==> faults == old(faults) && torn == old(torn)
      ensures !ok && faults == old(faults) ==> !RunInRange(loc, |data|)
      ensures faults == old(faults) ==> torn == old(torn)
      ensures faults >= old(faults)
      ensures !torn ==> !old(torn) && (old(Coherent()) ==> Written(old(disk), old(Logical()), disk, loc, loc + done))
    {
      ghost var was, logical, coherent := disk, Logical(), Coherent();
      SpliceNothing(logical, loc);
      var progress := 0;
      done := 0;
      hide InRange, RunInRange, Start, Holds, Logical, Splice, Written;
      assert WroteUpTo(was, logical, coherent, loc, data, 0) by { NothingWritten(loc); }
      while progress < |data|
        invariant WroteUpTo(was, logical, coherent, loc, data, progress)
        invariant faults == old(faults) && torn == old(torn)
      {
        done := progress;
        ok, progress := WriteChunk(loc, data, progress, was, logical, coherent);
        if !ok {
          return;
        }
      }
      return true, |data|;
    }

    lemma NothingWritten(loc: nat)
      requires Shape()
      ensures RunInRange(loc, 0) && Written(disk, Logical(), disk, loc, loc) && Written(disk, Logical(), disk, 0, 0)
    {}

    /** _device_write.  Unless an uninstall is under way, the bytes about to be overwritten are first
        saved in the journal, and a write that fails leaves the journal as it was. */
    method Write(loc: Word, data: Bytes) returns (ok: bool, ghost done: nat)
      requires Shape() && (!uninstalling ==> Coherent()) && |data| < U64
      modifies this`disk, this`dirty, this`cached_block, this`faults, this`torn, this`uninstall_data, cache
      ensures |disk| == |old(disk)|
      ensures Shape() && done <= |data| && (ok ==> done == |data|)
      ensures !ok ==> (done < |data| || done == 0) && (done == 0 || (loc + done) % block_size == 0)
      ensures old(Coherent()) ==> Logical() == Splice(old(Logical()), loc, data[..done])
      ensures ok ==> RunInRange(loc, |data|) && (old(Coherent()) ==> Coherent())
      ensures ok ==> faults == old(faults) && torn == old(torn)
      ensures ok && !uninstalling ==>
                exists saved :: uninstall_data == old(uninstall_data) + [Entry(saved, loc)]
                                && |saved| == |data| && Holds(old(Logical()), loc, saved)
      ensures ok && data != [] ==> (loc + |data| - 1) / block_size * block_size + block_size <= |disk|
      ensures ok && !uninstalling && data != [] ==>
                && loc + |data| <= |disk|
                && uninstall_data == old(uninstall_data) + [Entry(old(Logical())[loc..loc + |data|], loc)]
      ensures !ok && faults == old(faults) ==>
                || (data != [] && (loc + |data| - 1) / block_size * block_size + block_size > |disk|)
                || (!uninstalling && |uninstall_data| >= 256)
      ensures ok && !uninstalling ==> |old(uninstall_data)| < UNINSTALL_DATA_MAX
      ensures uninstalling || !ok ==> uninstall_data == old(uninstall_data)
      ensures !ok && faults == old(faults) ==>
                !RunInRange(loc, |data|) || (!uninstalling && |uninstall_data| >= UNINSTALL_DATA_MAX)
      ensures faults == old(faults) ==> torn == old(torn)
      ensures faults >= old(faults)
      ensures !torn ==> !old(torn) && (old(Coherent()) ==> Written(old(disk), old(Logical()), disk, loc, loc + done))
    {
      hide InRange, Start, Logical, Coherent, Shape, Holds, Splice;
      done := 0;
      ghost var logical, was := Logical(), disk;
      SpliceNothing(logical, loc);
      RunEnds(loc, |data|);
      var saved: Bytes := [];
      if !uninstalling {
        if |uninstall_data| >= UNINSTALL_DATA_MAX {
          return false, 0;
        }
        var granted: bool := *;
        if !granted {
          faults := faults + 1;
          return false, 0;
        }
        ok, saved := Read(loc, |data|);
        if !ok {
          return false, 0;
        }
      }
      ok, done := WriteRun(loc, data);
      if ok && !uninstalling {
        uninstall_data := uninstall_data + [Entry(saved, loc)];
      }
    }
  }

  /** device_init: tries the known block sizes in turn.  Unless a read failed, any device of at
      least 512 bytes gets 512. */
  method OpenDevice(disk: Bytes) returns (d: Device?, ghost faulted: bool)
    requires |disk| < 0x8000_0000_0000_0000
    ensures d != null ==>
              && fresh(d) && fresh(d.cache) && d.Coherent() && d.disk == disk && d.Logical() == disk && d.cached_block == 0
              && !d.dirty && !d.uninstalling && d.uninstall_data == [] && !d.torn && d.block_size in {512, 2048, 4096}
    ensures !faulted ==> if |disk| < 512 then d == null else d != null && d.block_size == 512
  {
    var guesses := [512, 2048, 4096];
    faulted := false;
    var i := 0;
    while i < |guesses|
      invariant i <= |guesses| && (!faulted && i > 0 ==> |disk| < 512)
    {
      d := new Device(disk, guesses[i]);
      var ok := d.ReadBlock(0);
      if ok {
        d.cached_block := 0;
        return;
      }
      faulted := faulted || d.faults > 0;
      i := i + 1;
    }
    d := null;
  }

  /** The block number of a 64-bit offset is never the marker for an empty cache. */
  lemma SmallBlock(x: nat, d: nat)
    requires x < U64 && d >= 512
    ensures x / d < NO_BLOCK && x % U64 == x
  {
    var q := x / d;
    assert q * d <= x;
    MulMonotone(512, d, q);
  }

  /** Outside [lo, hi) every byte of the device is the old one or the one the cache was holding. */
  ghost predicate Written(disk: Bytes, logical: Bytes, disk': Bytes, lo: nat, hi: nat)
  {
    |disk| == |disk'| == |logical| && forall k :: 0 <= k < |disk| && !(lo <= k < hi) ==>
      disk'[k] == disk[k] || disk'[k] == logical[k]
  }
}
