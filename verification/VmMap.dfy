/** vm/vm_map.c: an address space as a circular doubly-linked list of entries sorted by start
    address, on top of the page tables, the entry zone and the page allocator. */
module VmMap {
  import opened Words
  import opened KernReturn
  import opened PhysMem
  import opened Pmm
  import opened PageTable
  import opened Pmap
  import opened Mappings
  import opened Zalloc
  import opened VmList
  import opened VmUnmap
  import opened VmWire

  class Map {
    const pmm: PageAllocator
    const zone: Zone
    const pmap: AddressSpace
    const header: Entry
    const min_offset: Word
    const max_offset: Word
    var ref_count: nat
    var nentries: nat
    ghost var nodes: seq<Entry>

    /** vm_map_create, for an address space that maps nothing yet. */
    constructor (pmm: PageAllocator, zone: Zone, pmap: AddressSpace, min: Word, max: Word)
      requires pmap.pmm == pmm && zone.pmm == pmm && pmap.Valid() && zone.Valid()
      requires MappingsOk(pmm.mem.Image(), pmm.own) && max < LOWER_END
      requires forall p :: 0 <= p < |pmm.own| ==> !IsData(pmm.own, pmap.Root(), p)
      ensures Valid() && nodes == [] && fresh(header) && ref_count == 1
      ensures this.pmm == pmm && this.zone == zone && this.pmap == pmap
      ensures min_offset == min && max_offset == max
    {
      hide TablesOk, BitmapOk, DataOk, Partitioned, ListOk;
      this.pmm, this.zone, this.pmap := pmm, zone, pmap;
      min_offset, max_offset, ref_count, nentries := min, max, 1, 0;
      var h := new Entry(0, 0, 0, 0, 0, 0);
      header := h;
      nodes := [];
      new;
      header.next := header;
      header.prev := header;
    }

    ghost function Image(): Image
      reads pmm.mem.frame
    {
      pmm.mem.Image()
    }

    function Root(): nat
      reads pmap
    {
      pmap.Root()
    }

    ghost function Contents(): seq<Info>
      reads this
    {
      Infos(nodes)
    }

    /** Live zone elements that hold no entry of this map: they belong to other maps. */
    ghost function Foreign(): set<nat>
      reads this, zone
    {
      zone.live - SlotSet(nodes, pmm.mem.hhdm)
    }

    /** The page tables and the frames they map are in order. */
    ghost predicate Memory()
      reads this, pmap, pmm, pmm.mem.frame
    {
      pmap.pmm == pmm && zone.pmm == pmm && pmap.Valid() && MappingsOk(Image(), pmm.own)
    }

    /** The list is a sorted ring whose nodes sit in distinct live elements of the entry zone. */
    ghost predicate ListValid()
      reads this, header, nodes, zone
    {
      && Ring(header, nodes) && Sorted(Contents(), min_offset, max_offset)
      && nentries == |nodes| % U32
      && SlotsLive(nodes, pmm.mem.hhdm, zone.live)
    }

    ghost predicate Sound()
      reads this, header, nodes, zone, pmap, pmm, pmm.mem.frame
    {
      && Memory() && zone.Valid() && ListValid() && max_offset < LOWER_END && PageAligned(Contents())
    }

    ghost predicate Valid()
      reads this, header, nodes, zone, pmap, pmm, pmm.mem.frame
    {
      Sound() && Coverage(pmm.own, Root(), Contents())
    }

    /** vm_map_lookup_entry */
    method LookupEntry(addr: Word) returns (e: Entry?)
      requires ListValid()
      ensures e != null ==> e in nodes && e.Contents().Covers(addr)
      ensures e == null ==> forall i :: 0 <= i < |nodes| ==> !nodes[i].Contents().Covers(addr)
      ensures e != null ==> e.start <= addr < e.end
      ensures e == null ==> forall i :: 0 <= i < |nodes| ==> !(nodes[i].start <= addr < nodes[i].end)
    {
      hide NodeAt, Sorted, SlotsLive;
      RingEnds(header, nodes);
      e := header.next;
      ghost var k := 0;
      while e != header
        invariant 0 <= k <= |nodes| && e == NodeAt(header, nodes, k + 1)
        invariant forall i :: 0 <= i < k ==> !nodes[i].Contents().Covers(addr)
        decreases |nodes| - k
      {
        if addr >= e.start && addr < e.end {
          return e;
        }
        assert NodeAt(header, nodes, k + 1).next == NodeAt(header, nodes, k + 2);
        e := e.next;
        k := k + 1;
      }
      return null;
    }

    /** The sequence shared by vm_map_enter and vm_fault: take a page, zero it, map it at `a`; give
        it back when a table page is missing.  Returns whether the page is now mapped; it fails only
        when at most that one page is left free. */
    method MapFreshPage(a: Word, pte: Word) returns (ok: bool)
      requires Memory() && a < LOWER_END && Translation(Image(), Root(), a / 4096) == None
      modifies pmm, pmm.mem.frame
      ensures Memory() && pmm.bitmap == old(pmm.bitmap)
      ensures ok ==> FreshPage(Image(), Root(), a / 4096, pte)
      ensures ok ==> Remapped(old(Image()), Image(), Root(), a / 4096, Translation(Image(), Root(), a / 4096))
      ensures !ok ==> SameTranslations(old(Image()), Image(), Root())
      ensures !ok ==> |FreePages(pmm.own)| <= 1
      ensures OthersSame(old(Image()), old(pmm.own), Image(), Root())
      ensures TakesFree(old(pmm.own), pmm.own, Root(), ok, a / 4096)
      ensures UsedKept(old(Image()), old(pmm.own), Image(), pmm.bitmap, Root())
    {
      hide TableAt, Translation, TablesOk, DataOk, TreesOk, MappingsOk, BitmapOk, EntryWord, FreshPage, Remapped;
      hide FreePages;
      ghost var img, own, bm, root, vpn := Image(), pmm.own, pmm.bitmap, Root(), a / 4096;
      VpnOf(a);
      LedgerFits(img, own, bm);
      var pa := pmm.AllocPage();
      if pa == 0 {
        return false;
      }
      var p := pa / 4096;
      pmm.ZeroPage(p);
      AfterAlloc(img, own, Image(), bm, p);
      ghost var img2, own2 := Image(), pmm.own;
      var r := pmap.Map(a, pa, pte);
      ghost var img3, own3 := Image(), pmm.own;
      HeldKept(img2, own2, img3, own3, bm, root, p);
      if r != 0 {
        AfterFailedMap(img2, own2, img3, own3, bm, root);
        MayFree(img3, own3, bm, p);
        pmm.FreePage(pa);
        OnlyPageFree(own3, p);
        AfterFree(img3, own3, Image(), bm, p);
        MapStages(img, own, img2, img3, own3, Image(), bm, root, p, vpn, false);
        StillSame(img, img2, img3, Image(), root);
        return false;
      }
      FreshlyMapped(img, img2, img3, root, vpn, pa, pte);
      AfterMap(img2, own2, img3, own3, bm, root, vpn, EntryWord(pa, pte));
      pmm.Relabel(p, Data(root, vpn));
      MapStages(img, own, img2, img3, own3, img3, bm, root, p, vpn, true);
      return true;
    }

    /** Body of the unmapping loops: drop one page and free its frame, if it is mapped. */
    method DropPage(a: Word)
      requires Memory() && a < LOWER_END
      modifies pmm, pmm.mem.frame
      ensures Memory() && pmm.bitmap == old(pmm.bitmap)
      ensures Remapped(old(Image()), Image(), Root(), a / 4096, None)
      ensures OneFreed(old(Image()), old(pmm.own), pmm.own, Root(), a / 4096)
      ensures OthersSame(old(Image()), old(pmm.own), Image(), Root())
      ensures OthersKept(old(Image()), old(pmm.own), Image(), pmm.bitmap, Root())
    {
      hide TableAt, Translation, TablesOk, Used, BitmapOk;
      ghost var img, own := Image(), pmm.own;
      ghost var vpn := a / 4096;
      VpnOf(a);
      MappedFrame(img, own, pmm.bitmap, Root(), vpn);
      var pa := pmap.Query(a);
      if pa != 0 {
        var r := pmap.Unmap(a);
        ghost var img1 := Image();
        DropMapping(img, own, img1, Root(), vpn, pa / 4096);
        MayFree(img1, own, pmm.bitmap, pa / 4096);
        pmm.FreePage(pa);
        FreedBeside(img1, own, Image(), pmm.bitmap, pa / 4096);
        ForeignWrites(img1, own, Image(), pmm.own);
        KeepMappings(img1, own[pa / 4096 := Owner.Free], Image(), pmm.own);
      }
    }

    /** The page loop shared by vm_map_remove and vm_map_destroy: unmap what is mapped in [lo, hi)
        and free its frames. */
    method UnmapRange(lo: Word, hi: Word)
      requires Memory() && hi <= LOWER_END
      modifies pmm, pmm.mem.frame
      ensures Memory() && pmm.bitmap == old(pmm.bitmap)
      ensures RangeDropped(old(Image()), Image(), Root(), lo, hi)
      ensures FramesFreed(old(pmm.own), pmm.own, Root(), lo, hi)
      ensures OthersSame(old(Image()), old(pmm.own), Image(), Root())
      ensures OthersKept(old(Image()), old(pmm.own), Image(), pmm.bitmap, Root())
    {
      hide Memory;
      var a: nat := lo;
      ghost var next := lo / 4096;
      while a < hi
        invariant lo / 4096 <= next && a == next * 4096 + lo % 4096
        invariant next == lo / 4096 || (next - 1) * 4096 + lo % 4096 < hi
        invariant Memory() && pmm.bitmap == old(pmm.bitmap)
        invariant PrefixDropped(old(Image()), old(pmm.own), Image(), pmm.own, pmm.bitmap, Root(), lo, next)
      {
        ghost var img1, own1 := Image(), pmm.own;
        DropPage(a);
        DropOneMore(old(Image()), old(pmm.own), img1, own1, Image(), pmm.own, pmm.bitmap, Root(), lo, next);
        a := a + 4096;
        next := next + 1;
      }
      PrefixIsRange(old(Image()), old(pmm.own), Image(), pmm.own, pmm.bitmap, Root(), lo, hi, next);
    }

    /** Gives the zone element of a removed entry back. */
    method FreeEntry(e: Entry)
      requires Memory() && zone.Valid() && zone.IsLive(e.slot)
      modifies zone, pmm.mem.frame
      ensures Memory() && zone.Valid() && zone.live == old(zone.live) - {zone.SlotOf(e.slot)}
      ensures OnlyZoneWritten(old(Image()), pmm.own, Image())
      ensures forall r :: IsRoot(pmm.own, r) ==> SameTranslations(old(Image()), Image(), r)
    {
      hide Partitioned, ListOk, TablesOk, DataOk, BitmapOk, TreesOk, MappingsOk;
      ghost var img := Image();
      LedgerFits(img, pmm.own, pmm.bitmap);
      zone.Free(e.slot);
      assert OnlyZoneWritten(img, pmm.own, Image());
      ZoneWrites(img, pmm.own, Image());
    }

    /** Unmaps the part of `e` inside [lo, hi) and gives its zone element back. */
    method ReleaseEntry(e: Entry, lo: nat, hi: nat)
      requires Memory() && zone.Valid() && zone.IsLive(e.slot)
      requires e.end < LOWER_END && e.Contents().Overlaps(lo, hi)
      modifies zone, pmm, pmm.mem.frame
      ensures Memory() && zone.Valid() && pmm.bitmap == old(pmm.bitmap)
      ensures zone.live == old(zone.live) - {zone.SlotOf(e.slot)}
      ensures Unmapped(old(Image()), old(pmm.own), Image(), pmm.own, pmm.bitmap, Root(), [e.Contents()], lo, hi)
    {
      hide Partitioned, ListOk, TablesOk, TreesOk, MappingsOk, DataOk, BitmapOk, OnlyZoneWritten, Unmapped;
      var unmap_start: nat := if e.start > lo then e.start else lo;
      var unmap_end: nat := if e.end < hi then e.end else hi;
      ghost var img, own := Image(), pmm.own;
      LedgerFits(img, own, pmm.bitmap);
      UnmapRange(unmap_start, unmap_end);
      ZonePagesKept(img, own, Image(), pmm.own, pmm.bitmap, Root(), unmap_start, unmap_end, zone.id);
      zone.Kept();
      ghost var img1 := Image();
      FreeEntry(e);
      UnmappedOne(img, own, img1, pmm.own, Image(), pmm.bitmap, Root(), e.Contents(), lo, hi);
    }

    /** vm_map_remove for one overlapping entry. */
    method DropEntry(e: Entry, ghost k: nat, lo: nat, hi: nat)
      requires Sound() && k < |nodes| && e == nodes[k] && e.Contents().Overlaps(lo, hi)
      modifies this`nodes, this`nentries, header, Elements(nodes), zone, pmm, pmm.mem.frame
      ensures Sound() && pmm.bitmap == old(pmm.bitmap)
      ensures nodes == old(nodes)[..k] + old(nodes)[k + 1..]
      ensures Foreign() == old(Foreign())
      ensures Unmapped(old(Image()), old(pmm.own), Image(), pmm.own, pmm.bitmap, Root(), [e.Contents()], lo, hi)
    {
      hide TablesOk, TreesOk, MappingsOk, DataOk, BitmapOk, Unmapped, Partitioned, ListOk, Ring, SlotsLive, LiveElement;
      hide SlotSet, Sorted, PageAligned, Infos;
      WithoutNode(nodes, k, min_offset, max_offset);
      SlotsWithout(nodes, pmm.mem.hhdm, zone.live, k);
      EndsLow(k);
      ReleaseEntry(e, lo, hi);
      UnlinkEntry(e, k);
    }

    lemma EndsLow(k: nat)
      requires Sound() && k < |nodes|
      ensures nodes[k].end < LOWER_END
    {}

    /** map_list_remove and the count. */
    method UnlinkEntry(e: Entry, ghost k: nat)
      requires Ring(header, nodes) && k < |nodes| && e == nodes[k] && nentries == |nodes| % U32
      modifies this`nodes, this`nentries, header, Elements(nodes)
      ensures nodes == old(nodes)[..k] + old(nodes)[k + 1..] && Ring(header, nodes) && nentries == |nodes| % U32
    {
      hide Ring, NodeAt;
      nodes := ListRemove(header, nodes, k, e);
      nentries := (nentries + U32 - 1) % U32;
    }

    /** Body of the loop of vm_map_remove: looks at entry `k` and returns the one to look at next. */
    method VisitEntry(e: Entry, ghost k: nat, lo: nat, hi: nat) returns (next: Entry)
      requires Sound() && k < |nodes| && e == NodeAt(header, nodes, k + 1)
      modifies this`nodes, this`nentries, header, Elements(nodes), zone, pmm, pmm.mem.frame
      ensures Sound() && pmm.bitmap == old(pmm.bitmap)
      ensures nodes == if e.Contents().Overlaps(lo, hi) then old(nodes)[..k] + old(nodes)[k + 1..] else old(nodes)
      ensures next == NodeAt(header, nodes, if e.Contents().Overlaps(lo, hi) then k + 1 else k + 2)
      ensures Foreign() == old(Foreign())
      ensures Unmapped(old(Image()), old(pmm.own), Image(), pmm.own, pmm.bitmap, Root(), [e.Contents()], lo, hi)
    {
      hide TablesOk, TreesOk, MappingsOk, DataOk, BitmapOk, Unmapped, Partitioned, ListOk, SlotsLive, Sorted;
      assert NodeAt(header, nodes, k + 1).next == NodeAt(header, nodes, k + 2);
      next := e.next;
      if e.start >= hi || e.end <= lo {
        UnmappedNone(Image(), pmm.own, pmm.bitmap, Root(), lo, hi);
        UnmappedSkip(Image(), pmm.own, Image(), pmm.own, pmm.bitmap, Root(), [], e.Contents(), lo, hi);
        assert [] + [e.Contents()] == [e.Contents()];
      } else {
        RemovedAt(header, nodes, k);
        DropEntry(e, k, lo, hi);
      }
    }

    /** State of the loop of vm_map_remove before it looks at entry `i` of `all`. */
    ghost predicate Removing(all: seq<Entry>, i: nat, lo: nat, hi: nat, img: Image, own: Ledger, e: Entry?)
      reads this, header, nodes, zone, pmap, pmm, pmm.mem.frame
    {
      && i <= |all| && Sound()
      && nodes == KeepNodes(all[..i], lo, hi) + all[i..]
      && e == NodeAt(header, nodes, |KeepNodes(all[..i], lo, hi)| + 1)
      && Elements(nodes) <= Elements(all)
      && Unmapped(img, own, Image(), pmm.own, pmm.bitmap, Root(), Infos(all[..i]), lo, hi)
      && IsRoot(own, Root())
    }

    lemma RemovingStarts(lo: nat, hi: nat)
      requires Sound()
      ensures Removing(nodes, 0, lo, hi, Image(), pmm.own, header.next)
    {
      RingEnds(header, nodes);
      UnmappedNone(Image(), pmm.own, pmm.bitmap, Root(), lo, hi);
      assert Infos(nodes[..0]) == [];
    }

    lemma RemovingAt(all: seq<Entry>, i: nat, lo: nat, hi: nat, img: Image, own: Ledger, e: Entry?)
      requires Removing(all, i, lo, hi, img, own, e)
      ensures Sound() && e != null && (e == header <==> i == |all|)
      ensures Elements(nodes) <= Elements(all)
      ensures i < |all| ==>
                var k := |KeepNodes(all[..i], lo, hi)|;
                e == all[i] && k < |nodes| && e == NodeAt(header, nodes, k + 1)
    {
      hide Unmapped, Sorted, KeepNodes;
      RingEnds(header, nodes);
      if i < |all| { OneMore(all, i, lo, hi); }
    }

    method RemovingStep(ghost all: seq<Entry>, ghost i: nat, lo: nat, hi: nat, ghost img: Image, ghost own: Ledger, e: Entry)
      returns (next: Entry)
      requires Removing(all, i, lo, hi, img, own, e) && i < |all|
      modifies this`nodes, this`nentries, header, Elements(all), zone, pmm, pmm.mem.frame
      ensures Removing(all, i + 1, lo, hi, img, own, next) && pmm.bitmap == old(pmm.bitmap)
      ensures Foreign() == old(Foreign())
    {
      hide TablesOk, TreesOk, MappingsOk, DataOk, BitmapOk, Unmapped, Partitioned, ListOk, SlotsLive, Sorted, PageAligned;
      hide Ring, KeepNodes, NodeAt;
      RemovingAt(all, i, lo, hi, img, own, e);
      OneMore(all, i, lo, hi);
      KeepStep(all, i, nodes, lo, hi);
      ghost var img1, own1, k := Image(), pmm.own, |KeepNodes(all[..i], lo, hi)|;
      next := VisitEntry(e, k, lo, hi);
      UnmappedTransitive(img, own, img1, own1, Image(), pmm.own, pmm.bitmap, Root(),
                         Infos(all[..i]), [all[i].Contents()], lo, hi);
    }

    /** The pages of the old entries in [lo, hi) are unmapped and their frames free; all else stays. */
    twostate predicate PagesDropped(lo: nat, hi: nat)
      reads this, pmap, pmm, pmm.mem.frame
    {
      var infos := old(Contents());
      && (forall v: nat :: v < 0x8_0000_0000 ==>
            Translation(Image(), Root(), v) ==
            if PageOfBoth(infos, lo, hi, v) then None else Translation(old(Image()), Root(), v))
      && |pmm.own| == |old(pmm.own)|
      && forall p :: 0 <= p < |pmm.own| ==>
           pmm.own[p] == if old(pmm.own)[p].Data? && old(pmm.own)[p].root == Root()
                            && PageOfBoth(infos, lo, hi, old(pmm.own)[p].vpn) then Owner.Free
                         else old(pmm.own)[p]
    }

    twostate lemma DroppedFrom(d: Dropping)
      requires Infos(d.all) == old(Contents()) && PageAligned(Infos(d.all)) && d.lo % 4096 == 0
      requires Unmapped(old(Image()), old(pmm.own), Image(), pmm.own, pmm.bitmap, Root(), Infos(d.all), d.lo, d.hi)
      ensures PagesDropped(d.lo, d.hi)
    {
      UnmappedPages(old(Image()), old(pmm.own), Image(), pmm.own, pmm.bitmap, Root(), Infos(d.all), d.lo, d.hi);
      hide Unmapped, PageOfBoth, Translation, PageAligned;
    }

    /** vm_map_remove.  `start + size` wraps like the 64-bit addition it is. */
    method Remove(start: Word, size: Word) returns (kr: nat)
      requires Valid()
      modifies this`nodes, this`nentries, header, Elements(nodes), zone, pmm, pmm.mem.frame
      ensures kr == KERN_SUCCESS && Sound() && pmm.bitmap == old(pmm.bitmap)
      ensures nodes == KeepNodes(old(nodes), start, (start + size) % U64)
      ensures Foreign() == old(Foreign())
      ensures Unmapped(old(Image()), old(pmm.own), Image(), pmm.own, pmm.bitmap, Root(),
                       old(Contents()), start, (start + size) % U64)
      ensures Valid() <==> NoStray(old(pmm.own), Root(), old(Contents()), start, (start + size) % U64)
      ensures var end := (start + size) % 0x1_0000_0000_0000_0000;
              && (forall e :: e in old(nodes) ==> (e !in nodes <==> start < e.end && e.start < end))
              && (start < end ==> forall e :: e in old(nodes) ==> (e !in nodes <==> Share(e.start, e.end, start, end)))
              && (start % 4096 == 0 ==> PagesDropped(start, end))
    {
      hide PagesDropped, Removing, Valid, Sound, Unmapped, NoStray, KeepNodes, Sorted, PageAligned, Coverage, Infos, Memory, SlotSet;
      var end := (start + size) % U64;
      ghost var all, i := nodes, 0;
      ghost var img, own := Image(), pmm.own;
      var e := header.next;
      RemovingFrom();
      RemovingStarts(start, end);
      RemovingAt(all, 0, start, end, img, own, e);
      while e != header
        invariant i <= |all| && Removing(all, i, start, end, img, own, e) && pmm.bitmap == old(pmm.bitmap)
        invariant Foreign() == old(Foreign())
        invariant e != null && (e == header <==> i == |all|)
        decreases |all| - i
      {
        e := RemovingStep(all, i, start, end, img, own, e);
        i := i + 1;
        RemovingAt(all, i, start, end, img, own, e);
      }
      RemovingEnds(all, start, end, img, own, e);
      DroppedNodes(all, 0, U64, start, end);
      if start % 4096 == 0 { DroppedFrom(Dropping(all, start, end)); }
      return KERN_SUCCESS;
    }

    lemma RemovingFrom()
      requires Valid()
      ensures Sound() && Sorted(Contents(), 0, U64) && PageAligned(Contents()) && Coverage(pmm.own, Root(), Contents())
    {
      SortedWithin(Contents(), min_offset, max_offset);
    }

    lemma RemovingEnds(all: seq<Entry>, lo: nat, hi: nat, img: Image, own: Ledger, e: Entry?)
      requires Removing(all, |all|, lo, hi, img, own, e)
      requires Sorted(Infos(all), 0, U64) && PageAligned(Infos(all)) && Coverage(own, Root(), Infos(all))
      ensures Sound() && nodes == KeepNodes(all, lo, hi)
      ensures Unmapped(img, own, Image(), pmm.own, pmm.bitmap, Root(), Infos(all), lo, hi)
      ensures Valid() <==> NoStray(own, Root(), Infos(all), lo, hi)
    {
      assert all[..|all|] == all;
      CoverageAfter(all, img, own, Image(), pmm.own, pmm.bitmap, Root(), lo, hi);
    }

    /** Whether some entry overlaps [lo, hi): the scan at the head of vm_map_enter. */
    method FindOverlap(lo: nat, hi: nat) returns (found: bool)
      requires ListValid()
      ensures found <==> exists i :: 0 <= i < |nodes| && nodes[i].Contents().Overlaps(lo, hi)
    {
      hide NodeAt, Sorted, SlotsLive;
      RingEnds(header, nodes);
      var e := header.next;
      ghost var k := 0;
      while e != header
        invariant 0 <= k <= |nodes| && e == NodeAt(header, nodes, k + 1)
        invariant forall i :: 0 <= i < k ==> !nodes[i].Contents().Overlaps(lo, hi)
        decreases |nodes| - k
      {
        if lo < e.end && hi > e.start {
          assert nodes[k].Contents().Overlaps(lo, hi);
          return true;
        }
        assert NodeAt(header, nodes, k + 1).next == NodeAt(header, nodes, k + 2);
        e := e.next;
        k := k + 1;
      }
      return false;
    }

    /** The scan for the insertion point: the last node that starts before `start`, or the header. */
    method FindPlace(start: Word) returns (pos: Entry, ghost k: nat)
      requires Ring(header, nodes)
      ensures k <= |nodes| && pos == NodeAt(header, nodes, k)
      ensures forall i :: 0 <= i < k ==> nodes[i].start < start
      ensures k < |nodes| ==> nodes[k].start >= start
    {
      hide NodeAt;
      RingEnds(header, nodes);
      pos := header;
      k := 0;
      assert NodeAt(header, nodes, 0).next == NodeAt(header, nodes, 1);
      while pos.next != header && pos.next.start < start
        invariant k <= |nodes| && pos == NodeAt(header, nodes, k) && pos.next == NodeAt(header, nodes, k + 1)
        invariant forall i :: 0 <= i < k ==> nodes[i].start < start
        decreases |nodes| - k
      {
        assert NodeAt(header, nodes, k + 1).next == NodeAt(header, nodes, k + 2);
        pos := pos.next;
        k := k + 1;
      }
    }

    lemma PendingIsLive(ne: Entry, a: nat)
      requires ListPending(ne, a)
      ensures a in zone.live
    {}

    /** Links a new entry into its place in the order. */
    method InsertEntry(ne: Entry, ghost a: nat) returns (ghost k: nat)
      requires ListPending(ne, a)
      modifies this`nodes, this`nentries, header, Elements(nodes), ne
      ensures k <= |old(nodes)| && nodes == old(nodes)[..k] + [ne] + old(nodes)[k..]
      ensures ListValid() && PageAligned(Contents())
      ensures SlotSet(nodes, pmm.mem.hhdm) == SlotSet(old(nodes), pmm.mem.hhdm) + {a}
    {
      hide Sorted, SlotsLive, PageAligned, Infos, LiveElement, SlotSet, Ring;
      PendingIsLive(ne, a);
      ghost var was := nodes;
      k := LinkEntry(ne);
      WithNode(was, k, ne, min_offset, max_offset);
      assert zone.live - {a} + {a} == zone.live;
      SlotsWith(was, pmm.mem.hhdm, zone.live - {a}, k, ne, a);
      nentries := (nentries + 1) % U32;
    }

    /** The insertion on the ring alone. */
    method LinkEntry(ne: Entry) returns (ghost k: nat)
      requires Ring(header, nodes) && ne != header && ne !in nodes
      modifies this`nodes, header, Elements(nodes), ne
      ensures k <= |old(nodes)| && nodes == old(nodes)[..k] + [ne] + old(nodes)[k..] && Ring(header, nodes)
      ensures forall i :: 0 <= i < k ==> old(nodes)[i].start < ne.start
      ensures k < |old(nodes)| ==> old(nodes)[k].start >= ne.start
    {
      hide Ring, NodeAt;
      var pos;
      pos, k := FindPlace(ne.start);
      nodes := ListInsertAfter(header, nodes, k, pos, ne);
    }

    /** Argument check of vm_map_enter; `start + size` is the 64-bit sum. */
    predicate BadRange(start: Word, size: Word)
    {
      size == 0 || start < min_offset || (start + size) % U64 > max_offset || (start + size) % U64 < start
    }

    /** The insertion keeps everything else about the map. */
    method PlaceEntry(ne: Entry, ghost a: nat) returns (ghost k: nat)
      requires Memory() && zone.Valid() && ListPending(ne, a) && Coverage(pmm.own, Root(), Contents())
      modifies this`nodes, this`nentries, header, Elements(nodes), ne
      ensures k <= |old(nodes)| && nodes == old(nodes)[..k] + [ne] + old(nodes)[k..]
      ensures Valid() && Foreign() == old(Foreign()) - {a}
    {
      hide Sorted, SlotsLive, PageAligned, Ring, TreesOk, MappingsOk, BitmapOk, Partitioned, ListOk, SlotSet, Coverage;
      hide LiveElement;
      ghost var was := nodes;
      k := InsertEntry(ne, a);
      CoverageWith(pmm.own, Root(), was, k, ne);
    }

    /** Everything InsertEntry needs to link `ne`, which sits in the live element `a`. */
    ghost predicate ListPending(ne: Entry, a: nat)
      reads this, header, nodes, zone, ne
    {
      && Ring(header, nodes) && Sorted(Contents(), min_offset, max_offset) && PageAligned(Contents())
      && nentries == |nodes| % U32 && SlotsLive(nodes, pmm.mem.hhdm, zone.live - {a})
      && ne != header && ne !in nodes && max_offset < LOWER_END
      && min_offset <= ne.start < ne.end <= max_offset && ne.start % 4096 == 0 && ne.end % 4096 == 0
      && (forall i :: 0 <= i < |nodes| ==> !nodes[i].Contents().Overlaps(ne.start, ne.end))
      && LiveElement(pmm.mem.hhdm, zone.live, ne.slot) && (ne.slot - pmm.mem.hhdm) / 8 == a
    }

    /** Allocates and links the entry of vm_map_enter; null when the zone has no element left. */
    method NewEntry(start: Word, end: Word, prot: nat, max_prot: nat, flags: nat) returns (ne: Entry?, ghost k: nat)
      requires Valid() && min_offset <= start < end <= max_offset && start % 4096 == 0 && end % 4096 == 0
      requires forall i :: 0 <= i < |nodes| ==> !nodes[i].Contents().Overlaps(start, end)
      modifies this`nodes, this`nentries, header, Elements(nodes), zone, pmm, pmm.mem.frame
      ensures Valid() && pmm.bitmap == old(pmm.bitmap) && Foreign() == old(Foreign())
      ensures ZoneStep(old(Image()), old(pmm.own), Image(), pmm.own, pmm.bitmap, zone.id)
      ensures forall r :: IsRoot(old(pmm.own), r) ==> SameTranslations(old(Image()), Image(), r)
      ensures ne == null ==> nodes == old(nodes) && zone.Exhausted()
      ensures ne != null ==>
                && fresh(ne) && k <= |old(nodes)| && nodes == old(nodes)[..k] + [ne] + old(nodes)[k..]
                && ne.Contents() == Info(start, end, prot, max_prot, flags)
    {
      hide Sorted, SlotsLive, PageAligned, Ring, TreesOk, MappingsOk, BitmapOk, Partitioned, ListOk, SlotSet, Coverage;
      hide Zone.Valid, Zone.Exhausted, ZoneStep, SameTranslations, IsRoot, NodeAt;
      k := 0;
      var slot := AllocElement();
      if slot == 0 {
        return null, 0;
      }
      ghost var a, was := zone.SlotOf(slot), nodes;
      ne := new Entry(start, end, prot, max_prot, flags, slot);
      k := PlaceEntry(ne, a);
      ForeignStays(zone.live, SlotSet(was, pmm.mem.hhdm), a);
    }

    lemma ForeignStays(live: set<nat>, slots: set<nat>, a: nat)
      requires a in live
      ensures live - (slots + {a}) == (live - {a}) - slots
    {}

    /** zalloc from the entry zone, as seen by the map. */
    method AllocElement() returns (slot: nat)
      requires Valid()
      modifies zone, pmm, pmm.mem.frame
      ensures Memory() && zone.Valid() && Coverage(pmm.own, Root(), Contents()) && pmm.bitmap == old(pmm.bitmap)
      ensures ZoneStep(old(Image()), old(pmm.own), Image(), pmm.own, pmm.bitmap, zone.id)
      ensures forall r :: IsRoot(old(pmm.own), r) ==> SameTranslations(old(Image()), Image(), r)
      ensures slot == 0 ==> zone.live == old(zone.live) && zone.Exhausted()
      ensures slot != 0 ==> zone.IsLive(slot) && zone.live - {zone.SlotOf(slot)} == old(zone.live)
    {
      hide Sorted, SlotsLive, PageAligned, Ring, TreesOk, MappingsOk, BitmapOk, Partitioned, ListOk, LiveKept, ZeroedAt;
      hide SlotSet, Coverage, FreePages, IsSlot;
      ghost var img, own := Image(), pmm.own;
      slot := zone.Alloc();
      AfterZone(img, own, Image(), pmm.own, pmm.bitmap, zone.id);
      CoverageKept(own, pmm.own, Root(), Contents(), zone.id);
    }

    /** The wired loop of vm_map_enter: maps a fresh page at every page of [start, end) until one
        fails.  `img`, `own` are the memory and the ledger the call started from. */
    method WirePages(start: Word, end: Word, pte: Word, ghost img: Image, ghost own: Ledger)
      returns (ok: bool, ghost next: nat)
      requires Valid() && start % 4096 == 0 && end % 4096 == 0 && start <= end < LOWER_END
      requires IsRoot(own, Root()) && |own| <= |img|
      requires WiredSoFar(img, own, Image(), pmm.own, Root(), zone.id, start / 4096, start / 4096, pte)
      requires forall v: nat :: start / 4096 <= v < end / 4096 ==>
                 Translation(img, Root(), v) == None && CoveredBy(Contents(), v)
      modifies pmm, pmm.mem.frame
      ensures Valid() && pmm.bitmap == old(pmm.bitmap) && start / 4096 <= next <= end / 4096
      ensures WiredSoFar(img, own, Image(), pmm.own, Root(), zone.id, start / 4096, next, pte)
      ensures if ok then next == end / 4096 else next < end / 4096 && |FreePages(pmm.own)| <= 1
    {
      hide TablesOk, TreesOk, DataOk, BitmapOk, Translation, FreshPage, CoveredBy, Coverage, WiredLedger, FramesKept;
      hide Partitioned, ListOk, Sorted, PageAligned, Ring, SlotsLive, GrowsTree, TakesFree;
      var a: nat := start;
      next := start / 4096;
      while a < end
        invariant start / 4096 <= next <= end / 4096 && a == next * 4096
        invariant Valid() && pmm.bitmap == old(pmm.bitmap)
        invariant WiredSoFar(img, own, Image(), pmm.own, Root(), zone.id, start / 4096, next, pte)
      {
        ghost var img1, own1 := Image(), pmm.own;
        assert Translation(img, Root(), next) == None;
        label before:
        ok := MapFreshPage(a, pte);
        CoverageMore(own1, pmm.own, Root(), Contents(), ok, next);
        ZonePagesUntouched(img1, own1, Image(), pmm.own, pmm.bitmap, Root(), ok, next, zone.id);
        zone.Kept@before();
        WiredMore(img, own, img1, own1, Image(), pmm.own, pmm.bitmap, Root(), zone.id, start / 4096, next, pte, ok);
        if !ok {
          return;
        }
        a := a + 4096;
        next := next + 1;
      }
      ok := true;
    }

    /** What a call that fails for lack of memory leaves behind: nothing but table pages and zone
        pages taken from the free set. */
    twostate predicate RolledBackTo()
      reads this, header, nodes, zone, pmap, pmm, pmm.mem.frame
    {
      && nodes == old(nodes)
      && (forall r :: IsRoot(old(pmm.own), r) ==> SameTranslations(old(Image()), Image(), r))
      && Overhead(old(pmm.own), pmm.own, Root(), zone.id)
      && FramesKept(old(Image()), old(pmm.own), Image())
    }

    /** vm_map_remove after the wired loop failed at page `next`: only the new entry goes. */
    method Rollback(start: Word, end: Word, ghost was: seq<Entry>, ghost k: nat, ghost ne: Entry, ghost next: nat,
                    ghost pte: Word, ghost img: Image, ghost own: Ledger)
      requires Valid() && start % 4096 == 0 && end % 4096 == 0 && start < end < LOWER_END
      requires k <= |was| && nodes == was[..k] + [ne] + was[k..] && ne.start == start && ne.end == end
      requires forall i :: 0 <= i < |was| ==> !was[i].Contents().Overlaps(start, end)
      requires WiredSoFar(img, own, Image(), pmm.own, Root(), zone.id, start / 4096, next, pte)
      requires start / 4096 <= next < end / 4096 && |FreePages(pmm.own)| <= 1
      requires forall v: nat :: start / 4096 <= v < end / 4096 ==> Translation(img, Root(), v) == None
      requires forall p :: 0 <= p < |own| && IsData(own, Root(), p) ==>
                 !(start / 4096 <= own[p].vpn < end / 4096)
      requires IsRoot(own, Root()) && BitmapOk(img, own, pmm.bitmap)
      modifies this`nodes, this`nentries, header, Elements(nodes), zone, pmm, pmm.mem.frame
      ensures Valid() && pmm.bitmap == old(pmm.bitmap) && nodes == was && Foreign() == old(Foreign())
      ensures SameTranslations(img, Image(), Root()) && OthersSame(img, own, Image(), Root())
      ensures Overhead(own, pmm.own, Root(), zone.id) && FramesKept(img, own, Image())
      ensures |FreePages(pmm.own)| <= end / 4096 - start / 4096
    {
      hide TablesOk, TreesOk, DataOk, BitmapOk, Translation, FreshPage, CoveredBy, Coverage, Partitioned, ListOk;
      hide FreePages, MappingsOk, IsRoot, Overhead;
      hide Sorted, Ring, SlotsLive, GrowsTree, WiredSoFar, Unmapped, Visited, OthersSame, FramesKept, NoStray;
      hide Zone.Valid, SameTranslations, NodeAt, InTree, KeepNodes, FreshPage, TakesFree, ZoneStep;
      ghost var img2, own2, infos := Image(), pmm.own, Contents();
      InsertThenKeep(was, k, ne);
      OnlyNewOverlaps(was, k, ne);
      OnlyOwnPagesVisited(infos, k, start, end);
      UncutRangeHasNoStray(own2, Root(), infos, start, end);
      assert (start + (end - start)) % U64 == end;
      var kr := Remove(start, end - start);
      FewFree(img, own, img2, own2, Image(), pmm.own, pmm.bitmap, Root(), zone.id, infos, start, end, next, pte);
      RolledBack(img, own, img2, own2, Image(), pmm.own, pmm.bitmap, Root(), zone.id, infos, start, end, next, pte);
    }

    /** Why vm_map_enter may find no space where no entry overlaps: the entry zone has no element and
        cannot grow, or a wired range leaves, after its roll-back, no more pages free than it asked
        for. */
    ghost predicate OutOfMemory(start: nat, end: nat, flags: nat)
      reads zone, zone.pmm, pmm
    {
      zone.Exhausted() || (flags % 2 == 1 && |FreePages(pmm.own)| <= end / 4096 - start / 4096)
    }

    /** vm_map_enter for a range that passed the argument and overlap checks. */
    method EnterFree(start: Word, end: Word, prot: nat, max_prot: nat, flags: nat) returns (kr: nat, ghost k: nat)
      requires Valid() && min_offset <= start < end <= max_offset && start % 4096 == 0 && end % 4096 == 0
      requires forall i :: 0 <= i < |nodes| ==> !nodes[i].Contents().Overlaps(start, end)
      modifies this`nodes, this`nentries, header, Elements(nodes), zone, pmm, pmm.mem.frame
      ensures Valid() && pmm.bitmap == old(pmm.bitmap) && (kr == KERN_SUCCESS || kr == KERN_NO_SPACE)
      ensures Foreign() == old(Foreign())
      ensures kr == KERN_NO_SPACE ==> RolledBackTo() && OutOfMemory(start, end, flags)
      ensures kr == KERN_SUCCESS ==>
                && k <= |old(nodes)|
                && Contents() == old(Contents())[..k] + [Info(start, end, prot, max_prot, flags)] + old(Contents())[k..]
                && WiredSoFar(old(Image()), old(pmm.own), Image(), pmm.own, Root(), zone.id, start / 4096,
                              if Wired(flags) then end / 4096 else start / 4096, ProtToPte(prot))
      ensures forall e :: e in nodes ==> e in old(nodes) || fresh(e)
    {
      hide TablesOk, TreesOk, DataOk, BitmapOk, Translation, FreshPage, CoveredBy, Coverage, Partitioned, ListOk;
      hide Sorted, PageAligned, Ring, SlotsLive, GrowsTree, WiredPages, WiredLedger, OthersSame, FramesKept;
      ghost var img, own, bm, root := Image(), pmm.own, pmm.bitmap, Root();
      ghost var was := nodes;
      LedgerFits(img, own, bm);
      EnterGap(img, own, root, Contents(), start, end);
      var ne;
      ne, k := NewEntry(start, end, prot, max_prot, flags);
      WiredNone(img, own, Image(), pmm.own, bm, root, zone.id, start / 4096, ProtToPte(prot));
      if ne == null {
        NothingWired(img, own, Image(), pmm.own, root, zone.id, start / 4096, ProtToPte(prot));
        AllSame(img, own, Image(), root);
        return KERN_NO_SPACE, k;
      }
      InfosInsert(was, k, ne);
      if Wired(flags) {
        OwnPagesCovered(was, k, ne);
        var ok, next := WirePages(start, end, ProtToPte(prot), img, own);
        if !ok {
          Rollback(start, end, was, k, ne, next, ProtToPte(prot), img, own);
          AllSame(img, own, Image(), root);
          return KERN_NO_SPACE, k;
        }
      }
      return KERN_SUCCESS, k;
    }

    lemma EnterBounds(start: nat, end: nat)
      requires Valid() && start < end <= max_offset
      ensures end < LOWER_END && (Overlapping(Contents(), start, end) <==> Taken(Contents(), start, end))
      ensures Overlapping(Contents(), start, end) <==> exists i :: 0 <= i < |nodes| && nodes[i].Contents().Overlaps(start, end)
    {
      OverlappingIsTaken(Contents(), min_offset, max_offset, start, end);
    }

    lemma PagesBetween(start: nat, end: nat)
      requires start % 4096 == 0 && end % 4096 == 0
      ensures forall v: nat :: start / 4096 <= v < end / 4096 <==> start <= v * 4096 < end
    {}

    /** vm_map_enter, for a page-aligned range. */
    method Enter(start: Word, size: Word, prot: nat, max_prot: nat, flags: nat) returns (kr: nat, ghost k: nat)
      requires Valid() && start % 4096 == 0 && size % 4096 == 0
      modifies this`nodes, this`nentries, header, Elements(nodes), zone, pmm, pmm.mem.frame
      ensures Valid() && pmm.bitmap == old(pmm.bitmap) && Foreign() == old(Foreign())
      ensures kr == KERN_SUCCESS || kr == KERN_NO_SPACE || kr == KERN_INVALID_ARGUMENT
      ensures kr == KERN_INVALID_ARGUMENT <==> BadRange(start, size)
      ensures !BadRange(start, size) && Overlapping(old(Contents()), start, (start + size) % U64) ==>
                kr == KERN_NO_SPACE && Image() == old(Image()) && pmm.own == old(pmm.own)
      ensures kr != KERN_SUCCESS ==> RolledBackTo()
      ensures kr == KERN_NO_SPACE && !Overlapping(old(Contents()), start, start + size) ==>
                OutOfMemory(start, start + size, flags)
      ensures kr == KERN_SUCCESS ==>
                && k <= |old(nodes)| && !Overlapping(old(Contents()), start, start + size)
                && start + size < U64
                && Contents() == old(Contents())[..k] + [Info(start, start + size, prot, max_prot, flags)] + old(Contents())[k..]
                && WiredSoFar(old(Image()), old(pmm.own), Image(), pmm.own, Root(), zone.id, start / 4096,
                              if Wired(flags) then (start + size) / 4096 else start / 4096, ProtToPte(prot))
      ensures forall e :: e in nodes ==> e in old(nodes) || fresh(e)
      ensures kr == 4 <==>
                var end := (start + size) % 0x1_0000_0000_0000_0000;
                size == 0 || start < min_offset || end > max_offset || end < start
      ensures kr != 4 && Taken(old(Contents()), start, start + size) ==> kr == 3
      ensures kr == 3 ==> Taken(old(Contents()), start, start + size) || OutOfMemory(start, start + size, flags)
      ensures kr == 0 && flags % 2 == 1 ==>
                forall v: nat :: start <= v * 4096 < start + size ==> LeafRights(Image(), Root(), v, prot)
      ensures kr == 0 ==> forall v: nat :: v < 0x8_0000_0000 && !(flags % 2 == 1 && start <= v * 4096 < start + size) ==>
                Translation(Image(), Root(), v) == Translation(old(Image()), Root(), v)
    {
      hide TablesOk, TreesOk, DataOk, MappingsOk, BitmapOk, Partitioned, ListOk, Sorted, PageAligned, Coverage;
      hide Ring, SlotsLive, WiredSoFar;
      hide Translation, LeafRights, Infos, Overlapping, Taken, ProtToPte;
      ghost var img, own := Image(), pmm.own;
      k := 0;
      if size == 0 || start < min_offset {
        return KERN_INVALID_ARGUMENT, k;
      }
      var end := (start + size) % U64;
      if end > max_offset || end < start {
        return KERN_INVALID_ARGUMENT, k;
      }
      EndIsSum(start, size);
      EnterBounds(start, end);
      var found := FindOverlap(start, end);
      if found {
        return KERN_NO_SPACE, k;
      }
      kr, k := EnterFree(start, end, prot, max_prot, flags);
      if kr == KERN_SUCCESS {
        WiredRights(img, own, Image(), pmm.own, Root(), zone.id, start / 4096,
                    if flags % 2 == 1 then end / 4096 else start / 4096, prot);
        PagesBetween(start, end);
      }
    }

    /** A map whose own objects, root, frames and entry elements were left alone is still valid. */
    twostate lemma Untroubled()
      requires old(Valid()) && unchanged(this) && unchanged(header) && unchanged(nodes) && unchanged(pmap)
      requires pmm.Valid() && TreesOk(Image(), pmm.own) && MappingsOk(Image(), pmm.own) && zone.Valid()
      requires IsRoot(pmm.own, Root()) && |pmm.own| == old(|pmm.own|)
      requires forall p :: 0 <= p < |pmm.own| && IsData(pmm.own, Root(), p) ==> pmm.own[p] == old(pmm.own[p])
      requires SlotSet(nodes, pmm.mem.hhdm) <= zone.live
      ensures Valid()
    {
      hide TablesOk, DataOk, BitmapOk, Partitioned, ListOk, Sorted, PageAligned, NodeAt;
      SlotsStillLive(nodes, pmm.mem.hhdm, old(zone.live), zone.live);
      CoverageSame(old(pmm.own), pmm.own, Root(), Contents());
    }
  }

  /** The entries a removal starts from, and its range. */
  datatype Dropping = Dropping(all: seq<Entry>, lo: nat, hi: nat)
}
