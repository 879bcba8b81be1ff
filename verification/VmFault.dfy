/** vm/vm_fault.c: demand paging. */
module VmFault {
  import opened Words
  import opened PhysMem
  import opened Pmm
  import opened PageTable
  import opened Pmap
  import opened Mappings
  import opened Zalloc
  import opened VmList
  import opened VmUnmap
  import opened VmWire
  import opened VmMap

  const VM_FAULT_READ: nat := 0
  const VM_FAULT_WRITE: nat := 1
  const VM_FAULT_EXECUTE: nat := 2

  datatype FaultResult = Success | BadAddress | Protection | OutOfMemory

  /** The access is one the entry does not allow.  Reads are always allowed. */
  predicate Forbidden(prot: nat, faultType: nat)
  {
    (faultType == VM_FAULT_WRITE && !Writable(prot)) || (faultType == VM_FAULT_EXECUTE && !Executable(prot))
  }

  /** A faulting address inside an aligned entry has its whole page inside it. */
  lemma PageCovered(infos: seq<Info>, i: nat, addr: nat)
    requires i < |infos| && PageAligned(infos) && infos[i].Covers(addr)
    ensures CoveredBy(infos, addr / 4096)
  {
    assert infos[i].Covers(addr / 4096 * 4096);
  }

  /** The page-in step of vm_fault for an entry that allows the access. */
  method PageIn(map_: Map, page_addr: Word, prot: nat) returns (ok: bool)
    requires map_.Valid() && page_addr < LOWER_END
    requires Translation(map_.Image(), map_.Root(), page_addr / 4096) == None
    requires CoveredBy(map_.Contents(), page_addr / 4096)
    modifies map_.pmm, map_.pmm.mem.frame
    ensures map_.Valid() && map_.pmm.bitmap == old(map_.pmm.bitmap)
    ensures PagedIn(old(map_.Image()), old(map_.pmm.own), map_.Image(), map_.pmm.own, map_.Root(),
                    page_addr / 4096, ok, ProtToPte(prot))
    ensures !ok ==> |FreePages(map_.pmm.own)| <= 1
  {
    hide TablesOk, TreesOk, DataOk, BitmapOk, MappingsOk, Translation, FreshPage, Partitioned, ListOk, Ring, SlotsLive, Sorted;
    hide PageAligned, Coverage, CoveredBy, FramesKept, TakesFree, OthersSame, UsedKept;
    ghost var img, own, root, vpn := map_.Image(), map_.pmm.own, map_.Root(), page_addr / 4096;
    ok := map_.MapFreshPage(page_addr, ProtToPte(prot));
    CoverageMore(own, map_.pmm.own, root, map_.Contents(), ok, vpn);
    ZonePagesUntouched(img, own, map_.Image(), map_.pmm.own, map_.pmm.bitmap, root, ok, vpn, map_.zone.id);
    map_.zone.Kept();
    UsedFramesKept(img, own, map_.Image(), map_.pmm.bitmap, root);
  }

  /** One page has been mapped to a fresh zeroed frame, or nothing but table pages was taken. */
  ghost predicate PagedIn(img: Image, own: Ledger, img': Image, own': Ledger, root: nat, vpn: nat, ok: bool, pte: Word)
  {
    && OthersSame(img, own, img', root) && FramesKept(img, own, img') && TakesFree(own, own', root, ok, vpn)
    && (if ok then Remapped(img, img', root, vpn, Translation(img', root, vpn)) && FreshPage(img', root, vpn, pte)
        else SameTranslations(img, img', root))
  }

  /** What vm_fault answers for an unmapped page: `hit` is the entry that covers the address. */
  ghost predicate FaultAnswer(infos: seq<Info>, addr: Word, faultType: nat, r: FaultResult, hit: Option<Info>)
  {
    match hit
    case None => r == BadAddress && forall i :: 0 <= i < |infos| ==> !infos[i].Covers(addr)
    case Some(e) => e in infos && e.Covers(addr) && r != BadAddress && (r == Protection <==> Forbidden(e.prot, faultType))
  }

  /** The lookup half of vm_fault. */
  method FindEntry(map_: Map, addr: Word) returns (hit: Option<Info>)
    requires map_.Valid()
    ensures hit == None ==> forall i :: 0 <= i < |map_.Contents()| ==> !map_.Contents()[i].Covers(addr)
    ensures hit.Some? ==>
              && hit.value in map_.Contents() && hit.value.Covers(addr)
              && CoveredBy(map_.Contents(), addr / 4096)
  {
    hide TablesOk, TreesOk, DataOk, BitmapOk, MappingsOk, Partitioned, ListOk, Ring, SlotsLive, Sorted, Coverage;
    var e := map_.LookupEntry(addr);
    if e == null {
      return None;
    }
    ghost var i :| 0 <= i < |map_.nodes| && map_.nodes[i] == e;
    assert map_.Contents()[i] == e.Contents();
    PageCovered(map_.Contents(), i, addr);
    return Some(e.Contents());
  }

  /** An address that an entry covers is in the lower half. */
  lemma CoveredIsLow(m: Map, addr: Word, e: Info)
    requires m.Valid() && e in m.Contents() && e.Covers(addr)
    ensures addr < LOWER_END && Vpn(addr) == addr / 4096
  {
    hide TablesOk, TreesOk, MappingsOk, BitmapOk, Coverage, Partitioned, ListOk, SlotsLive, Ring, PageAligned, Vpn;
    var i :| 0 <= i < |m.Contents()| && m.Contents()[i] == e;
    assert m.Contents()[i].end <= m.max_offset < LOWER_END;
    VpnOf(addr);
  }

  lemma PagedRights(img': Image, root: nat, vpn: nat, prot: nat, img: Image, own: Ledger, own': Ledger)
    requires PagedIn(img, own, img', own', root, vpn, true, ProtToPte(prot))
    ensures LeafRights(img', root, vpn, prot)
  {
    FreshRights(img', root, vpn, prot);
  }

  lemma PageOf(addr: Word)
    ensures addr / 4096 * 4096 < U64 && Vpn(addr / 4096 * 4096) == Vpn(addr) && addr / 4096 * 4096 % 4096 == 0
  {}

  /** What pmap_query finds: something other than address zero. */
  predicate Found(tr: Option<Word>)
  {
    tr.Some? && Frame(tr.value) != 0
  }

  /** In the lower half that is any mapping. */
  lemma LowIsFound(m: Map, vpn: nat)
    requires m.Valid() && vpn < LOWER_PAGES
    ensures Found(Translation(m.Image(), m.Root(), vpn)) <==> Translation(m.Image(), m.Root(), vpn).Some?
  {
    MappedFrame(m.Image(), m.pmm.own, m.pmm.bitmap, m.Root(), vpn);
  }

  /** vm_fault, at any address whose walk stays in page tables. */
  method VmFault(map_: Map, addr: Word, faultType: nat) returns (r: FaultResult, ghost hit: Option<Info>)
    requires map_.Valid() && map_.pmap.Walkable(addr)
    modifies map_.pmm, map_.pmm.mem.frame
    ensures map_.Valid() && map_.pmm.bitmap == old(map_.pmm.bitmap)
    ensures if Found(Translation(old(map_.Image()), map_.Root(), Vpn(addr))) then r == Success
            else FaultAnswer(map_.Contents(), addr, faultType, r, hit)
    ensures !Found(Translation(old(map_.Image()), map_.Root(), Vpn(addr))) && (r == Success || r == OutOfMemory) ==>
              hit.Some? && PagedIn(old(map_.Image()), old(map_.pmm.own), map_.Image(), map_.pmm.own, map_.Root(),
                                   Vpn(addr), r == Success, ProtToPte(hit.value.prot))
    ensures r == OutOfMemory ==> |FreePages(map_.pmm.own)| <= 1
    ensures Found(Translation(old(map_.Image()), map_.Root(), Vpn(addr))) || r == BadAddress || r == Protection ==>
              map_.Image() == old(map_.Image()) && map_.pmm.own == old(map_.pmm.own)
    ensures hit.Some? ==> hit.value in map_.Contents() && hit.value.start <= addr < hit.value.end
    ensures r == BadAddress <==>
              && !Found(Translation(old(map_.Image()), map_.Root(), Vpn(addr)))
              && forall i :: 0 <= i < |map_.Contents()| ==> !(map_.Contents()[i].start <= addr < map_.Contents()[i].end)
    ensures r == Protection <==>
              hit.Some? && ((faultType == 1 && hit.value.prot / 2 % 2 == 0) || (faultType == 2 && hit.value.prot / 4 % 2 == 0))
    ensures hit.Some? && r == Success ==> LeafRights(map_.Image(), map_.Root(), addr / 4096, hit.value.prot)
  {
    hide TablesOk, TreesOk, DataOk, BitmapOk, Translation, Partitioned, ListOk, Ring, SlotsLive, PagedIn, Sorted, LeafRights;
    hide PageAligned, Coverage, CoveredBy, MappingsOk, Vpn, LargeOnPath;
    ghost var img, own := map_.Image(), map_.pmm.own;
    hit := None;
    PageOf(addr);
    var page_addr := addr / 4096 * 4096;
    var pa := map_.pmap.Query(page_addr);
    if pa != 0 {
      return Success, hit;
    }
    var e := FindEntry(map_, addr);
    hit := e;
    if e == None {
      return BadAddress, hit;
    }
    if faultType == VM_FAULT_WRITE && !Writable(e.value.prot) {
      return Protection, hit;
    }
    if faultType == VM_FAULT_EXECUTE && !Executable(e.value.prot) {
      return Protection, hit;
    }
    CoveredIsLow(map_, addr, e.value);
    VpnOf(addr);
    LowIsFound(map_, addr / 4096);
    var ok := PageIn(map_, page_addr, e.value.prot);
    if ok { PagedRights(map_.Image(), map_.Root(), addr / 4096, e.value.prot, img, own, map_.pmm.own); }
    r := if ok then Success else OutOfMemory;
  }

  /** At most one entry covers an address. */
  lemma OnlyCover(infos: seq<Info>, i: nat, addr: nat, lo: nat, hi: nat)
    requires i < |infos| && Sorted(infos, lo, hi) && infos[i].Covers(addr)
    ensures forall j :: 0 <= j < |infos| && infos[j].Covers(addr) ==> j == i
  {}
}
