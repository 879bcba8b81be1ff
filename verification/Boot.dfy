/** From power-on to running address spaces: the calls of main.c and kern/exec.c that set the memory
    stack up, and a state it reaches in which removing part of an entry leaves the map broken. */
module Boot {
  import opened Words
  import opened KernReturn
  import opened PhysMem
  import opened Pmm
  import opened PageTable
  import opened Pmap
  import opened Mappings
  import opened Zalloc
  import opened VmList
  import opened VmUnmap
  import opened VmWire
  import opened VmMap
  import opened Lifecycle
  import opened Ownership

  const ENTRY_SIZE: nat := 48                    // sizeof(struct vm_map_entry)
  const USER_MAP_MIN: Word := 0x1000
  const USER_MAP_MAX: Word := 0x7fff_ffff_ffff

  /** The page tables the boot loader left the kernel running on: `tables` names them, outside usable
      memory, and the upper half of the PML4 `kern` leads to no other. */
  ghost predicate KernelTables(img: Image, map_: seq<Region>, kern: nat, tables: map<nat, Owner>)
  {
    && kern in tables
    && (forall p :: p in tables ==>
          0 < p < MAX_PAGES && !Usable(map_, p) && tables[p].Kernel? && (tables[p] == Kernel(4, 0) <==> p == kern))
    && UpperOk(img, KernelOnly(tables), kern)
  }

  /** The ledger that knows only the kernel's tables. */
  ghost function KernelOnly(tables: map<nat, Owner>): (own: Ledger)
    ensures |own| == MAX_PAGES && forall p :: 0 <= p < MAX_PAGES ==> own[p] == if p in tables then tables[p] else Reserved
  {
    seq(MAX_PAGES, p requires 0 <= p < MAX_PAGES => if p in tables then tables[p] else Reserved)
  }

  /** Such tables exist, with large pages in them: here slot 511 of page 1 links page 2, whose entries
      are absent or large. */
  lemma KernelTablesExist(img: Image, map_: seq<Region>)
    requires MAX_PAGES <= |img| && !Usable(map_, 1) && !Usable(map_, 2)
    requires Present(img[1][511]) && Frame(img[1][511]) == 2
    requires forall i :: 256 <= i < 511 ==> !Present(img[1][i])
    requires forall i :: 0 <= i < 512 && Present(img[2][i]) ==> Huge(img[2][i])
    ensures KernelTables(img, map_, 1, map[1 := Kernel(4, 0), 2 := Kernel(3, 511)])
  {
    forall level, idx | Upper(level, idx)
      ensures PathAt(img, 1, level, idx) == if level == 3 && idx == 511 then Some(2) else None
    {
      OneKernelTable(img, level, idx);
    }
  }

  lemma {:induction false} OneKernelTable(img: Image, level: nat, idx: nat)
    requires 2 < |img| && Present(img[1][511]) && Frame(img[1][511]) == 2 && Upper(level, idx)
    requires forall i :: 256 <= i < 511 ==> !Present(img[1][i])
    requires forall i :: 0 <= i < 512 && Present(img[2][i]) ==> Huge(img[2][i])
    ensures PathAt(img, 1, level, idx) == if level == 3 && idx == 511 then Some(2) else None
    decreases 4 - level
  {
    if level < 3 {
      OneKernelTable(img, level + 1, idx / 512);
    } else {
      assert idx / 512 == 0 && idx % 512 == idx && PathAt(img, 1, 4, 0) == Some(1);
    }
  }

  /** In such tables the walk to an address that a large page maps takes that page for a page table. */
  lemma LargePageWalked(img: Image, i: nat)
    requires 2 < |img| && i < 512 && Present(img[1][511]) && Frame(img[1][511]) == 2
    requires Present(img[2][i]) && Huge(img[2][i])
    ensures TableAt(img, 1, 2, 511 * 512 + i) == Some(Frame(img[2][i])) && PathAt(img, 1, 2, 511 * 512 + i) == None
    ensures LargeOnPath(img, 1, 2, 511 * 512 + i)
  {
    var idx := 511 * 512 + i;
    assert idx / 512 == 511 && idx % 512 == i;
    assert TableAt(img, 1, 4, 0) == Some(1) && TableAt(img, 1, 3, 511) == Some(2);
    LargePageTakenForTable(img, 1, 2, idx);
  }

  /** Right after pmm_init the kernel's tables are the only ones, and nothing is mapped. */
  lemma BootTrees(img0: Image, map_: seq<Region>, kern: nat, tables: map<nat, Owner>,
                  img: Image, own0: Ledger, bm: nat, kstart: nat, kend: nat)
    requires KernelTables(img0, map_, kern, tables) && AtBoot(own0, map_, bm, kstart, kend)
    requires SameOutside(img0, img, bm) && FirstSpot(map_, bm)
    ensures forall p :: p in tables ==> p < |own0| && own0[p].Reserved? && !(bm <= p < bm + BITMAP_PAGES)
    ensures var own := WithTables(own0, tables);
            && TreesOk(img, own) && MappingsOk(img, own) && own[kern] == Kernel(4, 0)
            && forall p :: 0 <= p < |own| ==> !own[p].ZonePage?
  {
    hide Usable, FirstSpot, Stepped, TablesOk, DataOk;
    forall p | bm <= p < bm + BITMAP_PAGES ensures Usable(map_, p) { SpotIsUsable(map_, bm, p); }
    var own := WithTables(own0, tables);
    forall p | p in tables ensures !(bm <= p < bm + BITMAP_PAGES) && own0[p].Reserved? && img[p] == img0[p] {
      assert !Usable(map_, p) && |KernelOnly(tables)| <= |img0|;
    }
    UpperFrame(img0, KernelOnly(tables), img, own, kern, kern);
  }

  lemma SpotIsUsable(map_: seq<Region>, bm: nat, p: nat)
    requires FirstSpot(map_, bm) && bm <= p < bm + BITMAP_PAGES
    ensures Usable(map_, p)
  {
    var i :| 0 <= i < |map_| && BitmapSpot(map_[i]) == bm;
    assert map_[i].Covers(p);
  }

  lemma PlaceFound(map_: seq<Region>, bm: nat)
    requires BitmapAt(map_, bm)
    ensures !NoPlace(map_)
  {}

  lemma FreeBeside(own: Ledger, tables: map<nat, Owner>, map_: seq<Region>, bm: nat, kstart: nat, kend: nat)
    requires FreeInBytes(own, map_, bm, kstart, kend)
    ensures (forall p :: p in tables ==> p < |own| && own[p].Reserved? && tables[p].Kernel?) ==>
              FreeInBytes(WithTables(own, tables), map_, bm, kstart, kend)
  {
    hide Whole;
  }

  /** pmm_init, pmap_init and vm_map_init: fails only when no region has room for the bitmap. */
  method Start(mem: Memory, map_: seq<Region>, kstart: nat, kend: nat, kern: nat, ghost tables: map<nat, Owner>)
    returns (s: Spaces?)
    requires MemoryMap(map_, mem.frame.Length) && MAX_PAGES <= mem.frame.Length
    requires mem.hhdm + mem.frame.Length * 4096 <= U64
    requires KernelTables(mem.Image(), map_, kern, tables)
    modifies mem.frame
    ensures s == null <==> NoPlace(map_)
    ensures s != null ==> fresh(s) && fresh(s.pmm) && fresh(s.zone) && s.pmm.mem == mem && s.maps == [] && s.Ready(kern)
    ensures s != null ==> BitmapAt(map_, s.pmm.bitmap) && FreeInBytes(s.pmm.own, map_, s.pmm.bitmap, kstart, kend)
    ensures s != null ==> s.zone.elem_size == 48 && s.zone.max_size == 0
  {
    hide TreesOk, MappingsOk, BitmapOk, UpperOk, Usable, FreeAtBoot, Stepped, Partitioned, ListOk, FreePages;
    hide BitmapAt, NoPlace, FreeInBytes;
    var pmm := new PageAllocator(mem);
    ghost var img0 := mem.Image();
    pmm.Init(map_, kstart, kend);
    if pmm.bitmap == 0 {
      return null;
    }
    PlaceFound(map_, pmm.bitmap);
    FreeBeside(pmm.own, tables, map_, pmm.bitmap, kstart, kend);
    BootTrees(img0, map_, kern, tables, mem.Image(), pmm.own, pmm.bitmap, kstart, kend);
    pmm.AdoptKernelTables(tables);
    var zone := new Zone(pmm, 0, ENTRY_SIZE, 0);
    s := new Spaces(pmm, zone, []);
  }

  /** Taking a page for a root and one for the descriptor leaves every map as it was. */
  twostate lemma MapsKept(s: Spaces)
    requires old(s.Valid() && s.zone.Valid()) && s.zone.Valid() && unchanged(s.zone)
    requires forall i :: 0 <= i < |s.maps| ==> LeftAlone(s.maps[i])
    requires s.pmm.Valid() && TreesOk(s.pmm.mem.Image(), s.pmm.own) && MappingsOk(s.pmm.mem.Image(), s.pmm.own)
    requires |s.pmm.own| == old(|s.pmm.own|)
    requires forall p :: 0 <= p < |s.pmm.own| && (old(s.pmm.own[p].Table? || s.pmm.own[p].Data?) || s.pmm.own[p].Data?) ==>
               s.pmm.own[p] == old(s.pmm.own[p])
    ensures s.Valid()
  {
    hide TablesOk, DataOk, TreesOk, MappingsOk, BitmapOk, Translation, Partitioned, ListOk, Ring, Sorted, PageAligned, Coverage;
    forall i | 0 <= i < |s.maps| ensures s.maps[i].Valid() {
      var m := s.maps[i];
      assert old(m.Valid()) && m.pmm == s.pmm && m.zone == s.zone && LeftAlone(m);
      SlotsAreLive(m.nodes, s.pmm.mem.hhdm, s.zone.live);
      m.Untroubled();
    }
    forall i, j | 0 <= i < j < |s.maps| ensures Apart(s.maps[i], s.maps[j]) {
      assert LeftAlone(s.maps[i]) && LeftAlone(s.maps[j]) && old(Apart(s.maps[i], s.maps[j]));
    }
  }

  /** Taking two pages leaves the entry zone as it was. */
  twostate lemma ZoneLeftAlone(z: Zone)
    requires old(z.Valid()) && unchanged(z) && z.pmm.Valid() && z.pmm.bitmap == old(z.pmm.bitmap)
    requires |z.pmm.own| == old(|z.pmm.own|)
    requires forall p :: 0 <= p < |z.pmm.own| ==>
               z.pmm.own[p] == old(z.pmm.own[p]) || (old(z.pmm.own[p].Free?) && !z.pmm.own[p].ZonePage?)
    requires OnlyFreeWritten(old(z.pmm.mem.Image()), old(z.pmm.own), z.pmm.mem.Image(), z.pmm.bitmap)
    ensures z.Valid()
  {
    hide Partitioned, ListOk, Used;
    LedgerFits(z.pmm.mem.Image(), z.pmm.own, z.pmm.bitmap);
    z.Kept();
  }

  lemma NothingMapped(img: Image, own: Ledger, root: nat)
    requires MappingsOk(img, own) && IsRoot(own, root)
    requires forall vpn :: 0 <= vpn < LOWER_PAGES ==> Translation(img, root, vpn) == None
    ensures forall p :: 0 <= p < |own| ==> !IsData(own, root, p)
  {
    assert DataOk(img, own, root);
  }

  /** A map with a new header, a new page table and no entry joins a system. */
  method Join(s: Spaces, kern: nat, m: Map) returns (s': Spaces)
    requires s.Ready(kern) && m.Valid() && m.pmm == s.pmm && m.zone == s.zone && m.nodes == []
    requires forall i :: 0 <= i < |s.maps| ==> NewTo(m, s.maps[i])
    ensures fresh(s') && s'.Ready(kern) && s'.pmm == s.pmm && s'.zone == s.zone && s'.maps == s.maps + [m]
  {
    hide Map.Valid, TreesOk, MappingsOk, BitmapOk, Zone.Valid;
    s' := new Spaces(s.pmm, s.zone, s.maps + [m]);
  }

  /** `m` shares no object with `other`. */
  ghost predicate NewTo(m: Map, other: Map)
    reads m, other, m.pmap, other.pmap
  {
    && other != m && other.header != m.header && other.pmap != m.pmap && other.Root() != m.Root()
    && m.header !in other.nodes && other.header !in m.nodes
  }

  /** pmap_create and vm_map_create, as exec_load calls them: one more address space, or fewer than two
      pages free. */
  method NewSpace(s: Spaces, kern: nat, min: Word, max: Word) returns (s': Spaces?)
    requires s.Ready(kern) && max < LOWER_END
    modifies s.pmm`free_count, s.pmm`own, s.pmm.mem.frame
    ensures s.Ready(kern)
    ensures FixedKept(old(s.pmm.own), s.pmm.own)
    ensures s' == null ==> |FreePages(s.pmm.own)| <= 1
    ensures s' != null ==>
              && fresh(s') && s'.Ready(kern) && s'.pmm == s.pmm && s'.zone == s.zone
              && |s'.maps| == |s.maps| + 1 && s'.maps[..|s.maps|] == s.maps
              && var m := s'.maps[|s.maps|];
                 fresh(m) && fresh(m.header) && m.nodes == [] && m.min_offset == min && m.max_offset == max
  {
    hide TablesOk, DataOk, TreesOk, MappingsOk, BitmapOk, Translation, Partitioned, ListOk, Ring, Sorted, SlotsLive;
    hide PageAligned, Coverage, FreePages, OnlyFreeWritten;
    var p, desc := CreateAddressSpace(s.pmm, kern);
    ZoneLeftAlone(s.zone);
    MapsKept(s);
    if p == null {
      return null;
    }
    NothingMapped(s.pmm.mem.Image(), s.pmm.own, p.Root());
    var m := new Map(s.pmm, s.zone, p, min, max);
    s' := Join(s, kern, m);
  }

  /** main.c up to the idle loop, then `n` user address spaces or as many as memory has room for: every
      state `Spaces.Run` starts from. */
  method BootWith(mem: Memory, map_: seq<Region>, kstart: nat, kend: nat, kern: nat, ghost tables: map<nat, Owner>, n: nat)
    returns (s: Spaces?)
    requires MemoryMap(map_, mem.frame.Length) && MAX_PAGES <= mem.frame.Length
    requires mem.hhdm + mem.frame.Length * 4096 <= U64
    requires KernelTables(mem.Image(), map_, kern, tables)
    modifies mem.frame
    ensures s == null <==> NoPlace(map_)
    ensures s != null ==>
              && fresh(s) && fresh(s.pmm) && s.pmm.mem == mem && s.Ready(kern)
              && |s.maps| <= n && (|s.maps| < n ==> |FreePages(s.pmm.own)| <= 1)
  {
    hide Spaces.Ready, KernelTables, FreePages, NoPlace;
    s := Start(mem, map_, kstart, kend, kern, tables);
    if s == null {
      return;
    }
    var k := 0;
    while k < n
      invariant 0 <= k <= n && s != null && fresh(s) && fresh(s.pmm) && s.pmm.mem == mem && s.Ready(kern) && |s.maps| == k
    {
      var s' := NewSpace(s, kern, USER_MAP_MIN, USER_MAP_MAX);
      if s' == null {
        return;
      }
      s := s';
      k := k + 1;
    }
  }

  /** What happens after boot: exec_load makes an address space, or somebody works on one. */
  datatype Happening = Create | Call(i: nat, op: Op)

  /** All objects of the system have been created since. */
  twostate predicate AllNew(new s: Spaces)
    reads s, s.maps
  {
    && fresh(s) && fresh(s.pmm) && fresh(s.zone)
    && forall j :: 0 <= j < |s.maps| ==>
         fresh(s.maps[j]) && fresh(s.maps[j].header) && forall e :: e in s.maps[j].nodes ==> fresh(e)
  }

  /** One happening: the system is ready for the next, and pages that are neither free nor mapped stay
      what they are. */
  method Happen(s: Spaces, kern: nat, h: Happening) returns (s': Spaces)
    requires s.Ready(kern)
    modifies s.pmm, s.pmm.mem.frame, s.zone, if h.Call? && h.i < |s.maps| then Touched(s.maps[h.i]) else {}
    ensures s'.Ready(kern) && s'.pmm == s.pmm && s'.zone == s.zone && FixedKept(old(s.pmm.own), s.pmm.own)
    ensures s' == s || fresh(s')
    ensures s.maps <= s'.maps
    ensures forall j :: 0 <= j < |s.maps| ==> forall e :: e in s.maps[j].nodes ==> e in old(s.maps[j].nodes) || fresh(e)
    ensures forall j :: |s.maps| <= j < |s'.maps| ==>
              && fresh(s'.maps[j]) && fresh(s'.maps[j].header) && s'.maps[j].nodes == []
              && s'.maps[j].min_offset == 0x1000 && s'.maps[j].max_offset == 0x7fff_ffff_ffff
  {
    hide Spaces.Ready, Allowed, Guard;
    s' := s;
    match h {
      case Create =>
        var more := NewSpace(s, kern, USER_MAP_MIN, USER_MAP_MAX);
        if more != null {
          s' := more;
        }
      case Call(i, op) =>
        if i < |s.maps| {
          var done := s.Attempt(i, op, kern);
        }
    }
  }

  ghost function Touched(m: Map): set<object>
    reads m
  {
    {m, m.header} + Elements(m.nodes)
  }

  /** Power-on and any script of new address spaces and calls on any of those there are by then: the system
      is consistent throughout, so every reachable state gives each page exactly one owner. */
  method Live(mem: Memory, map_: seq<Region>, kstart: nat, kend: nat, kern: nat, ghost tables: map<nat, Owner>,
              script: seq<Happening>)
    returns (s: Spaces?)
    requires MemoryMap(map_, mem.frame.Length) && MAX_PAGES <= mem.frame.Length
    requires mem.hhdm + mem.frame.Length * 4096 <= U64
    requires KernelTables(mem.Image(), map_, kern, tables)
    modifies mem.frame
    ensures s == null <==> NoPlace(map_)
    ensures s != null ==> AllNew(s) && s.pmm.mem == mem && s.Ready(kern)
  {
    hide Spaces.Ready, KernelTables, NoPlace;
    s := Start(mem, map_, kstart, kend, kern, tables);
    if s == null {
      return;
    }
    var k := 0;
    while k < |script|
      invariant s != null && AllNew(s) && s.pmm.mem == mem && s.Ready(kern)
    {
      s := Happen(s, kern, script[k]);
      k := k + 1;
    }
  }

  lemma SecondPageStrays(img: Image, img': Image, own: Ledger, root: nat, infos: seq<Info>, a: nat)
    requires a % 4096 == 0 && a + 0x2000 <= LOWER_END && infos == [Info(a, a + 0x2000, 3, 3, 1)]
    requires MappingsOk(img', own) && IsRoot(own, root)
    requires WiredPages(img, img', root, a / 4096, (a + 0x2000) / 4096, ProtToPte(3))
    ensures Translation(img', root, a / 4096 + 1).Some? && !NoStray(own, root, infos, a, a + 0x1000)
    ensures (a + 0x1000) % U64 == a + 0x1000
  {
    hide MappingsOk, Translation, NoStray;
    assert FreshPage(img', root, a / 4096 + 1, ProtToPte(3));
    CutEntryLeavesStray(img', own, root, infos, 0, a / 4096 + 1, a, a + 0x1000);
  }

  lemma MapFacts(m: Map)
    requires m.Valid()
    ensures m.max_offset < LOWER_END && MappingsOk(m.Image(), m.pmm.own) && IsRoot(m.pmm.own, m.Root())
    ensures m.nodes == [] ==> m.Contents() == []
  {}

  lemma SumFits(a: nat)
    requires a + 0x2000 <= LOWER_END
    ensures (a + 0x2000) % U64 == a + 0x2000
  {}

  /** vm_map_enter of two wired pages at `a` into an empty map. */
  method EnterTwo(m: Map, a: Word) returns (ok: bool)
    requires m.Valid() && m.nodes == [] && a % 4096 == 0 && m.min_offset <= a && a + 0x2000 <= m.max_offset
    modifies m, m.header, m.zone, m.pmm, m.pmm.mem.frame
    ensures m.Valid() && forall e :: e in m.nodes ==> fresh(e)
    ensures ok ==> m.Contents() == [Info(a, a + 0x2000, 3, 3, 1)]
    ensures ok ==> WiredPages(old(m.Image()), m.Image(), m.Root(), a / 4096, (a + 0x2000) / 4096, ProtToPte(3))
    ensures !ok ==> m.OutOfMemory(a, a + 0x2000, 1)
  {
    hide TablesOk, DataOk, TreesOk, MappingsOk, BitmapOk, Translation, Partitioned, ListOk, Ring, Sorted, SlotsLive;
    hide PageAligned, Coverage, OthersSame, WiredLedger, FramesKept, Map.Valid, Overhead, FreePages, Zone.Exhausted;
    hide WiredPages, Infos, Map.OutOfMemory, Map.RolledBackTo;
    MapFacts(m);
    assert !Overlapping(m.Contents(), a, a + 0x2000);
    SumFits(a);
    assert !m.BadRange(a, 0x2000);
    var kr, k := m.Enter(a, 0x2000, 3, 3, 1);
    ok := kr == KERN_SUCCESS;
  }

  /** A two-page entry of an empty map is filled, then its first page removed: the map is left with a
      mapped page that no entry covers.  This happens in every map with room for two pages, unless
      memory runs out before. */
  method CutEntry(m: Map, a: Word) returns (cut: bool)
    requires m.Valid() && m.nodes == [] && a % 4096 == 0 && m.min_offset <= a && a + 0x2000 <= m.max_offset
    modifies m, m.header, m.zone, m.pmm, m.pmm.mem.frame
    ensures if cut then !m.Valid() && m.Sound() && m.nodes == [] && Translation(m.Image(), m.Root(), a / 4096 + 1).Some?
            else m.Valid() && m.OutOfMemory(a, a + 0x2000, 1)
  {
    hide TablesOk, DataOk, TreesOk, MappingsOk, BitmapOk, Translation, Partitioned, ListOk, Ring, Sorted, SlotsLive;
    hide PageAligned, Coverage, OthersSame, FreePages, Zone.Exhausted, NoStray, WiredPages, Map.Valid, Map.Sound, Infos;
    hide Map.OutOfMemory;
    MapFacts(m);
    ghost var img := m.Image();
    cut := EnterTwo(m, a);
    if cut {
      MapFacts(m);
      SecondPageStrays(img, m.Image(), m.pmm.own, m.Root(), m.Contents(), a);
      ghost var all, img1 := m.nodes, m.Image();
      var kr := m.Remove(a, 0x1000);
      OneEntryDropped(all, img1, m.Image(), m.Root(), a);
    }
  }

  /** Removing the first page of a lone two-page entry keeps the mapping of the second. */
  lemma OneEntryDropped(all: seq<Entry>, img: Image, img': Image, root: nat, a: nat)
    requires a % 4096 == 0 && a + 0x2000 <= LOWER_END && Infos(all) == [Info(a, a + 0x2000, 3, 3, 1)]
    requires forall v {:trigger Translation(img', root, v)} :: 0 <= v < LOWER_PAGES ==>
               Translation(img', root, v) == if Visited(Infos(all), a, a + 0x1000, v) then None else Translation(img, root, v)
    ensures KeepNodes(all, a, a + 0x1000) == []
    ensures Translation(img', root, a / 4096 + 1) == Translation(img, root, a / 4096 + 1)
  {
    hide Translation;
    assert all == [all[0]] && all[0].Contents() == Infos(all)[0];
    assert !Visited(Infos(all), a, a + 0x1000, a / 4096 + 1);
  }
}
