/** The whole memory stack: many address spaces over one page allocator and one entry zone.  Every
    operation keeps each page with exactly one owner, and the ledger in agreement with the bitmap, the
    page-table trees, the leaf entries and the zones. */
module Ownership {
  import opened Words
  import opened PhysMem
  import opened Pmm
  import opened PageTable
  import opened Pmap
  import opened Mappings
  import opened Zalloc
  import opened VmList
  import opened VmUnmap
  import opened VmWire
  import opened VmMap
  import opened VmFault

  // ---- counting ----------------------------------------------------------------------------------

  /** The class of a page in the books: `id` is the entry zone. */
  function ClassOf(o: Owner, id: nat): nat
  {
    match o
    case Free => 0
    case Reserved => 1
    case Held => 2
    case Kernel(_, _) => 3
    case Table(_, _, _) => 4
    case Data(_, _) => 5
    case ZonePage(z) => if z == id then 6 else 7
  }

  ghost function PagesOf(own: Ledger, id: nat, class_: nat): set<nat>
  {
    set p | 0 <= p < |own| && ClassOf(own[p], id) == class_
  }

  lemma OnePageMore(own: Ledger, id: nat, class_: nat)
    requires own != []
    ensures |PagesOf(own, id, class_)| ==
            |PagesOf(own[..|own| - 1], id, class_)| + if ClassOf(own[|own| - 1], id) == class_ then 1 else 0
  {
    hide ClassOf;
    var n := |own| - 1;
    if ClassOf(own[n], id) == class_ {
      assert PagesOf(own, id, class_) == PagesOf(own[..n], id, class_) + {n};
    } else {
      assert PagesOf(own, id, class_) == PagesOf(own[..n], id, class_);
    }
  }

  lemma {:induction false} ClassesAddUp(own: Ledger, id: nat)
    ensures |PagesOf(own, id, 0)| + |PagesOf(own, id, 1)| + |PagesOf(own, id, 2)| + |PagesOf(own, id, 3)|
            + |PagesOf(own, id, 4)| + |PagesOf(own, id, 5)| + |PagesOf(own, id, 6)| + |PagesOf(own, id, 7)| == |own|
  {
    if own == [] {
      assert forall c: nat :: PagesOf(own, id, c) == {};
    } else {
      hide PagesOf;
      ClassesAddUp(own[..|own| - 1], id);
      OnePageMore(own, id, 0);
      OnePageMore(own, id, 1);
      OnePageMore(own, id, 2);
      OnePageMore(own, id, 3);
      OnePageMore(own, id, 4);
      OnePageMore(own, id, 5);
      OnePageMore(own, id, 6);
      OnePageMore(own, id, 7);
    }
  }

  /** The tables on all paths of all trees. */
  ghost function Tables(img: Image, own: Ledger): set<Owner>
  {
    set r: nat, level: nat, idx: nat | r < |own| && level < 5 && idx < Width(level) && IsRoot(own, r) && 1 <= level
      && TableAt(img, r, level, idx).Some? :: Owner.Table(r, level, idx)
  }

  /** The mapped pages of all address spaces. */
  ghost function Leaves(img: Image, own: Ledger): set<Owner>
  {
    set r: nat, v: nat | r < |own| && v < LOWER_PAGES && IsRoot(own, r) && Translation(img, r, v).Some? :: Data(r, v)
  }

  /** Pages that own different things of `names`, all of it, are as many as those things. */
  lemma {:induction false} OneToOne(own: Ledger, pages: set<nat>, names: set<Owner>)
    requires forall p :: p in pages ==> p < |own| && own[p] in names
    requires forall p, q :: p in pages && q in pages && own[p] == own[q] ==> p == q
    requires forall o :: o in names ==> exists p :: p in pages && own[p] == o
    ensures |pages| == |names|
    decreases pages
  {
    if pages == {} {
      assert names == {};
    } else {
      var p :| p in pages;
      OneToOne(own, pages - {p}, names - {own[p]});
    }
  }

  /** The table pages of the ledger are the tables of the trees. */
  lemma TablesCounted(img: Image, own: Ledger, id: nat)
    requires TreesOk(img, own)
    ensures |PagesOf(own, id, 4)| == |Tables(img, own)|
  {
    hide TableAt, UppersOk;
    forall p | p in PagesOf(own, id, 4)
      ensures own[p] in Tables(img, own) && TableAt(img, own[p].root, own[p].level, own[p].idx) == Some(p)
    {
      assert TablesOk(img, own, own[p].root) && IsTable(own, own[p].root, p);
    }
    forall o | o in Tables(img, own) ensures exists p :: p in PagesOf(own, id, 4) && own[p] == o {
      assert TablesOk(img, own, o.root);
      var p := TableAt(img, o.root, o.level, o.idx).value;
      assert OwnedAs(own, p, o) && p in PagesOf(own, id, 4);
    }
    OneToOne(own, PagesOf(own, id, 4), Tables(img, own));
  }

  /** The data pages of the ledger are the mapped pages. */
  lemma LeavesCounted(img: Image, own: Ledger, id: nat)
    requires MappingsOk(img, own)
    ensures |PagesOf(own, id, 5)| == |Leaves(img, own)|
  {
    hide Translation;
    forall p | p in PagesOf(own, id, 5)
      ensures own[p] in Leaves(img, own)
      ensures Translation(img, own[p].root, own[p].vpn).Some? && Frame(Translation(img, own[p].root, own[p].vpn).value) == p
    {
      assert DataOk(img, own, own[p].root);
    }
    forall o | o in Leaves(img, own) ensures exists p :: p in PagesOf(own, id, 5) && own[p] == o {
      assert DataOk(img, own, o.root);
      var p := Frame(Translation(img, o.root, o.vpn).value);
      assert OwnedAs(own, p, o) && p in PagesOf(own, id, 5);
    }
    OneToOne(own, PagesOf(own, id, 5), Leaves(img, own));
  }

  /** Conservation of memory, in what the program itself counts and links: in every reachable state the
      allocator's free counter, the tables of all trees, the mapped pages of all address spaces and the
      size of the entry zone make up, with the pages fixed at boot, in a caller's hands, of the kernel's
      tables or of other zones, exactly the tracked memory. */
  lemma PagesConserved(s: Spaces)
    requires s.Valid() && s.maps != []
    ensures var img, own, id := s.pmm.mem.Image(), s.pmm.own, s.zone.id;
            s.pmm.free_count + |Tables(img, own)| + |Leaves(img, own)| + s.zone.cur_size / 4096
            + |PagesOf(own, id, 1)| + |PagesOf(own, id, 2)| + |PagesOf(own, id, 3)| + |PagesOf(own, id, 7)| == MAX_PAGES
  {
    hide TreesOk, MappingsOk, Partitioned, ListOk, Tables, Leaves, Map.ListValid, Apart, Coverage, Used;
    var m := s.maps[0];
    var img, own, id := s.pmm.mem.Image(), s.pmm.own, s.zone.id;
    assert m.Valid() && m.pmm == s.pmm && m.zone == s.zone;
    TablesCounted(img, own, id);
    LeavesCounted(img, own, id);
    ClassesAddUp(own, id);
    assert FreePages(own) == PagesOf(own, id, 0);
    assert s.zone.pages == PagesOf(own, id, 6);
  }

  // ---- what one operation on one address space may move -------------------------------------------

  /** Pages only move between the free set, the operated address space and the entry zone. */
  ghost predicate StepBy(own: Ledger, own': Ledger, root: nat, zoneId: nat)
  {
    |own'| == |own| && forall p :: 0 <= p < |own| ==>
      || own'[p] == own[p]
      || ((own[p].Free? || IsData(own, root, p))
          && (own'[p].Free? || IsTable(own', root, p) || IsData(own', root, p) || own'[p] == ZonePage(zoneId)))
  }

  /** Pages that no operation moves: reserved and held ones, the kernel's tables, page tables and zone
      pages. */
  ghost predicate FixedKept(own: Ledger, own': Ledger)
  {
    |own'| == |own| && forall p :: 0 <= p < |own| && !own[p].Free? && !own[p].Data? ==> own'[p] == own[p]
  }

  lemma StepKeepsFixed(own: Ledger, own': Ledger, root: nat, zoneId: nat)
    requires StepBy(own, own', root, zoneId)
    ensures FixedKept(own, own')
  {}

  /** ... so every other address space keeps its root and its frames. */
  lemma OtherRootsKept(own: Ledger, own': Ledger, root: nat, zoneId: nat, r: nat)
    requires StepBy(own, own', root, zoneId) && IsRoot(own, r) && r != root
    ensures IsRoot(own', r)
    ensures forall p :: 0 <= p < |own| && (IsData(own', r, p) || IsData(own, r, p)) ==> own'[p] == own[p]
  {}

  datatype Op =
    | Enter(start: Word, size: Word, prot: nat, maxProt: nat, flags: nat)
    | Remove(start: Word, size: Word)
    | Fault(addr: Word, faultType: nat)

  /** What the callers of the three operations promise. */
  ghost predicate Allowed(m: Map, op: Op)
    reads m, m.pmm, m.pmap, m.pmm.mem.frame
  {
    match op
    case Enter(start, size, _, _, _) => start % 4096 == 0 && size % 4096 == 0
    case Remove(start, size) => NoStray(m.pmm.own, m.Root(), m.Contents(), start, (start + size) % U64)
    case Fault(addr, _) => m.pmm == m.pmap.pmm && m.pmap.Walkable(addr)
  }

  /** What a careful caller tests before an operation: alignment, that the range cuts no entry, that the
      address is in the lower half. */
  ghost predicate Guard(m: Map, op: Op)
    reads m
  {
    match op
    case Enter(start, size, _, _, _) => start % 4096 == 0 && size % 4096 == 0
    case Remove(start, size) => CutsNone(m.Contents(), start, (start + size) % U64)
    case Fault(addr, _) => addr < LOWER_END
  }

  /** Every entry that overlaps [lo, hi) lies inside. */
  ghost predicate CutsNone(infos: seq<Info>, lo: nat, hi: nat)
  {
    forall i :: 0 <= i < |infos| && infos[i].Overlaps(lo, hi) ==> lo <= infos[i].start && infos[i].end <= hi
  }

  class Spaces {
    const pmm: PageAllocator
    const zone: Zone
    const maps: seq<Map>

    constructor (pmm: PageAllocator, zone: Zone, maps: seq<Map>)
      requires Consistent(pmm, zone, maps)
      ensures Valid() && this.pmm == pmm && this.zone == zone && this.maps == maps
    {
      this.pmm, this.zone, this.maps := pmm, zone, maps;
    }

    ghost predicate Valid()
      reads *
    {
      Consistent(pmm, zone, maps)
    }

    /** One operation on map `i`, seen from that map. */
    method Operate(i: nat, op: Op)
      requires Valid() && i < |maps| && Allowed(maps[i], op)
      modifies maps[i], maps[i].header, Elements(maps[i].nodes), zone, pmm, pmm.mem.frame
      ensures maps[i].Valid() && maps[i].Foreign() == old(maps[i].Foreign())
      ensures maps[i].pmm == pmm && maps[i].zone == zone
      ensures forall e :: e in maps[i].nodes ==> e in old(maps[i].nodes) || fresh(e)
      ensures StepBy(old(pmm.own), pmm.own, maps[i].Root(), zone.id)
      ensures OthersSame(old(pmm.mem.Image()), old(pmm.own), pmm.mem.Image(), maps[i].Root())
    {
      hide TablesOk, DataOk, TreesOk, MappingsOk, BitmapOk, Translation, Partitioned, ListOk, Ring, SlotsLive, Sorted;
      hide PageAligned, Coverage, NoStray, Unmapped, WiredPages, FramesKept, Remapped, FreshPage, Apart;
      var m := maps[i];
      match op {
        case Enter(start, size, prot, maxProt, flags) =>
          EnterStep(m, start, size, prot, maxProt, flags);
        case Remove(start, size) =>
          RemoveStep(m, start, size);
        case Fault(addr, faultType) =>
          FaultStep(m, addr, faultType);
      }
    }

    /** The same operation, seen from objects it does not own: they are not written. */
    method OperateBeside(i: nat, op: Op, ghost others: set<object>)
      requires Valid() && i < |maps| && Allowed(maps[i], op) && others !! Written(maps[i])
      modifies maps[i], maps[i].header, Elements(maps[i].nodes), zone, pmm, pmm.mem.frame
      ensures unchanged(others)
      ensures maps[i].Valid() && maps[i].Foreign() == old(maps[i].Foreign())
      ensures maps[i].pmm == pmm && maps[i].zone == zone
      ensures forall e :: e in maps[i].nodes ==> e in old(maps[i].nodes) || fresh(e)
      ensures StepBy(old(pmm.own), pmm.own, maps[i].Root(), zone.id)
      ensures OthersSame(old(pmm.mem.Image()), old(pmm.own), pmm.mem.Image(), maps[i].Root())
    {
      hide Map.Valid, Map.Sound, Apart, Allowed, StepBy, OthersSame, Map.Foreign;
      Operate(i, op);
    }

    /** One operation on map `i`: the whole stack stays consistent, pages move only between the free
        set, that address space and the entry zone, and no other address space notices. */
    method Step(i: nat, op: Op)
      requires Valid() && i < |maps| && Allowed(maps[i], op)
      modifies maps[i], maps[i].header, Elements(maps[i].nodes), zone, pmm, pmm.mem.frame
      ensures Valid()
      ensures forall j :: 0 <= j < |maps| ==> forall e :: e in maps[j].nodes ==> e in old(maps[j].nodes) || fresh(e)
      ensures StepBy(old(pmm.own), pmm.own, maps[i].Root(), zone.id)
      ensures OthersSame(old(pmm.mem.Image()), old(pmm.own), pmm.mem.Image(), maps[i].Root())
    {
      hide Map.Valid, Map.Sound, Apart, Allowed, Consistent, StepBy, OthersSame, Map.Foreign, LeftAlone;
      hide Others, Own, Written;
      ghost var f := Focus(this, i, Others(maps, i));
      OthersApart(f);
      OperateBeside(i, op, f.others);
      WereLeftAlone(f);
      StillConsistent(f);
    }

    /** Every list node is one of `known` or has been created since. */
    twostate predicate NodesFrom(known: set<object>)
      reads this, maps
    {
      forall j :: 0 <= j < |maps| ==> forall e :: e in maps[j].nodes ==> e in known || fresh(e)
    }

    /** A system that can take another address space over the kernel's PML4 `kern`. */
    ghost predicate Ready(kern: nat)
      reads *
    {
      && Valid() && pmm.Valid() && zone.Valid() && zone.pmm == pmm
      && TreesOk(pmm.mem.Image(), pmm.own) && MappingsOk(pmm.mem.Image(), pmm.own)
      && kern < |pmm.own| && pmm.own[kern] == Kernel(4, 0)
    }

    /** A valid system with an address space in it lacks only the kernel's PML4. */
    lemma ReadyWith(kern: nat)
      requires Valid() && maps != [] && kern < |pmm.own| && pmm.own[kern] == Kernel(4, 0)
      ensures Ready(kern)
    {
      assert maps[0].Valid();
    }

    /** Any run of operations, each on any of the maps and with any outcome: the stack is consistent
        throughout, so every state on the way gives each page exactly one owner; reserved and held pages,
        tables and zone pages stay what they are, and afterwards another address space can be added. */
    method Run(script: seq<(nat, Op)>, ghost kern: nat, ghost known: set<object>)
      requires Ready(kern) && known == Everything(maps)
      modifies known, zone, pmm, pmm.mem.frame
      ensures Ready(kern) && FixedKept(old(pmm.own), pmm.own)
    {
      hide Consistent, Allowed, StepBy, OthersSame, Everything, Ready;
      EverythingKnown(maps);
      var k := 0;
      while k < |script|
        invariant Ready(kern) && FixedKept(old(pmm.own), pmm.own) && NodesFrom(known)
        invariant forall j :: 0 <= j < |maps| ==> maps[j] in known && maps[j].header in known
      {
        var i, op := script[k].0, script[k].1;
        if i < |maps| {
          var done := Attempt(i, op, kern);
        }
        k := k + 1;
      }
    }

    /** One operation, if its caller may ask for it. */
    method Attempt(i: nat, op: Op, ghost kern: nat) returns (done: bool)
      requires Ready(kern) && i < |maps|
      modifies maps[i], maps[i].header, Elements(maps[i].nodes), zone, pmm, pmm.mem.frame
      ensures Ready(kern) && FixedKept(old(pmm.own), pmm.own)
      ensures done <==> old(Guard(maps[i], op))
      ensures !done ==> pmm.own == old(pmm.own) && pmm.mem.Image() == old(pmm.mem.Image())
      ensures forall j :: 0 <= j < |maps| ==> forall e :: e in maps[j].nodes ==> e in old(maps[j].nodes) || fresh(e)
    {
      hide Map.Valid, Apart, Allowed, Guard, OthersSame, StepBy, FixedKept;
      done := MayDo(maps[i], op);
      FixedIsKept(pmm.own);
      if done {
        ghost var own := pmm.own;
        Step(i, op);
        StepKeepsFixed(own, pmm.own, maps[i].Root(), zone.id);
        ReadyWith(kern);
      }
    }
  }

  lemma FixedIsKept(own: Ledger)
    ensures FixedKept(own, own)
  {}

  lemma EverythingKnown(maps: seq<Map>)
    ensures forall j :: 0 <= j < |maps| ==>
              && maps[j] in Everything(maps) && maps[j].header in Everything(maps)
              && forall e :: e in maps[j].nodes ==> e in Everything(maps)
  {
    forall j | 0 <= j < |maps|
      ensures maps[j] in Everything(maps) && maps[j].header in Everything(maps)
      ensures forall e :: e in maps[j].nodes ==> e in Everything(maps)
    {
      assert Own(maps[j]) <= Everything(maps);
      assert forall e :: e in maps[j].nodes ==> e in Elements(maps[j].nodes);
    }
  }

  /** All objects of all maps. */
  ghost function Everything(maps: seq<Map>): set<object>
    reads maps
  {
    set j, o | 0 <= j < |maps| && o in Own(maps[j]) :: o
  }

  /** Whether vm_map_remove of [lo, hi) would cut no entry of `m`. */
  method CutsNothing(m: Map, lo: nat, hi: nat) returns (ok: bool)
    requires m.ListValid()
    ensures ok <==> CutsNone(m.Contents(), lo, hi)
  {
    hide NodeAt, Sorted, SlotsLive;
    RingEnds(m.header, m.nodes);
    var e := m.header.next;
    ghost var k := 0;
    while e != m.header
      invariant 0 <= k <= |m.nodes| && e == NodeAt(m.header, m.nodes, k + 1)
      invariant forall i :: 0 <= i < k && m.nodes[i].Contents().Overlaps(lo, hi) ==>
                  lo <= m.nodes[i].start && m.nodes[i].end <= hi
      decreases |m.nodes| - k
    {
      if lo < e.end && hi > e.start && !(lo <= e.start && e.end <= hi) {
        assert m.Contents()[k] == e.Contents();
        return false;
      }
      assert NodeAt(m.header, m.nodes, k + 1).next == NodeAt(m.header, m.nodes, k + 2);
      e := e.next;
      k := k + 1;
    }
    return true;
  }

  /** The tests of a careful caller, which make the operation one it may ask for. */
  method MayDo(m: Map, op: Op) returns (ok: bool)
    requires m.Valid()
    ensures ok <==> Guard(m, op)
    ensures ok ==> Allowed(m, op)
  {
    hide TablesOk, DataOk, TreesOk, MappingsOk, BitmapOk, Translation, Partitioned, ListOk, SlotsLive, Coverage, NoStray;
    match op {
      case Enter(start, size, _, _, _) =>
        ok := start % 4096 == 0 && size % 4096 == 0;
      case Remove(start, size) =>
        ok := CutsNothing(m, start, (start + size) % U64);
        if ok { UncutRangeHasNoStray(m.pmm.own, m.Root(), m.Contents(), start, (start + size) % U64); }
      case Fault(addr, _) =>
        ok := addr < LOWER_END;
        if ok { VpnOf(addr); }
    }
  }

  /** vm_map_enter as a step. */
  method EnterStep(m: Map, start: Word, size: Word, prot: nat, maxProt: nat, flags: nat)
    requires m.Valid() && start % 4096 == 0 && size % 4096 == 0
    modifies m, m.header, Elements(m.nodes), m.zone, m.pmm, m.pmm.mem.frame
    ensures m.Valid() && m.Foreign() == old(m.Foreign())
    ensures forall e :: e in m.nodes ==> e in old(m.nodes) || fresh(e)
    ensures StepBy(old(m.pmm.own), m.pmm.own, m.Root(), m.zone.id)
    ensures OthersSame(old(m.Image()), old(m.pmm.own), m.Image(), m.Root())
  {
    hide TablesOk, DataOk, TreesOk, MappingsOk, BitmapOk, Translation, Partitioned, ListOk, Ring, SlotsLive, Sorted;
    hide PageAligned, Coverage, WiredPages, FramesKept;
    var kr, k := m.Enter(start, size, prot, maxProt, flags);
  }

  /** vm_map_remove as a step. */
  method RemoveStep(m: Map, start: Word, size: Word)
    requires m.Valid() && NoStray(m.pmm.own, m.Root(), m.Contents(), start, (start + size) % U64)
    modifies m, m.header, Elements(m.nodes), m.zone, m.pmm, m.pmm.mem.frame
    ensures m.Valid() && m.Foreign() == old(m.Foreign())
    ensures forall e :: e in m.nodes ==> e in old(m.nodes)
    ensures StepBy(old(m.pmm.own), m.pmm.own, m.Root(), m.zone.id)
    ensures OthersSame(old(m.Image()), old(m.pmm.own), m.Image(), m.Root())
  {
    hide TablesOk, DataOk, TreesOk, MappingsOk, BitmapOk, Translation, Partitioned, ListOk, Ring, SlotsLive, Sorted;
    hide PageAligned, Coverage, NoStray;
    KeepNodesSpec(m.nodes, start, (start + size) % U64);
    var kr := m.Remove(start, size);
  }

  /** vm_fault as a step. */
  method FaultStep(m: Map, addr: Word, faultType: nat)
    requires m.Valid() && m.pmap.Walkable(addr)
    modifies m.pmm, m.pmm.mem.frame
    ensures m.Valid()
    ensures StepBy(old(m.pmm.own), m.pmm.own, m.Root(), m.zone.id)
    ensures OthersSame(old(m.Image()), old(m.pmm.own), m.Image(), m.Root())
  {
    hide TablesOk, DataOk, TreesOk, MappingsOk, BitmapOk, Translation, Partitioned, ListOk, Ring, SlotsLive, Sorted;
    hide PageAligned, Coverage, FramesKept, Remapped, FreshPage;
    var r, hit := VmFault.VmFault(m, addr, faultType);
  }

  /** The objects an operation on `m` may write. */
  ghost function Written(m: Map): set<object>
    reads m
  {
    {m, m.header, m.zone, m.pmm, m.pmm.mem.frame} + Elements(m.nodes)
  }

  /** The objects a map consists of, besides what all maps share. */
  ghost function Own(m: Map): set<object>
    reads m
  {
    {m, m.header, m.pmap} + Elements(m.nodes)
  }

  ghost function Others(maps: seq<Map>, i: nat): set<object>
    reads maps
  {
    set j, o | 0 <= j < |maps| && j != i && o in Own(maps[j]) :: o
  }

  lemma OthersApart(f: Focus)
    requires f.s.Valid() && f.i < |f.s.maps|
    ensures Others(f.s.maps, f.i) !! Written(f.Map())
  {
    hide Map.Valid;
    var maps := f.s.maps;
    forall j | 0 <= j < |maps| && j != f.i ensures Own(maps[j]) !! Written(f.Map()) {
      assert Apart(f.Map(), maps[j]) || Apart(maps[j], f.Map());
    }
  }

  twostate lemma WereLeftAlone(f: Focus)
    requires f.i < |f.s.maps| && f.others == old(Others(f.s.maps, f.i)) && unchanged(f.others)
    ensures forall j :: 0 <= j < |f.s.maps| && j != f.i ==> LeftAlone(f.s.maps[j])
  {
    forall j | 0 <= j < |f.s.maps| && j != f.i ensures LeftAlone(f.s.maps[j]) {
      assert old(Own(f.s.maps[j])) <= f.others;
    }
  }

  /** The objects a map consists of were not written. */
  twostate predicate LeftAlone(m: Map)
    reads m, m.header, m.nodes, m.pmap
  {
    unchanged(m) && unchanged(m.header) && unchanged(m.nodes) && unchanged(m.pmap)
  }

  /** The map an operation works on, within its system, and the objects of the other maps. */
  datatype Focus = Focus(s: Spaces, i: nat, ghost others: set<object>)
  {
    function Map(): Map
      requires i < |s.maps|
    {
      s.maps[i]
    }
  }

  /** What an operation on one map guarantees about everything else. */
  twostate predicate LocalStep(f: Focus)
    reads *
  {
    && f.i < |f.s.maps| && f.Map().Valid() && f.Map().Root() == old(f.Map().Root())
    && (forall j :: 0 <= j < |f.s.maps| && j != f.i ==> LeftAlone(f.s.maps[j]))
    && f.Map().pmm == f.s.pmm && f.Map().zone == f.s.zone
    && StepBy(old(f.s.pmm.own), f.s.pmm.own, f.Map().Root(), f.s.zone.id)
    && f.Map().Foreign() == old(f.Map().Foreign())
    && (forall e :: e in f.Map().nodes ==> e in old(f.Map().nodes) || fresh(e))
  }

  /** After an operation on one map every other map is as valid as before. */
  twostate lemma OtherMapsKept(f: Focus)
    requires old(f.s.Valid()) && LocalStep(f)
    ensures forall j :: 0 <= j < |f.s.maps| && j != f.i ==>
              f.s.maps[j].Valid() && Apart(f.Map(), f.s.maps[j]) && Apart(f.s.maps[j], f.Map())
  {
    hide TablesOk, DataOk, TreesOk, MappingsOk, BitmapOk, Translation, Partitioned, ListOk, Ring, Sorted;
    hide PageAligned, Coverage;
    var s, m := f.s, f.Map();
    forall j | 0 <= j < |s.maps| && j != f.i
      ensures s.maps[j].Valid() && Apart(m, s.maps[j]) && Apart(s.maps[j], m)
    {
      var m' := s.maps[j];
      assert old(Apart(m, m')) || old(Apart(m', m));
      assert old(m'.Valid()) && m'.pmm == s.pmm && m'.zone == s.zone && LeftAlone(m');
      OtherRootsKept(old(s.pmm.own), s.pmm.own, m.Root(), s.zone.id, m'.Root());
      SlotsAreLive(m'.nodes, s.pmm.mem.hhdm, old(s.zone.live));
      assert SlotSet(m'.nodes, s.pmm.mem.hhdm) <= m.Foreign();
      m'.Untroubled();
    }
  }

  twostate lemma StillConsistent(f: Focus)
    requires old(f.s.Valid()) && LocalStep(f)
    ensures f.s.Valid()
  {
    hide TablesOk, DataOk, TreesOk, MappingsOk, BitmapOk, Translation, Partitioned, ListOk, Ring, SlotsLive, Sorted;
    hide PageAligned, Coverage;
    OtherMapsKept(f);
    forall j, k | 0 <= j < k < |f.s.maps| && j != f.i && k != f.i ensures Apart(f.s.maps[j], f.s.maps[k]) {
      assert LeftAlone(f.s.maps[j]) && LeftAlone(f.s.maps[k]);
      assert old(Apart(f.s.maps[j], f.s.maps[k]));
    }
  }

  lemma SlotsAreLive(nodes: seq<Entry>, hhdm: nat, live: set<nat>)
    requires SlotsLive(nodes, hhdm, live)
    ensures SlotSet(nodes, hhdm) <= live
  {
    forall e | e in nodes ensures LiveElement(hhdm, live, e.slot) {}
  }

  /** Every map is valid; maps share the allocator and the zone and nothing else. */
  ghost predicate Consistent(pmm: PageAllocator, zone: Zone, maps: seq<Map>)
    reads *
  {
    && (forall i :: 0 <= i < |maps| ==> maps[i].pmm == pmm && maps[i].zone == zone && maps[i].Valid())
    && (forall i, j :: 0 <= i < j < |maps| ==> Apart(maps[i], maps[j]))
  }

  ghost predicate Apart(m: Map, m': Map)
    reads m, m', m.pmap, m'.pmap
  {
    && m != m' && m.header != m'.header && m.Root() != m'.Root() && m.pmap != m'.pmap
    && m.header !in m'.nodes && m'.header !in m.nodes
    && Elements(m.nodes) !! Elements(m'.nodes)
    && SlotSet(m.nodes, m.pmm.mem.hhdm) !! SlotSet(m'.nodes, m.pmm.mem.hhdm)
  }
}
