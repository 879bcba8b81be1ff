/** Creating and destroying whole address spaces: pmap_create and pmap_destroy
    (hal/x86_64/pmap.c) and vm_map_destroy (vm/vm_map.c). */
module Lifecycle {
  import opened Words
  import opened PhysMem
  import opened Pmm
  import opened PageTable
  import opened Pmap
  import opened Mappings
  import opened Zalloc
  import opened VmList
  import opened VmUnmap
  import opened VmMap
  import opened Teardown

  // ---- pmap_create -----------------------------------------------------------------------------

  /** A page whose lower half is zero is the root of an empty tree. */
  lemma EmptyTree(img: Image, own: Ledger, root: nat)
    requires |own| <= |img| && root < |own|
    requires forall i :: 0 <= i < 256 ==> img[root][i] == 0
    requires forall p :: 0 <= p < |own| ==> !IsTable(own, root, p)
    ensures TablesOk(img, own[root := Table(root, 4, 0)], root)
    ensures forall vpn :: 0 <= vpn < LOWER_PAGES ==> Translation(img, root, vpn) == None
  {
    var own' := own[root := Table(root, 4, 0)];
    forall level, idx | 1 <= level <= 3 && 0 <= idx < Width(level)
      ensures TableAt(img, root, level, idx) == None
    {
      EmptyPath(img, root, level, idx);
    }
    forall vpn | 0 <= vpn < LOWER_PAGES ensures Translation(img, root, vpn) == None {
      EmptyPath(img, root, 1, vpn / 512);
    }
    forall p: nat | IsTable(own', root, p) ensures p == root {
      assert p == root || IsTable(own, root, p);
    }
  }

  lemma {:induction false} EmptyPath(img: Image, root: nat, level: nat, idx: nat)
    requires root < |img| && forall i :: 0 <= i < 256 ==> img[root][i] == 0
    requires 1 <= level <= 3 && idx < Width(level)
    ensures TableAt(img, root, level, idx) == None
    decreases 4 - level
  {
    if level < 3 { EmptyPath(img, root, level + 1, idx / 512); }
  }

  lemma OldRootStays(img: Image, own: Ledger, root: nat, r: nat)
    requires TablesOk(img, own, r) && DataOk(img, own, r) && root < |own| && own[root] == Held && r != root
    ensures TablesOk(img, own[root := Table(root, 4, 0)], r) && DataOk(img, own[root := Table(root, 4, 0)], r)
  {
    hide Translation, TableAt;
    TreeFrame(img, img, own, own[root := Table(root, 4, 0)], r);
  }

  /** Making a held page a root that shares the kernel's upper half. */
  lemma NewUpper(img: Image, own: Ledger, root: nat, kern: nat)
    requires UppersOk(img, own) && HasUpper(own, kern) && root < |own| <= |img| && own[root] == Held
    requires forall i :: 256 <= i < 512 ==> img[root][i] == img[kern][i]
    ensures UppersOk(img, own[root := Table(root, 4, 0)])
  {
    hide UpperOk;
    var own' := own[root := Table(root, 4, 0)];
    forall r | HasUpper(own', r) ensures UpperOk(img, own', r) {
      UpperFrame(img, own, img, own', if r == root then kern else r, r);
    }
  }

  /** A held page with an empty lower half and the kernel's upper half becomes a new root; nothing
      else changes. */
  lemma NewRoot(img: Image, own: Ledger, root: nat, kern: nat)
    requires TreesOk(img, own) && MappingsOk(img, own) && |own| <= |img|
    requires root < |own| && own[root] == Held
    requires HasUpper(own, kern) && forall i :: 256 <= i < 512 ==> img[root][i] == img[kern][i]
    requires forall i :: 0 <= i < 256 ==> img[root][i] == 0
    ensures var own' := own[root := Table(root, 4, 0)];
            && TreesOk(img, own') && MappingsOk(img, own') && IsRoot(own', root)
            && forall p :: 0 <= p < |own'| ==> !IsData(own', root, p)
    ensures forall vpn :: 0 <= vpn < LOWER_PAGES ==> Translation(img, root, vpn) == None
  {
    var own' := own[root := Table(root, 4, 0)];
    forall p | 0 <= p < |own| ensures !IsTable(own, root, p) && !IsData(own, root, p) {
      if own[p].Table? || own[p].Data? { assert IsRoot(own, own[p].root); }
    }
    EmptyTree(img, own, root);
    assert DataOk(img, own', root);
    NewUpper(img, own, root, kern);
    hide TablesOk, DataOk, Translation, TableAt, UppersOk;
    forall r | IsRoot(own', r) ensures TablesOk(img, own', r) && DataOk(img, own', r) {
      if r != root {
        assert IsRoot(own, r);
        OldRootStays(img, own, root, r);
      }
    }
    forall p | 0 <= p < |own'| && (own'[p].Table? || own'[p].Data?) ensures IsRoot(own', own'[p].root) {
      if p != root { assert IsRoot(own, own[p].root); }
    }
  }

  /** Writing a held page moves no table and no frame. */
  lemma HeldWrite(img: Image, own: Ledger, img': Image, p: nat)
    requires TreesOk(img, own) && MappingsOk(img, own) && p < |own| <= |img| && own[p] == Held
    requires |img'| == |img| && forall q :: 0 <= q < |img| && q != p ==> img'[q] == img[q]
    ensures TreesOk(img', own) && MappingsOk(img', own)
    ensures forall r :: IsRoot(own, r) ==> SameTranslations(img, img', r)
  {
    hide TablesOk, DataOk, Translation, TableAt;
    ForeignWrites(img, own, img', own);
    KeepMappings(img, own, img', own);
  }

  /** The copy loop of pmap_create: the kernel's upper 256 slots. */
  method CopyUpperHalf(pmm: PageAllocator, page: nat, kern: nat)
    requires pmm.Valid() && page < |pmm.own| && pmm.own[page] == Held && kern < pmm.mem.frame.Length && kern != page
    requires IsZero(pmm.mem.Image()[page])
    modifies pmm.mem.frame
    ensures pmm.Valid() && |pmm.mem.Image()| == old(|pmm.mem.Image()|)
    ensures forall q :: 0 <= q < |pmm.mem.Image()| && q != page ==> pmm.mem.Image()[q] == old(pmm.mem.Image())[q]
    ensures forall i :: 0 <= i < 256 ==> pmm.mem.Image()[page][i] == 0
    ensures forall i :: 256 <= i < 512 ==> pmm.mem.Image()[page][i] == old(pmm.mem.Image())[kern][i]
  {
    var i := 256;
    while i < 512
      invariant 256 <= i <= 512 && pmm.Valid() && |pmm.mem.Image()| == old(|pmm.mem.Image()|)
      invariant forall q :: 0 <= q < |pmm.mem.Image()| && q != page ==> pmm.mem.Image()[q] == old(pmm.mem.Image())[q]
      invariant forall j :: 0 <= j < 256 ==> pmm.mem.Image()[page][j] == 0
      invariant forall j :: 256 <= j < i ==> pmm.mem.Image()[page][j] == old(pmm.mem.Image())[kern][j]
    {
      pmm.WriteWord(page, i, pmm.mem.Load(kern, i));
      i := i + 1;
    }
  }

  /** Nothing but free pages and the bitmap was written. */
  ghost predicate OnlyFreeWritten(img: Image, own: Ledger, img': Image, bm: nat)
  {
    |img'| == |img| && forall p: nat :: p < |img| && !(bm <= p < bm + BITMAP_PAGES) && !(p < |own| && own[p].Free?) ==>
      img'[p] == img[p]
  }

  /** The first half of pmap_create: a page with the kernel's upper half and an empty lower half. */
  method MakePml4(pmm: PageAllocator, kern: nat) returns (pa: Word)
    requires pmm.Valid() && TreesOk(pmm.mem.Image(), pmm.own) && MappingsOk(pmm.mem.Image(), pmm.own)
    requires kern < |pmm.own| && pmm.own[kern] == Kernel(4, 0)
    modifies pmm`free_count, pmm`own, pmm.mem.frame
    ensures pmm.Valid() && TreesOk(pmm.mem.Image(), pmm.own) && MappingsOk(pmm.mem.Image(), pmm.own)
    ensures forall r :: IsRoot(old(pmm.own), r) ==> SameTranslations(old(pmm.mem.Image()), pmm.mem.Image(), r)
    ensures OnlyFreeWritten(old(pmm.mem.Image()), old(pmm.own), pmm.mem.Image(), pmm.bitmap)
    ensures pa == 0 ==> pmm.own == old(pmm.own) && FreePages(pmm.own) == {}
    ensures pa != 0 ==>
              var root := pa / 4096;
              && pa % 4096 == 0 && 0 < root < |old(pmm.own)| && old(pmm.own)[root] == Owner.Free
              && pmm.own == old(pmm.own)[root := Held]
              && (forall i :: 0 <= i < 256 ==> pmm.mem.Image()[root][i] == 0)
              && (forall i :: 256 <= i < 512 ==> pmm.mem.Image()[root][i] == old(pmm.mem.Image())[kern][i])
              && pmm.mem.Image()[kern] == old(pmm.mem.Image())[kern]
  {
    hide TablesOk, DataOk, TreesOk, MappingsOk, Used, Translation, TableAt, FreePages;
    ghost var img, own := pmm.mem.Image(), pmm.own;
    LedgerFits(img, own, pmm.bitmap);
    pa := AllocTable(pmm);
    if pa == 0 {
      return;
    }
    var root := pa / 4096;
    ghost var img1, own1 := pmm.mem.Image(), pmm.own;
    KeepAcrossAlloc(img, own, img1, own1, root);
    CopyUpperHalf(pmm, root, kern);
    HeldWrite(img1, own1, pmm.mem.Image(), root);
    SameThrough(img, own, img1, pmm.mem.Image(), root);
  }

  /** pmap_create: a PML4 with the kernel's upper half and an empty lower half, plus a page for the
      descriptor; on failure both are back where they were. */
  method CreateAddressSpace(pmm: PageAllocator, kern: nat) returns (p: AddressSpace?, desc: Word)
    requires pmm.Valid() && TreesOk(pmm.mem.Image(), pmm.own) && MappingsOk(pmm.mem.Image(), pmm.own)
    requires kern < |pmm.own| && pmm.own[kern] == Kernel(4, 0)
    modifies pmm`free_count, pmm`own, pmm.mem.frame
    ensures pmm.Valid() && TreesOk(pmm.mem.Image(), pmm.own) && MappingsOk(pmm.mem.Image(), pmm.own)
    ensures forall r :: IsRoot(old(pmm.own), r) ==> SameTranslations(old(pmm.mem.Image()), pmm.mem.Image(), r)
    ensures OnlyFreeWritten(old(pmm.mem.Image()), old(pmm.own), pmm.mem.Image(), pmm.bitmap)
    ensures p == null ==> pmm.own == old(pmm.own) && |FreePages(pmm.own)| <= 1
    ensures p != null ==>
              && fresh(p) && p.Valid() && p.pmm == pmm && p.ref_count == 1
              && desc / 4096 < |old(pmm.own)| && p.Root() < |old(pmm.own)|
              && old(pmm.own)[p.Root()] == Owner.Free && old(pmm.own)[desc / 4096] == Owner.Free
              && pmm.own == old(pmm.own)[p.Root() := Table(p.Root(), 4, 0)][desc / 4096 := Held]
              && desc / 4096 != p.Root()
              && (forall vpn :: 0 <= vpn < LOWER_PAGES ==> Translation(pmm.mem.Image(), p.Root(), vpn) == None)
              && (forall i :: 0 <= i < 256 ==> pmm.mem.Image()[p.Root()][i] == 0)
              && (forall i :: 256 <= i < 512 ==>
                    pmm.mem.Image()[p.Root()][i] == old(pmm.mem.Image())[kern][i])
  {
    hide TablesOk, DataOk, TreesOk, MappingsOk, Used, Translation, TableAt, FreePages;
    desc := 0;
    ghost var img, own := pmm.mem.Image(), pmm.own;
    var pa := MakePml4(pmm, kern);
    if pa == 0 {
      return null, 0;
    }
    var root := pa / 4096;
    ghost var img1, own1 := pmm.mem.Image(), pmm.own;
    desc := pmm.AllocPage();
    if desc == 0 {
      pmm.FreePage(pa);
      BitmapOnly(img1, own1, pmm.mem.Image(), pmm.own, pmm.bitmap);
      SameThrough(img, own, img1, pmm.mem.Image(), root);
      OnlyPageFree(own1, root);
      assert pmm.own == own;
      return null, 0;
    }
    BitmapOnly(img1, own1, pmm.mem.Image(), pmm.own, pmm.bitmap);
    SameThrough(img, own, img1, pmm.mem.Image(), root);
    NewRoot(pmm.mem.Image(), pmm.own, root, kern);
    pmm.Relabel(root, Table(root, 4, 0));
    p := new AddressSpace(pmm, pa);
  }

  lemma SameThrough(img: Image, own: Ledger, img1: Image, img2: Image, p: nat)
    requires p < |own| && own[p] == Owner.Free
    requires forall r :: IsRoot(own, r) ==> SameTranslations(img, img1, r)
    requires forall r :: IsRoot(own[p := Held], r) ==> SameTranslations(img1, img2, r)
    ensures forall r :: IsRoot(own, r) ==> SameTranslations(img, img2, r)
  {
    forall r | IsRoot(own, r) ensures SameTranslations(img, img2, r) {
      assert IsRoot(own[p := Held], r);
      assert SameTranslations(img, img1, r) && SameTranslations(img1, img2, r);
    }
  }

  lemma KeepAcrossAlloc(img: Image, own: Ledger, img': Image, own': Ledger, p: nat)
    requires MappingsOk(img, own) && p < |own| && own[p] == Owner.Free && own' == own[p := Held]
    requires forall r :: IsRoot(own, r) ==> SameTranslations(img, img', r)
    ensures MappingsOk(img', own')
  {
    hide DataOk, Translation;
    KeepMappings(img, own, img', own');
  }

  /** Allocating or freeing a held page writes only the bitmap. */
  lemma BitmapOnly(img: Image, own: Ledger, img': Image, own': Ledger, bm: nat)
    requires TreesOk(img, own) && MappingsOk(img, own) && BitmapOk(img, own, bm) && SameOutside(img, img', bm)
    requires |own'| == |own|
    requires forall p :: 0 <= p < |own| && (InTree(own[p]) || own[p].Data? || InTree(own'[p]) || own'[p].Data?) ==>
               own'[p] == own[p]
    ensures TreesOk(img', own') && MappingsOk(img', own')
    ensures forall r :: IsRoot(own, r) ==> SameTranslations(img, img', r)
  {
    hide TablesOk, DataOk, Translation, TableAt, Used;
    ForeignWrites(img, own, img', own');
    KeepMappings(img, own, img', own');
  }

  // ---- pmap_destroy and vm_map_destroy -----------------------------------------------------------

  /** The ledger pmap_destroy leaves: everything `root` owned has been freed, and so has every kernel
      table that its upper half leads to. */
  ghost predicate AllReturned(img: Image, own: Ledger, own': Ledger, root: nat)
  {
    |own'| == |own| && forall p :: 0 <= p < |own| ==>
      own'[p] == if IsData(own, root, p) || IsTable(own, root, p) || KernelLinked(img, own, root, p) then Owner.Free
                 else own[p]
  }

  /** No other PML4 leads to a kernel table that the upper half of `root` leads to. */
  ghost predicate SharesNothing(img: Image, own: Ledger, root: nat)
  {
    forall r, p: nat {:trigger HasUpper(own, r), KernelLinked(img, own, root, p)} ::
      r != root && HasUpper(own, r) && KernelLinked(img, own, root, p) ==> !KernelLinked(img, own, r, p)
  }

  /** An address space that pmap_create made, whose upper slots are those of the kernel's PML4, shares
      nothing only if there is nothing to share: destroying it breaks the upper halves of all others as
      soon as the kernel has one upper entry. */
  lemma CopySharesAll(img: Image, own: Ledger, root: nat, kern: nat)
    requires UpperOk(img, own, root) && UpperOk(img, own, kern) && HasUpper(own, kern) && kern != root
    requires forall i :: 256 <= i < 512 ==> img[root][i] == img[kern][i]
    ensures SharesNothing(img, own, root) <==> UpperHalfEmpty(img, root)
  {
    UpperSlots(img, own, root);
    if !UpperHalfEmpty(img, root) {
      var i :| 256 <= i < 512 && Present(img[root][i]);
      hide UpperHalfEmpty;
      assert PathAt(img, root, 4, 0) == Some(root) && PathAt(img, kern, 4, 0) == Some(kern) && i / 512 == 0 && i % 512 == i;
      assert Upper(3, i) && PathAt(img, root, 3, i) == Some(Frame(img[root][i])) == PathAt(img, kern, 3, i);
      assert KernelLinked(img, own, root, Frame(img[root][i])) && KernelLinked(img, own, kern, Frame(img[root][i]));
    }
  }

  /** Freeing a tree without data frames keeps every other lower half.  It keeps the other upper halves
      if and only if they share no kernel table with it. */
  lemma TreeGone(img: Image, own: Ledger, img': Image, own': Ledger, bm: nat, root: nat)
    requires TreesOk(img, own) && MappingsOk(img, own) && BitmapOk(img, own, bm) && SameOutside(img, img', bm)
    requires IsRoot(own, root) && AllReturned(img, own, own', root)
    requires forall p :: 0 <= p < |own| ==> !IsData(own, root, p)
    ensures LowerOk(img', own') && MappingsOk(img', own') && OthersSame(img, own, img', root)
    ensures TreesOk(img', own') <==> SharesNothing(img, own, root)
  {
    hide Translation, TableAt, Used, TablesOk, DataOk, UppersOk, SharesNothing;
    forall r | (IsRoot(own, r) || IsRoot(own', r)) && r != root
      ensures IsRoot(own, r) && TablesOk(img', own', r) && SameTranslations(img, img', r)
    {
      assert IsRoot(own, r);
      TreeFrame(img, img', own, own', r);
    }
    forall p | 0 <= p < |own'| && (own'[p].Table? || own'[p].Data?) ensures IsRoot(own', own'[p].root) {
      assert IsRoot(own, own[p].root);
    }
    forall r | IsRoot(own', r) ensures DataOk(img', own', r) {
      assert IsRoot(own, r) && r != root;
      DataStays(img, own, img', own', r);
    }
    UppersGone(img, own, img', own', bm, root);
  }

  lemma UppersGone(img: Image, own: Ledger, img': Image, own': Ledger, bm: nat, root: nat)
    requires UppersOk(img, own) && BitmapOk(img, own, bm) && SameOutside(img, img', bm)
    requires IsRoot(own, root) && AllReturned(img, own, own', root)
    ensures UppersOk(img', own') <==> SharesNothing(img, own, root)
  {
    hide Used, PathAt;
    if UppersOk(img', own') {
      forall r, p: nat | r != root && HasUpper(own, r) && KernelLinked(img, own, root, p)
        ensures !KernelLinked(img, own, r, p)
      {
        OtherUpper(img, own, img', own', bm, root, r, p);
      }
    }
    if SharesNothing(img, own, root) {
      forall r | HasUpper(own', r) ensures UpperOk(img', own', r) {
        assert HasUpper(own, r) && r != root && UpperOk(img, own, r);
        forall level, idx | Upper(level, idx) && PathAt(img', r, level, idx).Some?
          ensures OwnedAs(own', PathAt(img', r, level, idx).value, Kernel(level, idx))
        {
          UpperWalk(img, own, img', r, r, level, idx);
          assert KernelLinked(img, own, r, PathAt(img, r, level, idx).value);
        }
      }
    }
  }

  /** A kernel table two PML4s lead to is lost to the other one. */
  lemma OtherUpper(img: Image, own: Ledger, img': Image, own': Ledger, bm: nat, root: nat, r: nat, p: nat)
    requires UppersOk(img, own) && BitmapOk(img, own, bm) && SameOutside(img, img', bm)
    requires AllReturned(img, own, own', root) && r != root && HasUpper(own, r) && KernelLinked(img, own, root, p)
    requires UppersOk(img', own') && IsRoot(own, root)
    ensures !KernelLinked(img, own, r, p)
  {
    hide Used, PathAt;
    assert UpperOk(img, own, r) && HasUpper(own', r) && UpperOk(img', own', r);
    UpperWalk(img, own, img', r, r, own[p].level, own[p].idx);
    assert own'[p] == Owner.Free;
  }

  /** Kernel tables are linked as before when neither they nor the upper slots have changed. */
  lemma LinkedSame(img: Image, own: Ledger, img': Image, own': Ledger, root: nat)
    requires UpperOk(img, own, root) && KernelKept(img, own, img', own') && UpperKept(img, img', root)
    ensures forall p: nat :: KernelLinked(img', own', root, p) <==> KernelLinked(img, own, root, p)
  {
    hide PathAt;
    forall p: nat | p < |own| && own[p].Kernel? && Upper(own[p].level, own[p].idx)
      ensures PathAt(img', root, own[p].level, own[p].idx) == PathAt(img, root, own[p].level, own[p].idx)
    {
      UpperWalk(img, own, img', root, root, own[p].level, own[p].idx);
    }
  }

  lemma DataStays(img: Image, own: Ledger, img': Image, own': Ledger, r: nat)
    requires DataOk(img, own, r) && SameTranslations(img, img', r) && |own'| == |own|
    requires forall p :: 0 <= p < |own| && (IsData(own, r, p) || IsData(own', r, p)) ==> own'[p] == own[p]
    ensures DataOk(img', own', r)
  {
    hide Translation;
    forall p | 0 <= p < |own'| && own'[p].Data? && own'[p].root == r ensures IsData(own', r, p) {}
    forall p: nat | p < |own| && own[p].Data? && own[p].root == r ensures IsData(own, r, p) {}
  }

  /** pmap_destroy of the last reference, once its address space maps nothing. */
  method DestroyAddressSpace(p: AddressSpace)
    requires p.Valid() && MappingsOk(p.Image(), p.pmm.own) && p.ref_count > 0
    requires forall q :: 0 <= q < |p.pmm.own| ==> !IsData(p.pmm.own, p.Root(), q)
    modifies p`ref_count, p.pmm, p.pmm.mem.frame
    ensures p.ref_count == old(p.ref_count) - 1
    ensures p.pmm.Valid() && LowerOk(p.Image(), p.pmm.own) && MappingsOk(p.Image(), p.pmm.own)
    ensures SameOutside(old(p.Image()), p.Image(), p.pmm.bitmap) && p.pmm.bitmap == old(p.pmm.bitmap)
    ensures OthersSame(old(p.Image()), old(p.pmm.own), p.Image(), p.Root())
    ensures p.ref_count > 0 ==> p.pmm.own == old(p.pmm.own) && p.Image() == old(p.Image())
    ensures p.ref_count == 0 ==>
              && FreesLinked(old(p.Image()), p.Root(), old(p.pmm.own), p.pmm.own)
              && AllReturned(old(p.Image()), old(p.pmm.own), p.pmm.own, p.Root())
              && (TreesOk(p.Image(), p.pmm.own) <==> SharesNothing(old(p.Image()), old(p.pmm.own), p.Root()))
  {
    hide TablesOk, DataOk, UppersOk, LowerOk, MappingsOk, Used, Translation, TableAt, TornDown, Freeable, KernelLinked;
    hide SharesNothing, UpperOk, FreesLinked;
    p.ref_count := p.ref_count - 1;
    if p.ref_count > 0 {
      return;
    }
    ghost var img, own, root := p.Image(), p.pmm.own, p.Root();
    RootTree(img, own, root);
    LedgerFits(img, own, p.pmm.bitmap);
    TornDownIsTheTree(img, own, root);
    FreeTables(p.pmm, p.pml4_phys);
    TreeGone(img, own, p.Image(), p.pmm.own, p.pmm.bitmap, root);
  }

  lemma RootTree(img: Image, own: Ledger, root: nat)
    requires TreesOk(img, own) && IsRoot(own, root)
    ensures TablesOk(img, own, root) && UpperOk(img, own, root)
  {
    assert HasUpper(own, root);
  }

  /** Every page of every entry is visited when the whole lower half is dropped. */
  lemma WholeMapVisited(own: Ledger, root: nat, infos: seq<Info>)
    requires Coverage(own, root, infos) && PageAligned(infos) && Sorted(infos, 0, LOWER_END)
    ensures forall p :: 0 <= p < |own| && IsData(own, root, p) ==> Visited(infos, 0, LOWER_END, own[p].vpn)
  {
    forall p | 0 <= p < |own| && IsData(own, root, p) ensures Visited(infos, 0, LOWER_END, own[p].vpn) {
      var i :| 0 <= i < |infos| && infos[i].Covers(own[p].vpn * 4096);
      assert Visits(infos[i], 0, LOWER_END, own[p].vpn);
    }
  }

  lemma SlotsTail(nodes: seq<Entry>, hhdm: nat, live: set<nat>)
    requires SlotsLive(nodes, hhdm, live) && nodes != []
    ensures LiveElement(hhdm, live, nodes[0].slot)
    ensures SlotsLive(nodes[1..], hhdm, live - {(nodes[0].slot - hhdm) / 8})
  {
    hide SlotsLive, LiveElement;
    SlotsWithout(nodes, hhdm, live, 0);
    assert nodes[..0] + nodes[0 + 1..] == nodes[1..];
  }

  /** State of the entry loop of vm_map_destroy after `i` entries. */
  ghost predicate Releasing(m: Map, img: Image, own: Ledger, bm: nat, i: nat)
    reads m, m.header, m.nodes, m.zone, m.pmap, m.pmm, m.pmm.mem.frame
  {
    && i <= |m.nodes| && m.Memory() && m.zone.Valid() && m.pmm.bitmap == bm
    && SlotsLive(m.nodes[i..], m.pmm.mem.hhdm, m.zone.live)
    && Unmapped(img, own, m.Image(), m.pmm.own, bm, m.Root(), Infos(m.nodes[..i]), 0, LOWER_END)
  }

  lemma SlotSetNext(nodes: seq<Entry>, hhdm: nat, i: nat)
    requires i < |nodes| && nodes[i].slot >= hhdm
    ensures SlotSet(nodes[..i + 1], hhdm) == SlotSet(nodes[..i], hhdm) + {(nodes[i].slot - hhdm) / 8}
  {
    assert nodes[..i + 1] == nodes[..i] + [nodes[i]];
    forall e | e in nodes[..i] ensures e in nodes[..i + 1] {}
    assert nodes[..i + 1][i] == nodes[i];
  }

  method ReleaseNext(m: Map, e: Entry, ghost img: Image, ghost own: Ledger, ghost bm: nat, ghost i: nat)
    requires Releasing(m, img, own, bm, i) && i < |m.nodes| && e == m.nodes[i]
    requires e.end < LOWER_END && e.Contents().Overlaps(0, LOWER_END) && IsRoot(own, m.Root())
    modifies m.zone, m.pmm, m.pmm.mem.frame
    ensures Releasing(m, img, own, bm, i + 1)
    ensures e.slot >= m.pmm.mem.hhdm && m.zone.live == old(m.zone.live) - {m.zone.SlotOf(e.slot)}
  {
    hide TablesOk, DataOk, TreesOk, MappingsOk, BitmapOk, Translation, Unmapped, Partitioned, ListOk, SlotsLive;
    ghost var img1, own1 := m.Image(), m.pmm.own;
    assert e == m.nodes[i..][0] && m.nodes[i..][1..] == m.nodes[i + 1..];
    assert m.nodes[..i + 1] == m.nodes[..i] + [e];
    assert Infos(m.nodes[..i + 1]) == Infos(m.nodes[..i]) + [e.Contents()];
    SlotsTail(m.nodes[i..], m.pmm.mem.hhdm, m.zone.live);
    m.ReleaseEntry(e, 0, LOWER_END);
    UnmappedTransitive(img, own, img1, own1, m.Image(), m.pmm.own, bm, m.Root(),
                       Infos(m.nodes[..i]), [e.Contents()], 0, LOWER_END);
  }

  lemma ReleasingStarts(m: Map)
    requires m.Valid()
    ensures Releasing(m, m.Image(), m.pmm.own, m.pmm.bitmap, 0) && LiveAfter(m, m.zone.live, 0)
    ensures Ordered(m)
    ensures m.header.next == NodeAt(m.header, m.nodes, 1) && IsRoot(m.pmm.own, m.Root()) && m.zone.pmm == m.pmm
  {
    hide TablesOk, DataOk, TreesOk, MappingsOk, BitmapOk, Translation, Unmapped, Partitioned, ListOk, SlotsLive, Coverage;
    RingEnds(m.header, m.nodes);
    UnmappedNone(m.Image(), m.pmm.own, m.pmm.bitmap, m.Root(), 0, LOWER_END);
    assert m.nodes[..0] == [] && m.nodes[0..] == m.nodes && Infos(m.nodes[..0]) == [];
    LiveBounds(m, m.zone.live);
  }

  /** The zone elements of the first `i` entries are live no more. */
  ghost predicate LiveAfter(m: Map, live: set<nat>, i: nat)
    reads m, m.zone
  {
    i <= |m.nodes| && m.zone.live == live - SlotSet(m.nodes[..i], m.pmm.mem.hhdm)
  }

  lemma LiveBounds(m: Map, live: set<nat>)
    ensures m.zone.live == live ==> LiveAfter(m, live, 0)
    ensures LiveAfter(m, live, |m.nodes|) ==> m.zone.live == live - SlotSet(m.nodes, m.pmm.mem.hhdm)
  {
    assert m.nodes[..|m.nodes|] == m.nodes && SlotSet(m.nodes[..0], m.pmm.mem.hhdm) == {};
  }

  method ReleaseCounted(m: Map, e: Entry, ghost img: Image, ghost own: Ledger, ghost bm: nat, ghost live: set<nat>, ghost i: nat)
    requires Releasing(m, img, own, bm, i) && LiveAfter(m, live, i) && i < |m.nodes| && e == m.nodes[i] && m.zone.pmm == m.pmm
    requires e.end < LOWER_END && e.Contents().Overlaps(0, LOWER_END) && IsRoot(own, m.Root())
    modifies m.zone, m.pmm, m.pmm.mem.frame
    ensures Releasing(m, img, own, bm, i + 1) && LiveAfter(m, live, i + 1)
  {
    hide Releasing, SlotSet, IsRoot;
    ghost var gone := SlotSet(m.nodes[..i], m.pmm.mem.hhdm);
    ReleaseNext(m, e, img, own, bm, i);
    SlotSetNext(m.nodes, m.pmm.mem.hhdm, i);
    assert live - gone - {m.zone.SlotOf(e.slot)} == live - (gone + {m.zone.SlotOf(e.slot)});
  }

  /** What the entry loop needs of the list, which it leaves as it is. */
  ghost predicate Ordered(m: Map)
    reads m, m.header, m.nodes
  {
    Ring(m.header, m.nodes) && Sorted(m.Contents(), m.min_offset, m.max_offset) && m.max_offset < LOWER_END
  }

  /** The node the entry loop is at, unless it has come back to the header. */
  lemma EntryAt(m: Map, e: Entry, i: nat)
    requires Ordered(m) && i <= |m.nodes| && e == NodeAt(m.header, m.nodes, i + 1) && e != m.header
    ensures i < |m.nodes| && e == m.nodes[i] && e.next == NodeAt(m.header, m.nodes, i + 2)
    ensures e.end < LOWER_END && e.Contents().Overlaps(0, LOWER_END)
  {
    assert NodeAt(m.header, m.nodes, i + 1).next == NodeAt(m.header, m.nodes, i + 2);
    assert m.Contents()[i] == e.Contents();
  }

  /** Back at the header, every entry has been visited. */
  lemma HeaderLast(m: Map, i: nat)
    requires Ordered(m) && i <= |m.nodes| && m.header == NodeAt(m.header, m.nodes, i + 1)
    ensures i == |m.nodes|
  {}

  /** One turn of the entry loop: releases the entry and returns the one after it. */
  method ReleaseTurn(m: Map, e: Entry, ghost img: Image, ghost own: Ledger, ghost bm: nat, ghost live: set<nat>, ghost i: nat)
    returns (next: Entry)
    requires Ordered(m) && i <= |m.nodes| && e == NodeAt(m.header, m.nodes, i + 1) && e != m.header
    requires Releasing(m, img, own, bm, i) && LiveAfter(m, live, i) && m.zone.pmm == m.pmm && IsRoot(own, m.Root())
    modifies m.zone, m.pmm, m.pmm.mem.frame
    ensures i < |m.nodes| && next == NodeAt(m.header, m.nodes, i + 2) && Ordered(m)
    ensures Releasing(m, img, own, bm, i + 1) && LiveAfter(m, live, i + 1)
  {
    hide Releasing, LiveAfter, Ordered, IsRoot, NodeAt;
    EntryAt(m, e, i);
    next := e.next;
    ReleaseCounted(m, e, img, own, bm, live, i);
  }

  /** The entry loop of vm_map_destroy, from a start that `img`, `own`, `bm` and `live` describe. */
  method ReleaseLoop(m: Map, ghost img: Image, ghost own: Ledger, ghost bm: nat, ghost live: set<nat>)
    requires Ordered(m) && Releasing(m, img, own, bm, 0) && LiveAfter(m, live, 0)
    requires m.header.next == NodeAt(m.header, m.nodes, 1) && m.zone.pmm == m.pmm && IsRoot(own, m.Root())
    modifies m.zone, m.pmm, m.pmm.mem.frame
    ensures Releasing(m, img, own, bm, |m.nodes|) && LiveAfter(m, live, |m.nodes|)
  {
    hide Releasing, LiveAfter, Ordered, IsRoot, NodeAt;
    var e := m.header.next;
    ghost var i := 0;
    while e != m.header
      invariant 0 <= i <= |m.nodes| && e == NodeAt(m.header, m.nodes, i + 1)
      invariant Releasing(m, img, own, bm, i) && LiveAfter(m, live, i) && Ordered(m)
      decreases |m.nodes| - i
    {
      e := ReleaseTurn(m, e, img, own, bm, live, i);
      i := i + 1;
    }
    HeaderLast(m, i);
  }

  /** ... which unmaps every page of every entry and frees the entry. */
  method ReleaseEntries(m: Map)
    requires m.Valid()
    modifies m.zone, m.pmm, m.pmm.mem.frame
    ensures m.Memory() && m.zone.Valid() && m.pmm.bitmap == old(m.pmm.bitmap)
    ensures Unmapped(old(m.Image()), old(m.pmm.own), m.Image(), m.pmm.own, m.pmm.bitmap, m.Root(),
                     m.Contents(), 0, LOWER_END)
    ensures LiveAfter(m, old(m.zone.live), |m.nodes|)
  {
    hide Releasing, Unmapped, Map.Valid, Map.Sound, Map.Memory, IsRoot, Infos, Ordered, LiveAfter, Zone.Valid, NodeAt;
    ghost var img, own, bm, live := m.Image(), m.pmm.own, m.pmm.bitmap, m.zone.live;
    ReleasingStarts(m);
    ReleaseLoop(m, img, own, bm, live);
    ReleasedAll(m, img, own, bm);
  }

  lemma ReleasedAll(m: Map, img: Image, own: Ledger, bm: nat)
    requires Releasing(m, img, own, bm, |m.nodes|)
    ensures m.Memory() && m.zone.Valid() && m.pmm.bitmap == bm
    ensures Unmapped(img, own, m.Image(), m.pmm.own, bm, m.Root(), m.Contents(), 0, LOWER_END)
  {
    assert m.nodes[..|m.nodes|] == m.nodes;
  }

  /** Everything vm_map_destroy does before it turns to the page table. */
  method ReleaseMap(m: Map)
    requires m.Valid()
    modifies m.zone, m.pmm, m.pmm.mem.frame
    ensures m.Memory() && m.zone.Valid() && m.pmm.bitmap == old(m.pmm.bitmap)
    ensures Unmapped(old(m.Image()), old(m.pmm.own), m.Image(), m.pmm.own, m.pmm.bitmap, m.Root(),
                     m.Contents(), 0, LOWER_END)
    ensures forall p :: 0 <= p < |m.pmm.own| ==> !IsData(m.pmm.own, m.Root(), p)
    ensures forall p :: 0 <= p < |old(m.pmm.own)| && IsData(old(m.pmm.own), m.Root(), p) ==>
              Visited(m.Contents(), 0, LOWER_END, old(m.pmm.own)[p].vpn)
    ensures m.zone.live == old(m.zone.live) - SlotSet(m.nodes, m.pmm.mem.hhdm)
  {
    hide TablesOk, DataOk, LowerOk, UppersOk, UpperOk, MappingsOk, BitmapOk, Translation, Partitioned, ListOk, SlotsLive;
    hide Ring, TreesOk, Visited;
    ghost var img, own, bm, root, live := m.Image(), m.pmm.own, m.pmm.bitmap, m.Root(), m.zone.live;
    WholeMapVisited(own, root, m.Contents());
    ReleaseEntries(m);
    LiveBounds(m, live);
    NothingLeft(img, own, m.Image(), m.pmm.own, bm, root, m.Contents());
  }

  /** The frames mapped by `root` have become free. */
  ghost predicate FramesReturned(own: Ledger, own': Ledger, root: nat)
  {
    |own'| == |own| && forall p :: 0 <= p < |own| ==> own'[p] == if IsData(own, root, p) then Owner.Free else own[p]
  }

  /** vm_map_destroy: the last reference gives every frame and every entry back; the pages of the zone stay
      with the zone.  If it also holds the last reference to the page table, it gives every table back, and
      of the kernel's tables it frees those that the upper half leads to, so the other address spaces keep
      theirs if and only if they share none.  Otherwise the page table stays, mapping nothing. */
  method DestroyMap(m: Map)
    requires m.Valid() && m.ref_count > 0 && m.pmap.ref_count > 0
    modifies m`ref_count, m.zone, m.pmap`ref_count, m.pmm, m.pmm.mem.frame
    ensures m.ref_count == old(m.ref_count) - 1 && m.pmm.bitmap == old(m.pmm.bitmap)
    ensures m.pmap.ref_count == if m.ref_count == 0 then old(m.pmap.ref_count) - 1 else old(m.pmap.ref_count)
    ensures m.ref_count > 0 ==> m.Valid() && m.pmm.own == old(m.pmm.own) && m.Image() == old(m.Image())
    ensures m.ref_count == 0 ==>
              && m.pmm.Valid() && LowerOk(m.Image(), m.pmm.own) && MappingsOk(m.Image(), m.pmm.own)
              && OthersSame(old(m.Image()), old(m.pmm.own), m.Image(), m.Root())
              && m.zone.Valid() && m.zone.live == old(m.zone.live) - SlotSet(m.nodes, m.pmm.mem.hhdm)
    ensures m.ref_count == 0 && m.pmap.ref_count == 0 ==>
              && AllReturned(old(m.Image()), old(m.pmm.own), m.pmm.own, m.Root())
              && (TreesOk(m.Image(), m.pmm.own) <==> SharesNothing(old(m.Image()), old(m.pmm.own), m.Root()))
    ensures m.ref_count == 0 && m.pmap.ref_count > 0 ==>
              && FramesReturned(old(m.pmm.own), m.pmm.own, m.Root()) && m.pmap.Valid()
              && forall vpn :: 0 <= vpn < LOWER_PAGES ==> Translation(m.Image(), m.Root(), vpn) == None
  {
    hide TablesOk, DataOk, LowerOk, UppersOk, UpperOk, MappingsOk, BitmapOk, Translation, Partitioned, ListOk, SlotsLive;
    hide Ring, KernelLinked, SharesNothing, TreesOk, AllReturned, FramesReturned, Unmapped, Visited, IsData;
    m.ref_count := m.ref_count - 1;
    if m.ref_count > 0 {
      return;
    }
    ghost var img, own := m.Image(), m.pmm.own;
    ReleaseMap(m);
    ReleasePmap(m, img, own);
  }

  /** The end of vm_map_destroy, from the memory and the ledger that the call started from. */
  method ReleasePmap(m: Map, ghost img: Image, ghost own: Ledger)
    requires m.Memory() && m.zone.Valid() && m.pmap.ref_count > 0
    requires TreesOk(img, own) && MappingsOk(img, own) && BitmapOk(img, own, m.pmm.bitmap) && IsRoot(own, m.Root())
    requires Unmapped(img, own, m.Image(), m.pmm.own, m.pmm.bitmap, m.Root(), m.Contents(), 0, LOWER_END)
    requires forall p :: 0 <= p < |m.pmm.own| ==> !IsData(m.pmm.own, m.Root(), p)
    requires forall p :: 0 <= p < |own| && IsData(own, m.Root(), p) ==> Visited(m.Contents(), 0, LOWER_END, own[p].vpn)
    modifies m.pmap`ref_count, m.pmm, m.pmm.mem.frame
    ensures m.pmap.ref_count == old(m.pmap.ref_count) - 1 && m.pmm.bitmap == old(m.pmm.bitmap)
    ensures m.pmm.Valid() && LowerOk(m.Image(), m.pmm.own) && MappingsOk(m.Image(), m.pmm.own)
    ensures OthersSame(img, own, m.Image(), m.Root()) && m.zone.Valid()
    ensures m.pmap.ref_count == 0 ==>
              && AllReturned(img, own, m.pmm.own, m.Root())
              && (TreesOk(m.Image(), m.pmm.own) <==> SharesNothing(img, own, m.Root()))
    ensures m.pmap.ref_count > 0 ==>
              && FramesReturned(own, m.pmm.own, m.Root()) && m.pmap.Valid()
              && forall vpn :: 0 <= vpn < LOWER_PAGES ==> Translation(m.Image(), m.Root(), vpn) == None
  {
    hide TablesOk, DataOk, LowerOk, UppersOk, UpperOk, MappingsOk, BitmapOk, Translation, Partitioned, ListOk, SlotsLive;
    hide Ring, KernelLinked, SharesNothing, TreesOk, AllReturned, FramesReturned, Visited, IsData;
    ghost var img1, own1, bm, root := m.Image(), m.pmm.own, m.pmm.bitmap, m.Root();
    LedgerFits(img1, own1, bm);
    DestroyAddressSpace(m.pmap);
    if m.pmap.ref_count == 0 {
      ZoneSurvives(img1, own1, m.Image(), m.pmm.own, bm, root, m.zone.id);
      m.zone.Kept();
      Returned(img, own, img1, own1, m.Image(), m.pmm.own, bm, root, m.Contents());
    } else {
      m.zone.Kept();
      StillThere(img, own, img1, own1, bm, root, m.Contents());
    }
  }

  /** Without its entries, a page table that somebody else refers to maps nothing. */
  lemma StillThere(img: Image, own: Ledger, img1: Image, own1: Ledger, bm: nat, root: nat, infos: seq<Info>)
    requires MappingsOk(img, own) && IsRoot(own, root) && Unmapped(img, own, img1, own1, bm, root, infos, 0, LOWER_END)
    requires forall p :: 0 <= p < |own| && IsData(own, root, p) ==> Visited(infos, 0, LOWER_END, own[p].vpn)
    ensures FramesReturned(own, own1, root)
    ensures forall vpn :: 0 <= vpn < LOWER_PAGES ==> Translation(img1, root, vpn) == None
  {
    hide Visited, Translation;
    assert DataOk(img, own, root);
    forall vpn | 0 <= vpn < LOWER_PAGES ensures Translation(img1, root, vpn) == None {
      if Translation(img, root, vpn).Some? {
        assert OwnedAs(own, Frame(Translation(img, root, vpn).value), Data(root, vpn));
      }
    }
  }

  /** pmap_destroy does not concern the pages of a zone. */
  lemma ZoneSurvives(img: Image, own: Ledger, img': Image, own': Ledger, bm: nat, root: nat, id: nat)
    requires BitmapOk(img, own, bm) && SameOutside(img, img', bm) && AllReturned(img, own, own', root)
    ensures |own'| == |own| && forall p :: 0 <= p < |own| ==> (own'[p] == ZonePage(id) <==> own[p] == ZonePage(id))
    ensures forall p :: 0 <= p < |own| && own[p] == ZonePage(id) ==> img'[p] == img[p]
  {
    hide PathAt, Used;
  }

  lemma NothingLeft(img: Image, own: Ledger, img1: Image, own1: Ledger, bm: nat, root: nat, infos: seq<Info>)
    requires Unmapped(img, own, img1, own1, bm, root, infos, 0, LOWER_END)
    requires forall p :: 0 <= p < |own| && IsData(own, root, p) ==> Visited(infos, 0, LOWER_END, own[p].vpn)
    ensures forall p :: 0 <= p < |own1| ==> !IsData(own1, root, p)
  {
    forall p | 0 <= p < |own1| ensures !IsData(own1, root, p) {
      assert IsData(own, root, p) ==> own1[p] == Owner.Free;
    }
  }

  lemma Returned(img: Image, own: Ledger, img1: Image, own1: Ledger, img2: Image, own2: Ledger, bm: nat,
                 root: nat, infos: seq<Info>)
    requires TreesOk(img, own) && BitmapOk(img, own, bm) && IsRoot(own, root)
    requires Unmapped(img, own, img1, own1, bm, root, infos, 0, LOWER_END)
    requires forall p :: 0 <= p < |own| && IsData(own, root, p) ==> Visited(infos, 0, LOWER_END, own[p].vpn)
    requires AllReturned(img1, own1, own2, root) && OthersSame(img1, own1, img2, root)
    ensures AllReturned(img, own, own2, root) && OthersSame(img, own, img2, root)
    ensures SharesNothing(img1, own1, root) <==> SharesNothing(img, own, root)
  {
    hide KernelLinked, UpperOk, Used, Translation, LowerOk;
    forall r | IsRoot(own, r) && r != root ensures SameTranslations(img, img2, r) {
      assert IsRoot(own1, r);
      assert SameTranslations(img, img1, r) && SameTranslations(img1, img2, r);
    }
    forall r | HasUpper(own, r) || HasUpper(own1, r)
      ensures HasUpper(own, r) && HasUpper(own1, r)
      ensures forall p: nat :: KernelLinked(img1, own1, r, p) <==> KernelLinked(img, own, r, p)
    {
      UpperUnmapped(img, own, img1, own1, bm, root, infos, r);
      LinkedSame(img, own, img1, own1, r);
    }
    assert HasUpper(own, root);
  }

  /** Unmapping touches no upper half. */
  lemma UpperUnmapped(img: Image, own: Ledger, img1: Image, own1: Ledger, bm: nat, root: nat, infos: seq<Info>, r: nat)
    requires BitmapOk(img, own, bm) && Unmapped(img, own, img1, own1, bm, root, infos, 0, LOWER_END)
    requires UppersOk(img, own) && (HasUpper(own, r) || HasUpper(own1, r))
    ensures HasUpper(own, r) && HasUpper(own1, r) && UpperOk(img, own, r)
    ensures KernelKept(img, own, img1, own1) && UpperKept(img, img1, r)
  {
    hide Used, Translation, Visited, UpperOk;
    assert forall p: nat :: p < |own| && own[p].Kernel? ==> Plain(own, bm, root, p);
    assert Plain(own, bm, root, r);
  }
}
