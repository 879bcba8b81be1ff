/** hal/x86_64/pmap.c: walking, mapping, unmapping and protecting pages of one address space. */
module Pmap {
  import opened Words
  import opened PhysMem
  import opened Pmm
  import opened PageTable

  /** Every live tree is well formed, no table is left without its tree, and the upper halves are
      the kernel's. */
  ghost predicate TreesOk(img: Image, own: Ledger)
  {
    LowerOk(img, own) && UppersOk(img, own)
  }

  ghost predicate LowerOk(img: Image, own: Ledger)
  {
    && (forall root :: IsRoot(own, root) ==> TablesOk(img, own, root))
    && (forall p :: 0 <= p < |own| && own[p].Table? ==> IsRoot(own, own[p].root))
  }

  /** Pages that a walk from some PML4 reads. */
  predicate InTree(o: Owner) { o.Table? || o.Kernel? }

  ghost predicate Untouched(own: Ledger, bm: nat, root: nat, p: nat)
  {
    !(bm <= p < bm + BITMAP_PAGES) && !(p < |own| && own[p].Free?) && !IsTable(own, root, p)
  }

  /** What linking tables into the tree of `root` may do: turn free pages into tables of that tree
      and write tables of that tree outside the shared upper half; every other page keeps owner and
      contents. */
  ghost predicate GrowsTree(img: Image, own: Ledger, img': Image, own': Ledger, bm: nat, root: nat)
  {
    && |img'| == |img| && |own'| == |own| <= |img|
    && (forall p :: 0 <= p < |own| ==> own'[p] == own[p] || (own[p].Free? && IsTable(own', root, p)))
    && (forall p: nat :: p < |img| && Untouched(own, bm, root, p) ==> img'[p] == img[p])
    && UpperKept(img, img', root)
  }

  /** Growing a tree by empty tables: no translation of any address space changes. */
  ghost predicate GrowsQuietly(img: Image, own: Ledger, img': Image, own': Ledger, bm: nat, root: nat)
  {
    GrowsTree(img, own, img', own', bm, root) && forall r :: IsRoot(own, r) ==> SameTranslations(img, img', r)
  }

  /** What the tree of `root` held in slot `i` of page `p`: nothing, as long as `p` was no table of it. */
  ghost function TreeWord(img: Image, own: Ledger, root: nat, p: nat, i: nat): nat
    requires i < 512
  {
    if IsTable(own, root, p) && p < |img| then img[p][i] else 0
  }

  /** Entries of the tree that changed had bit 0 clear and are links now, with P, W and U set and the
      other low bits clear. */
  ghost predicate OnlyLinks(img: Image, own: Ledger, img': Image, own': Ledger, root: nat)
  {
    forall p: nat, i: nat {:trigger TreeWord(img', own', root, p, i)} ::
      i < 512 && TreeWord(img', own', root, p, i) != TreeWord(img, own, root, p, i) ==>
        TreeWord(img, own, root, p, i) % 2 == 0 && TreeWord(img', own', root, p, i) % 4096 == 7
  }

  lemma OnlyLinksTransitive(img: Image, own: Ledger, img1: Image, own1: Ledger, img2: Image, own2: Ledger, root: nat)
    requires OnlyLinks(img, own, img1, own1, root) && OnlyLinks(img1, own1, img2, own2, root)
    ensures OnlyLinks(img, own, img2, own2, root)
  {
    hide TreeWord;
    forall p: nat, i: nat | i < 512 && TreeWord(img2, own2, root, p, i) != TreeWord(img, own, root, p, i)
      ensures TreeWord(img, own, root, p, i) % 2 == 0 && TreeWord(img2, own2, root, p, i) % 4096 == 7
    {
      var between := TreeWord(img1, own1, root, p, i);
      assert between % 4096 == 7 ==> between % 2 == 1;
    }
  }

  lemma NoLinkNeeded(img: Image, own: Ledger, root: nat)
    ensures OnlyLinks(img, own, img, own, root)
  {}

  /** A zeroed page becomes a table and is linked from a slot whose entry was not present. */
  lemma OneLink(img: Image, own: Ledger, img1: Image, own1: Ledger, img2: Image, own2: Ledger,
                bm: nat, root: nat, level: nat, idx: nat, t: nat, i: nat, pa: nat)
    requires |img1| == |img| && |own| <= |img| && BitmapOk(img, own, bm) && t < |img| && i < 512
    requires pa % 4096 == 0 && pa / 4096 < |own| && own[pa / 4096].Free? && IsZero(img1[pa / 4096])
    requires own1 == own[pa / 4096 := Owner.Held] && own2 == own1[pa / 4096 := Table(root, level, idx)]
    requires forall p :: 0 <= p < |img| && !(bm <= p < bm + BITMAP_PAGES) && p != pa / 4096 ==> img1[p] == img[p]
    requires pa + 7 < U64 && IsTable(own, root, t) && img[t][i] % 2 == 0
    requires img2 == WithWord(img1, t, i, pa + 7)
    ensures OnlyLinks(img, own, img2, own2, root)
  {
    hide Used;
    assert (pa + 7) % 4096 == 7;
  }

  lemma GrowsTreeTransitive(img: Image, own: Ledger, img1: Image, own1: Ledger, img2: Image, own2: Ledger,
                            bm: nat, root: nat)
    requires GrowsTree(img, own, img1, own1, bm, root) && GrowsTree(img1, own1, img2, own2, bm, root)
    ensures GrowsTree(img, own, img2, own2, bm, root)
  {}

  lemma GrowsQuietlyTransitive(img: Image, own: Ledger, img1: Image, own1: Ledger, img2: Image, own2: Ledger,
                               bm: nat, root: nat)
    requires GrowsQuietly(img, own, img1, own1, bm, root) && GrowsQuietly(img1, own1, img2, own2, bm, root)
    ensures GrowsQuietly(img, own, img2, own2, bm, root)
  {
    GrowsTreeTransitive(img, own, img1, own1, img2, own2, bm, root);
    forall r | IsRoot(own, r) ensures SameTranslations(img, img2, r) {
      assert IsRoot(own1, r);
    }
  }

  lemma FitsImage(img: Image, own: Ledger, root: nat)
    requires TablesOk(img, own, root)
    ensures |own| <= |img|
  {}

  /** Upper halves do not notice writes to pages of no tree. */
  lemma UppersKept(img: Image, own: Ledger, img': Image, own': Ledger)
    requires UppersOk(img, own) && |img'| == |img| && |own'| == |own|
    requires forall p :: 0 <= p < |own| && (InTree(own[p]) || InTree(own'[p])) ==>
               own'[p] == own[p] && (p < |img| ==> img'[p] == img[p])
    ensures UppersOk(img', own')
  {
    forall r | HasUpper(own', r) ensures HasUpper(own, r) && UpperKept(img, img', r) {
      assert HasUpper(own, r) && UpperOk(img, own, r);
    }
    UppersFrame(img, own, img', own');
  }

  /** Writing pages no tree owns keeps every tree and every translation. */
  lemma ForeignWrites(img: Image, own: Ledger, img': Image, own': Ledger)
    requires TreesOk(img, own) && |img'| == |img| && |own'| == |own|
    requires forall p :: 0 <= p < |own| && (InTree(own[p]) || InTree(own'[p])) ==>
               own'[p] == own[p] && (p < |img| ==> img'[p] == img[p])
    ensures TreesOk(img', own')
    ensures forall root :: IsRoot(own, root) ==> SamePaths(img, img', root) && SameTranslations(img, img', root)
  {
    hide UpperOk, TablesOk;
    forall root | IsRoot(own, root) || IsRoot(own', root)
      ensures TablesOk(img', own', root) && SamePaths(img, img', root) && SameTranslations(img, img', root)
    {
      FitsImage(img, own, root);
      TreeFrame(img, img', own, own', root);
    }
    UppersKept(img, own, img', own');
    forall p | 0 <= p < |own'| && own'[p].Table? ensures IsRoot(own', own'[p].root) {
      assert IsRoot(own, own[p].root);
    }
  }

  /** Linking a fresh zeroed table keeps every tree and every translation. */
  lemma LinkKeepsTrees(img: Image, own: Ledger, img': Image, root: nat, level: nat, idx: nat, t: nat, c: nat)
    requires TreesOk(img, own) && IsRoot(own, root)
    requires c < |own| && own[c] == Held
    requires Linked(img, img', own, root, level, idx, t, c)
    requires forall p :: 0 <= p < |img| && p != t && p != c ==> img'[p] == img[p]
    ensures TreesOk(img', own[c := Table(root, level, idx)])
    ensures TableAt(img', root, level, idx) == Some(c)
    ensures forall r :: IsRoot(own, r) ==> SameTranslations(img, img', r)
  {
    var own' := own[c := Table(root, level, idx)];
    LinkTable(img, img', own, root, level, idx, t, c);
    forall r | IsRoot(own, r) && r != root
      ensures TablesOk(img', own', r) && SameTranslations(img, img', r)
    {
      TreeFrame(img, img', own, own', r);
    }
    forall p | 0 <= p < |own'| && own'[p].Table? ensures IsRoot(own', own'[p].root) {
      if p != c { assert IsRoot(own, own[p].root); }
    }
    LinkKeepsUppers(img, own, img', root, level, idx, t, c);
  }

  lemma LinkKeepsUppers(img: Image, own: Ledger, img': Image, root: nat, level: nat, idx: nat, t: nat, c: nat)
    requires UppersOk(img, own) && c < |own| && own[c] == Held && Linked(img, img', own, root, level, idx, t, c)
    requires forall p :: 0 <= p < |img| && p != t && p != c ==> img'[p] == img[p]
    ensures UppersOk(img', own[c := Table(root, level, idx)])
  {
    hide UpperOk;
    var own' := own[c := Table(root, level, idx)];
    forall r | HasUpper(own', r) ensures HasUpper(own, r) && UpperKept(img, img', r) {
      assert r != c;
    }
    UppersFrame(img, own, img', own');
  }

  /** `pa | PTE_P | PTE_W | PTE_U` is present and points back at the table. */
  lemma LinkWord(pa: Word)
    requires pa % 4096 == 0 && pa / 4096 < MAX_PAGES
    ensures pa + 7 < U64 && Present(pa + 7) && Frame(pa + 7) == pa / 4096 && !Huge(pa + 7)
  {
    assert pa == pa / 4096 * 4096;
    assert (pa + 7) / 128 == pa / 4096 * 32;
  }

  /** A table found on a path belongs to the tree, and one more step follows its entry. */
  lemma PathStep(img: Image, own: Ledger, root: nat, level: nat, idx: nat, t: nat)
    requires TablesOk(img, own, root) && 1 <= level <= 3 && idx < Width(level)
    requires TableAt(img, root, level + 1, idx / 512) == Some(t)
    ensures t < |own| && own[t] == Table(root, level + 1, idx / 512)
    ensures TableAt(img, root, level, idx) == Child(img, t, idx % 512)
    ensures TableAt(img, root, level, idx) ==
            if Present(img[t][idx % 512]) then Some(Frame(img[t][idx % 512])) else None
  {}

  lemma AllocatedBeside(img: Image, own: Ledger, bm: nat, t: nat, c: nat)
    requires BitmapOk(img, own, bm)
    requires t < |own| && own[t].Table? && c < |own| && own[c].Free?
    ensures t != c && !(bm <= t < bm + BITMAP_PAGES) && |own| == MAX_PAGES <= |img|
  {}

  lemma GrownByOne(img: Image, own: Ledger, img1: Image, own1: Ledger, img2: Image, own2: Ledger,
                   bm: nat, root: nat, level: nat, idx: nat, t: nat, c: nat)
    requires |img| == |img1| == |img2| && |own| <= |img| && c < |own| && own[c].Free? && IsTable(own, root, t)
    requires own1 == own[c := Held] && own2 == own1[c := Table(root, level, idx)]
    requires forall p :: 0 <= p < |img| && !(bm <= p < bm + BITMAP_PAGES) && p != c ==> img1[p] == img[p]
    requires forall p :: 0 <= p < |img| && p != t ==> img2[p] == img1[p]
    requires t == root ==> UpperKept(img1, img2, root)
    requires root < |own| && own[root].Table? && !(bm <= root < bm + BITMAP_PAGES)
    ensures GrowsTree(img, own, img2, own2, bm, root)
  {}

  /** Exactly one page's translation changes, to `e`. */
  ghost predicate Remapped(img: Image, img': Image, root: nat, vpn: nat, e: Option<Word>)
  {
    forall v {:trigger Translation(img', root, v)} ::
      0 <= v < LOWER_PAGES ==> Translation(img', root, v) == if v == vpn then e else Translation(img, root, v)
  }

  /** Only page tables of `root` are written. */
  ghost predicate OnlyLeavesWritten(img: Image, own: Ledger, img': Image, root: nat)
  {
    |img'| == |img| && forall p: nat :: p < |img| && !IsLeafTable(own, root, p) ==> img'[p] == img[p]
  }

  /** Every other address space translates as before. */
  ghost predicate OthersSame(img: Image, own: Ledger, img': Image, root: nat)
  {
    forall r :: IsRoot(own, r) && r != root ==> SameTranslations(img, img', r)
  }

  /** Writing a leaf entry of `root` keeps every tree and changes one translation. */
  lemma LeafKeepsTrees(img: Image, own: Ledger, img': Image, root: nat, vpn: nat, t: nat, w: Word)
    requires TreesOk(img, own) && IsRoot(own, root) && vpn < LOWER_PAGES
    requires TableAt(img, root, 1, vpn / 512) == Some(t) && t < |img|
    requires img' == WithWord(img, t, vpn % 512, w)
    ensures TreesOk(img', own) && OthersSame(img, own, img', root)
    ensures Remapped(img, img', root, vpn, if Present(w) then Some(w) else None)
  {
    SetLeaf(img, img', own, root, vpn, t, w);
    forall r | IsRoot(own, r) && r != root
      ensures TablesOk(img', own, r) && SameTranslations(img, img', r)
    {
      TreeFrame(img, img', own, own, r);
    }
    LeafTable(img, own, root, vpn, t);
    forall r | HasUpper(own, r) ensures UpperKept(img, img', r) { assert r != t && UpperOk(img, own, r); }
    UppersFrame(img, own, img', own);
  }

  /** Dividing a page number by 512 drops its lowest digit; two numbers equal modulo 2^36 keep
      equal low digits. */
  lemma DropDigit(a: nat, m: nat, v: nat)
    ensures (a * m * 512 + v) / 512 == a * m + v / 512
    ensures (a * m * 512 + v) % 512 == v % 512
  {
    assert a * m * 512 == 512 * (a * m);
  }

  lemma LowDigits(a: nat, v: nat)
    ensures (a * 0x10_0000_0000 + v) / 512 / 512 / 512 % 512 == v / 512 / 512 / 512 % 512
    ensures (a * 0x10_0000_0000 + v) / 512 / 512 % 512 == v / 512 / 512 % 512
    ensures (a * 0x10_0000_0000 + v) / 512 % 512 == v / 512 % 512
    ensures (a * 0x10_0000_0000 + v) % 512 == v % 512
  {
    DropDigit(a, 0x800_0000, v);
    DropDigit(a, 0x4_0000, v / 512);
    DropDigit(a, 0x200, v / 512 / 512);
    DropDigit(a, 1, v / 512 / 512 / 512);
  }

  lemma LeafTable(img: Image, own: Ledger, root: nat, vpn: nat, t: nat)
    requires TablesOk(img, own, root) && vpn < LOWER_PAGES
    requires TableAt(img, root, 1, vpn / 512) == Some(t)
    ensures IsLeafTable(own, root, t)
  {}

  lemma RootPath(img: Image, root: nat)
    ensures TableAt(img, root, 4, 0) == Some(root)
  {}

  /** The index macros are the base-512 digits of the page number. */
  lemma Digits(va: Word)
    ensures va / 0x80_0000_0000 % 512 == Vpn(va) / 512 / 512 / 512 % 512
    ensures va / 0x4000_0000 % 512 == Vpn(va) / 512 / 512 % 512
    ensures va / 0x20_0000 % 512 == Vpn(va) / 512 % 512
    ensures va / 0x1000 % 512 == Vpn(va) % 512
  {
    var q := va / 4096;
    LowDigits(q / 0x10_0000_0000, Vpn(va));
    assert q == q / 0x10_0000_0000 * 0x10_0000_0000 + Vpn(va);
    assert va / 0x20_0000 == q / 512;
    assert va / 0x4000_0000 == q / 512 / 512;
    assert va / 0x80_0000_0000 == q / 512 / 512 / 512;
  }

  // ---- the translation, told by the bits of the address and of the entries ------------------------

  /** Where entry `i` of a table leads, if bit 0 of it is set. */
  ghost function Follow(img: Image, t: Option<nat>, i: nat): Option<nat>
    requires i < 512
  {
    if t.Some? && t.value < |img| && img[t.value][i] % 2 == 1
    then Some(img[t.value][i] / 4096 % 0x100_0000_0000) else None
  }

  /** The leaf entry of an address: bits 47-39, 38-30 and 29-21 select the tables, bits 20-12 the entry. */
  ghost function LeafOf(img: Image, root: nat, va: Word): Option<Word>
  {
    var pdpt := Follow(img, Some(root), va / 0x80_0000_0000 % 512);
    var pd := Follow(img, pdpt, va / 0x4000_0000 % 512);
    var pt := Follow(img, pd, va / 0x20_0000 % 512);
    if pt.Some? && pt.value < |img| && img[pt.value][va / 0x1000 % 512] % 2 == 1
    then Some(img[pt.value][va / 0x1000 % 512]) else None
  }

  /** The flat map is that translation. */
  lemma LeafIsTranslation(img: Image, root: nat, va: Word)
    ensures LeafOf(img, root, va) == Translation(img, root, va / 4096 % 0x10_0000_0000)
  {
    var vpn := va / 4096 % 0x10_0000_0000;
    Digits(va);
    PagesBelow(va);
    TableStep(img, root, 3, vpn / 512 / 512 / 512);
    TableStep(img, root, 2, vpn / 512 / 512);
    TableStep(img, root, 1, vpn / 512);
    RootPath(img, root);
    hide TableAt, Follow;
  }

  lemma TableStep(img: Image, root: nat, level: nat, idx: nat)
    requires 1 <= level <= 3
    ensures TableAt(img, root, level, idx) == Follow(img, TableAt(img, root, level + 1, idx / 512), idx % 512)
  {}

  /** Prefixes of a lower-half page number name tables within each level's width. */
  lemma Prefixes(vpn: nat)
    requires vpn < LOWER_PAGES
    ensures vpn / 512 / 512 / 512 < Width(3) && vpn / 512 / 512 < Width(2) && vpn / 512 < Width(1)
    ensures vpn / 512 / 512 / 512 / 512 == 0
  {}

  /** Without an upper table there is no leaf table. */
  lemma BrokenPath(img: Image, root: nat, vpn: nat)
    ensures TableAt(img, root, 3, vpn / 512 / 512 / 512) == None ==> TableAt(img, root, 2, vpn / 512 / 512) == None
    ensures TableAt(img, root, 2, vpn / 512 / 512) == None ==> TableAt(img, root, 1, vpn / 512) == None
  {}

  /** The tables that a walk to `vpn` reads lie in memory. */
  ghost predicate WalkInMemory(img: Image, root: nat, vpn: nat)
  {
    && root < |img|
    && (match TableAt(img, root, 3, vpn / 512 / 512 / 512) case None => true case Some(t) => t < |img|)
    && (match TableAt(img, root, 2, vpn / 512 / 512) case None => true case Some(t) => t < |img|)
    && (match TableAt(img, root, 1, vpn / 512) case None => true case Some(t) => t < |img|)
  }

  lemma LowerWalk(img: Image, own: Ledger, root: nat, vpn: nat)
    requires TablesOk(img, own, root) && IsRoot(own, root) && vpn < LOWER_PAGES
    ensures WalkInMemory(img, root, vpn)
  {
    Prefixes(vpn);
    hide TableAt, Width;
  }

  /** In the upper half the walk reads tables of the kernel, unless it meets a large page. */
  lemma KernelWalk(img: Image, own: Ledger, root: nat, vpn: nat)
    requires UpperOk(img, own, root) && LOWER_PAGES <= vpn < 2 * LOWER_PAGES && !LargeOnPath(img, root, 1, vpn / 512)
    ensures WalkInMemory(img, root, vpn)
  {
    LargePageTakenForTable(img, root, 1, vpn / 512);
    LargePageTakenForTable(img, root, 2, vpn / 512 / 512);
    LargePageTakenForTable(img, root, 3, vpn / 512 / 512 / 512);
    assert !LargeOnPath(img, root, 2, vpn / 512 / 512) && !LargeOnPath(img, root, 3, vpn / 512 / 512 / 512);
    assert Upper(1, vpn / 512) && Upper(2, vpn / 512 / 512) && Upper(3, vpn / 512 / 512 / 512);
    hide PathAt, TableAt, LargeOnPath;
  }

  lemma NextOnPath(img: Image, root: nat, level: nat, idx: nat, t: nat)
    requires 1 <= level <= 3 && TableAt(img, root, level + 1, idx / 512) == Some(t) && t < |img|
    ensures TableAt(img, root, level, idx) ==
            if Present(img[t][idx % 512]) then Some(Frame(img[t][idx % 512])) else None
  {}

  lemma PagesBelow(va: Word)
    ensures Vpn(va) / 512 / 512 / 512 / 512 == 0 && Vpn(va) < 2 * LOWER_PAGES
  {}

  /** pmap_alloc_table: a zeroed page, or PMM_NULL. */
  method AllocTable(pmm: PageAllocator) returns (pa: Word)
    requires pmm.Valid() && TreesOk(pmm.mem.Image(), pmm.own)
    modifies pmm`free_count, pmm`own, pmm.mem.frame
    ensures pmm.Valid() && TreesOk(pmm.mem.Image(), pmm.own) && pa % 4096 == 0
    ensures pa == 0 ==> FreePages(pmm.own) == {} && pmm.own == old(pmm.own) && pmm.mem.Image() == old(pmm.mem.Image())
    ensures pa != 0 ==>
              && 0 < pa / 4096 < |pmm.own| == |old(pmm.own)| && old(pmm.own)[pa / 4096] == Free
              && pmm.own == old(pmm.own)[pa / 4096 := Held]
              && IsZero(pmm.mem.Image()[pa / 4096])
    ensures |pmm.mem.Image()| == old(|pmm.mem.Image()|)
    ensures forall p :: 0 <= p < |pmm.mem.Image()| && !(pmm.bitmap <= p < pmm.bitmap + BITMAP_PAGES) && p != pa / 4096
                ==> pmm.mem.Image()[p] == old(pmm.mem.Image())[p]
    ensures forall r :: IsRoot(old(pmm.own), r) ==>
              SamePaths(old(pmm.mem.Image()), pmm.mem.Image(), r)
              && SameTranslations(old(pmm.mem.Image()), pmm.mem.Image(), r)
  {
    hide TablesOk, Used, TableAt, Translation;
    ghost var img, own := pmm.mem.Image(), pmm.own;
    pa := pmm.AllocPage();
    if pa == 0 {
      return;
    }
    pmm.ZeroPage(pa / 4096);
    ForeignWrites(img, own, pmm.mem.Image(), pmm.own);
  }

  class AddressSpace {
    const pmm: PageAllocator
    var pml4_phys: Word
    var ref_count: nat

    constructor (pmm: PageAllocator, pml4_phys: Word)
      ensures this.pmm == pmm && this.pml4_phys == pml4_phys && ref_count == 1
    {
      this.pmm, this.pml4_phys, this.ref_count := pmm, pml4_phys, 1;
    }

    function Root(): nat
      reads this
    {
      pml4_phys / 4096
    }

    ghost function Image(): Image
      reads pmm.mem.frame
    {
      pmm.mem.Image()
    }

    ghost predicate Valid()
      reads this, pmm, pmm.mem.frame
    {
      && pmm.Valid() && TreesOk(Image(), pmm.own)
      && pml4_phys % 4096 == 0 && IsRoot(pmm.own, Root())
    }

    /** `*e = pa | PTE_P | PTE_W | PTE_U` for a fresh zeroed table. */
    method LinkNew(t: nat, i: nat, pa: Word, ghost level: nat, ghost idx: nat)
      requires Valid() && 1 <= level <= 3 && idx < Width(level) && i == idx % 512
      requires TableAt(Image(), Root(), level + 1, idx / 512) == Some(t)
      requires Child(Image(), t, i) == None
      requires pa % 4096 == 0 && 0 < pa / 4096 < MAX_PAGES == |pmm.own|
      requires pmm.own[pa / 4096] == Held && IsZero(Image()[pa / 4096])
      modifies pmm`own, pmm.mem.frame
      ensures Valid()
      ensures TableAt(Image(), Root(), level, idx) == Some(pa / 4096)
      ensures t < |old(Image())| && pa + 7 < U64 && Image() == WithWord(old(Image()), t, i, pa + 7)
      ensures pmm.own == old(pmm.own)[pa / 4096 := Table(Root(), level, idx)]
      ensures |Image()| == old(|Image()|) && IsTable(pmm.own, Root(), t)
      ensures t == Root() ==> UpperKept(old(Image()), Image(), Root())
      ensures forall p :: 0 <= p < |Image()| && p != t ==> Image()[p] == old(Image())[p]
      ensures forall r :: IsRoot(old(pmm.own), r) ==> SameTranslations(old(Image()), Image(), r)
    {
      hide TableAt, Translation, BitmapOk, SameTranslations;
      var c := pa / 4096;
      ghost var img, own := Image(), pmm.own;
      assert own[t] == Table(Root(), level + 1, idx / 512);
      LinkWord(pa);
      pmm.WriteWord(t, i, pa + 7);
      assert Linked(img, Image(), own, Root(), level, idx, t, c);
      LinkKeepsTrees(img, own, Image(), Root(), level, idx, t, c);
      pmm.Relabel(c, Table(Root(), level, idx));
    }

    /** One level of pmap_walk: follow entry `i` of table `t`, linking a fresh table if asked to. */
    method Descend(t: nat, i: nat, create: bool, ghost level: nat, ghost idx: nat) returns (next: Option<nat>)
      requires Valid() && 1 <= level <= 3 && idx < Width(level) && i == idx % 512
      requires TableAt(Image(), Root(), level + 1, idx / 512) == Some(t)
      modifies if create then {pmm, pmm.mem.frame} else {}
      ensures Valid() && pmm.bitmap == old(pmm.bitmap)
      ensures TableAt(Image(), Root(), level, idx) == next
      ensures GrowsQuietly(old(Image()), old(pmm.own), Image(), pmm.own, pmm.bitmap, Root())
      ensures OnlyLinks(old(Image()), old(pmm.own), Image(), pmm.own, Root())
      ensures create && next == None ==> FreePages(pmm.own) == {}
    {
      hide TableAt, Translation, BitmapOk, Child, OnlyLinks;
      ghost var img, own := Image(), pmm.own;
      NoLinkNeeded(img, own, Root());
      PathStep(img, own, Root(), level, idx, t);
      var e := pmm.mem.Load(t, i);
      if !Present(e) {
        if !create {
          return None;
        }
        var pa := AllocTable(pmm);
        if pa == 0 {
          return None;
        }
        AllocatedBeside(img, own, pmm.bitmap, t, pa / 4096);
        AllocatedBeside(img, own, pmm.bitmap, Root(), pa / 4096);
        ghost var img1, own1 := Image(), pmm.own;
        PathStep(img1, own1, Root(), level, idx, t);
        LinkNew(t, i, pa, level, idx);
        GrownByOne(img, own, img1, own1, Image(), pmm.own, pmm.bitmap, Root(), level, idx, t, pa / 4096);
        OneLink(img, own, img1, own1, Image(), pmm.own, pmm.bitmap, Root(), level, idx, t, i, pa);
        return Some(pa / 4096);
      }
      return Some(Frame(e));
    }

    /** pmap_walk: the leaf entry for `vaddr` as (table, slot). */
    method Walk(vaddr: Word, create: bool) returns (pte: Option<(nat, nat)>)
      requires Valid() && Vpn(vaddr) < LOWER_PAGES
      modifies if create then {pmm, pmm.mem.frame} else {}
      ensures Valid() && pmm.bitmap == old(pmm.bitmap)
      ensures pte == match TableAt(Image(), Root(), 1, Vpn(vaddr) / 512)
                     case None => None
                     case Some(t) => Some((t, Vpn(vaddr) % 512))
      ensures GrowsQuietly(old(Image()), old(pmm.own), Image(), pmm.own, pmm.bitmap, Root())
      ensures OnlyLinks(old(Image()), old(pmm.own), Image(), pmm.own, Root())
      ensures create && pte == None ==> FreePages(pmm.own) == {}
    {
      hide TableAt, Translation, BitmapOk, TablesOk, TreesOk, GrowsQuietly, Vpn, OnlyLinks;
      ghost var vpn := Vpn(vaddr);
      ghost var img, own := Image(), pmm.own;
      Digits(vaddr);
      Prefixes(vpn);
      RootPath(img, Root());
      var pdpt := Descend(Root(), vaddr / 0x80_0000_0000 % 512, create, 3, vpn / 512 / 512 / 512);
      if pdpt == None {
        BrokenPath(Image(), Root(), vpn);
        return None;
      }
      ghost var img1, own1 := Image(), pmm.own;
      var pd := Descend(pdpt.value, vaddr / 0x4000_0000 % 512, create, 2, vpn / 512 / 512);
      GrowsQuietlyTransitive(img, own, img1, own1, Image(), pmm.own, pmm.bitmap, Root());
      OnlyLinksTransitive(img, own, img1, own1, Image(), pmm.own, Root());
      if pd == None {
        BrokenPath(Image(), Root(), vpn);
        return None;
      }
      ghost var img2, own2 := Image(), pmm.own;
      var pt := Descend(pd.value, vaddr / 0x20_0000 % 512, create, 1, vpn / 512);
      GrowsQuietlyTransitive(img, own, img2, own2, Image(), pmm.own, pmm.bitmap, Root());
      OnlyLinksTransitive(img, own, img2, own2, Image(), pmm.own, Root());
      if pt == None {
        return None;
      }
      return Some((pt.value, vaddr / 0x1000 % 512));
    }

    /** pmap_map: 0 on success, -1 when a table page is missing and memory has run out. */
    method Map(vaddr: Word, paddr: Word, flags: Word) returns (r: int)
      requires Valid() && Vpn(vaddr) < LOWER_PAGES
      modifies pmm, pmm.mem.frame
      ensures Valid() && pmm.bitmap == old(pmm.bitmap)
      ensures r == 0 || r == -1
      ensures r == 0 ==> Remapped(old(Image()), Image(), Root(), Vpn(vaddr), Some(EntryWord(paddr, flags)))
      ensures r == -1 ==> SameTranslations(old(Image()), Image(), Root()) && FreePages(pmm.own) == {}
      ensures OthersSame(old(Image()), old(pmm.own), Image(), Root())
      ensures GrowsTree(old(Image()), old(pmm.own), Image(), pmm.own, pmm.bitmap, Root())
    {
      hide TableAt, Translation, BitmapOk, EntryWord, Vpn;
      ghost var img, own := Image(), pmm.own;
      ghost var vpn := Vpn(vaddr);
      var pte := Walk(vaddr, true);
      if pte == None {
        return -1;
      }
      ghost var img1 := Image();
      var (t, i) := pte.value;
      LeafTable(img1, pmm.own, Root(), vpn, t);
      pmm.WriteWord(t, i, EntryWord(paddr, flags));
      LeafKeepsTrees(img1, pmm.own, Image(), Root(), Vpn(vaddr), t, EntryWord(paddr, flags));
      return 0;
    }

    /** pmap_unmap: -1 when the page is not mapped. */
    method Unmap(vaddr: Word) returns (r: int)
      requires Valid() && Vpn(vaddr) < LOWER_PAGES
      modifies pmm.mem.frame
      ensures Valid()
      ensures r == if Translation(old(Image()), Root(), Vpn(vaddr)).Some? then 0 else -1
      ensures Remapped(old(Image()), Image(), Root(), Vpn(vaddr), None)
      ensures OthersSame(old(Image()), pmm.own, Image(), Root())
      ensures OnlyLeavesWritten(old(Image()), pmm.own, Image(), Root())
    {
      ghost var img := Image();
      var pte := Walk(vaddr, false);
      if pte == None || !Present(pmm.mem.Load(pte.value.0, pte.value.1)) {
        return -1;
      }
      var (t, i) := pte.value;
      LeafTable(img, pmm.own, Root(), Vpn(vaddr), t);
      pmm.WriteWord(t, i, 0);
      LeafKeepsTrees(img, pmm.own, Image(), Root(), Vpn(vaddr), t, 0);
      return 0;
    }

    /** pmap_protect: the frame stays, the flag bits are replaced. */
    method Protect(vaddr: Word, flags: Word) returns (r: int)
      requires Valid() && Vpn(vaddr) < LOWER_PAGES
      modifies pmm.mem.frame
      ensures Valid()
      ensures r == if Translation(old(Image()), Root(), Vpn(vaddr)).Some? then 0 else -1
      ensures Remapped(old(Image()), Image(), Root(), Vpn(vaddr),
                       match Translation(old(Image()), Root(), Vpn(vaddr))
                       case None => None
                       case Some(e) => Some(EntryWord(e, flags)))
      ensures OthersSame(old(Image()), pmm.own, Image(), Root())
      ensures OnlyLeavesWritten(old(Image()), pmm.own, Image(), Root())
    {
      ghost var img := Image();
      var pte := Walk(vaddr, false);
      if pte == None || !Present(pmm.mem.Load(pte.value.0, pte.value.1)) {
        return -1;
      }
      var (t, i) := pte.value;
      var w := EntryWord(pmm.mem.Load(t, i), flags);
      LeafTable(img, pmm.own, Root(), Vpn(vaddr), t);
      pmm.WriteWord(t, i, w);
      LeafKeepsTrees(img, pmm.own, Image(), Root(), Vpn(vaddr), t, w);
      return 0;
    }

    /** Addresses whose walk stays in page tables: all of the lower half, and those of the upper half that
        no large page maps. */
    ghost predicate Walkable(vaddr: Word)
      reads this, pmm.mem.frame
    {
      Vpn(vaddr) < LOWER_PAGES || !LargeOnPath(Image(), Root(), 1, Vpn(vaddr) / 512)
    }

    lemma WalkableInMemory(vaddr: Word)
      requires Valid() && Walkable(vaddr)
      ensures WalkInMemory(Image(), Root(), Vpn(vaddr))
    {
      hide TablesOk, UpperOk, TableAt, LargeOnPath, WalkInMemory, Used;
      PagesBelow(vaddr);
      if Vpn(vaddr) < LOWER_PAGES {
        LowerWalk(Image(), pmm.own, Root(), Vpn(vaddr));
      } else {
        assert HasUpper(pmm.own, Root());
        KernelWalk(Image(), pmm.own, Root(), Vpn(vaddr));
      }
    }

    /** pmap_walk without creating tables, for an address of either half. */
    method Find(vaddr: Word) returns (pte: Option<(nat, nat)>)
      requires WalkInMemory(Image(), Root(), Vpn(vaddr))
      ensures pte == match TableAt(Image(), Root(), 1, Vpn(vaddr) / 512)
                     case None => None
                     case Some(t) => Some((t, Vpn(vaddr) % 512))
    {
      hide TableAt, Vpn;
      ghost var vpn := Vpn(vaddr);
      Digits(vaddr);
      PagesBelow(vaddr);
      RootPath(Image(), Root());
      BrokenPath(Image(), Root(), vpn);
      NextOnPath(Image(), Root(), 3, vpn / 512 / 512 / 512, Root());
      var e4 := pmm.mem.Load(Root(), vaddr / 0x80_0000_0000 % 512);
      if !Present(e4) {
        return None;
      }
      NextOnPath(Image(), Root(), 2, vpn / 512 / 512, Frame(e4));
      var e3 := pmm.mem.Load(Frame(e4), vaddr / 0x4000_0000 % 512);
      if !Present(e3) {
        return None;
      }
      NextOnPath(Image(), Root(), 1, vpn / 512, Frame(e3));
      var e2 := pmm.mem.Load(Frame(e3), vaddr / 0x20_0000 % 512);
      if !Present(e2) {
        return None;
      }
      return Some((Frame(e2), vaddr / 0x1000 % 512));
    }

    /** pmap_query: the physical address, or 0 when the page is not mapped. */
    method Query(vaddr: Word) returns (pa: Word)
      requires Valid() && Walkable(vaddr)
      ensures pa == match Translation(Image(), Root(), Vpn(vaddr))
                    case None => 0
                    case Some(e) => Frame(e) * 4096 + vaddr % 4096
      ensures pa == match LeafOf(Image(), pml4_phys / 4096, vaddr)
                    case None => 0
                    case Some(e) => e / 4096 % 0x100_0000_0000 * 4096 + vaddr % 4096
    {
      WalkableInMemory(vaddr);
      LeafIsTranslation(Image(), Root(), vaddr);
      hide Valid, Walkable, LeafOf;
      var pte := Find(vaddr);
      if pte == None || !Present(pmm.mem.Load(pte.value.0, pte.value.1)) {
        return 0;
      }
      return Frame(pmm.mem.Load(pte.value.0, pte.value.1)) * 4096 + vaddr % 4096;
    }
  }
}
