/** What mapping fresh pages into an address space does to translations and page ownership. */
module VmWire {
  import opened Words
  import opened PhysMem
  import opened Pmm
  import opened PageTable
  import opened Pmap
  import opened Mappings
  import opened Zalloc
  import opened VmList
  import opened VmUnmap

  // ---- mapping fresh pages -------------------------------------------------------------------

  /** `vpn` is mapped to a zeroed frame with the flags `pte`. */
  ghost predicate FreshPage(img: Image, root: nat, vpn: nat, pte: Word)
  {
    && Translation(img, root, vpn).Some?
    && var w := Translation(img, root, vpn).value;
       Frame(w) * 4096 < U64 && w == EntryWord(Frame(w) * 4096, pte) && Frame(w) < |img| && IsZero(img[Frame(w)])
  }

  /** Only free pages change owner: to a table of `root` or, if `vpn` got mapped, to its frame. */
  ghost predicate TakesFree(own: Ledger, own': Ledger, root: nat, mapped: bool, vpn: nat)
  {
    |own'| == |own| && forall p :: 0 <= p < |own| ==>
      own'[p] == own[p]
      || (own[p].Free? && (IsTable(own', root, p) || (mapped && own'[p] == Data(root, vpn))))
  }

  ghost predicate UsedKept(img: Image, own: Ledger, img': Image, bm: nat, root: nat)
  {
    |img'| == |img| && forall p: nat :: p < |img| && Untouched(own, bm, root, p) ==> img'[p] == img[p]
  }

  lemma AfterAlloc(img: Image, own: Ledger, img': Image, bm: nat, p: nat)
    requires TreesOk(img, own) && MappingsOk(img, own) && BitmapOk(img, own, bm)
    requires p < |own| && own[p] == Owner.Free && |img'| == |img|
    requires forall q :: 0 <= q < |img| && !(bm <= q < bm + BITMAP_PAGES) && q != p ==> img'[q] == img[q]
    ensures TreesOk(img', own[p := Held]) && MappingsOk(img', own[p := Held])
    ensures forall r :: IsRoot(own, r) ==> SameTranslations(img, img', r)
  {
    hide TablesOk, DataOk, Used;
    ForeignWrites(img, own, img', own[p := Held]);
    KeepMappings(img, own, img', own[p := Held]);
  }

  lemma AfterFree(img: Image, own: Ledger, img': Image, bm: nat, p: nat)
    requires TreesOk(img, own) && MappingsOk(img, own) && BitmapOk(img, own, bm)
    requires p < |own| && own[p] == Held && SameOutside(img, img', bm)
    ensures TreesOk(img', own[p := Owner.Free]) && MappingsOk(img', own[p := Owner.Free])
    ensures forall r :: IsRoot(own, r) ==> SameTranslations(img, img', r)
  {
    hide TablesOk, DataOk, Used;
    ForeignWrites(img, own, img', own[p := Owner.Free]);
    KeepMappings(img, own, img', own[p := Owner.Free]);
  }

  /** Growing the tree neither adds nor removes a root. */
  lemma SameRoots(img: Image, own: Ledger, img': Image, own': Ledger, bm: nat, root: nat)
    requires GrowsTree(img, own, img', own', bm, root) && IsRoot(own, root)
    ensures forall r :: IsRoot(own, r) <==> IsRoot(own', r)
  {}

  /** pmap_map of a held frame at an unmapped page, as a change of the ledger. */
  lemma AfterMap(img: Image, own: Ledger, img': Image, own': Ledger, bm: nat, root: nat, vpn: nat, w: Word)
    requires MappingsOk(img, own) && IsRoot(own, root) && vpn < LOWER_PAGES
    requires GrowsTree(img, own, img', own', bm, root) && TreesOk(img', own')
    requires Translation(img, root, vpn) == None
    requires Remapped(img, img', root, vpn, Some(w)) && OthersSame(img, own, img', root)
    requires Frame(w) < |own| && own[Frame(w)] == Held
    ensures TreesOk(img', own'[Frame(w) := Data(root, vpn)]) && MappingsOk(img', own'[Frame(w) := Data(root, vpn)])
  {
    hide TablesOk, DataOk, Translation;
    SameRoots(img, own, img', own', bm, root);
    KeepMappings(img, own, img, own');
    AddMapping(img, own', img', root, vpn, w);
    ForeignWrites(img', own', img', own'[Frame(w) := Data(root, vpn)]);
  }

  /** pmap_map writes no frame held elsewhere. */
  lemma HeldKept(img: Image, own: Ledger, img': Image, own': Ledger, bm: nat, root: nat, p: nat)
    requires BitmapOk(img, own, bm) && GrowsTree(img, own, img', own', bm, root)
    requires p < |own| && own[p] == Held
    ensures img'[p] == img[p] && own'[p] == Held && p < |img|
  {}

  /** The four stages of MapFreshPage: take and zero `p`, run pmap_map, then keep or return `p`. */
  lemma MapStages(img: Image, own: Ledger, img2: Image, img3: Image, own3: Ledger, img4: Image,
                  bm: nat, root: nat, p: nat, vpn: nat, mapped: bool)
    requires IsRoot(own, root) && |own| <= |img| && p < |own| && own[p] == Owner.Free
    requires |img2| == |img|
    requires forall q :: 0 <= q < |img| && !(bm <= q < bm + BITMAP_PAGES) && q != p ==> img2[q] == img[q]
    requires forall r :: IsRoot(own, r) ==> SameTranslations(img, img2, r)
    requires OthersSame(img2, own[p := Held], img3, root)
    requires GrowsTree(img2, own[p := Held], img3, own3, bm, root)
    requires SameOutside(img3, img4, bm) && forall r :: IsRoot(own3, r) ==> SameTranslations(img3, img4, r)
    ensures OthersSame(img, own, img4, root)
    ensures TakesFree(own, own3[p := if mapped then Data(root, vpn) else Owner.Free], root, mapped, vpn)
    ensures UsedKept(img, own, img4, bm, root)
  {
    var own2 := own[p := Held];
    forall r | IsRoot(own, r) && r != root ensures SameTranslations(img, img4, r) {
      assert IsRoot(own2, r) && IsRoot(own3, r);
    }
    forall q: nat | q < |img| && Untouched(own, bm, root, q) ensures img4[q] == img[q] {
      assert Untouched(own2, bm, root, q);
    }
  }

  /** The page just mapped is fresh, and it is the only one that changed. */
  lemma FreshlyMapped(img: Image, img2: Image, img3: Image, root: nat, vpn: nat, pa: Word, pte: Word)
    requires vpn < LOWER_PAGES && SameTranslations(img, img2, root)
    requires Remapped(img2, img3, root, vpn, Some(EntryWord(pa, pte)))
    requires pa % 4096 == 0 && pa / 4096 < MAX_PAGES && pa / 4096 < |img3| && IsZero(img3[pa / 4096])
    ensures Remapped(img, img3, root, vpn, Translation(img3, root, vpn)) && FreshPage(img3, root, vpn, pte)
    ensures Frame(EntryWord(pa, pte)) == pa / 4096
  {
    hide EntryWord, Translation;
    assert Translation(img3, root, vpn) == Some(EntryWord(pa, pte));
    assert pa == pa / 4096 * 4096;
  }

  /** Nothing is mapped when pmap_map fails. */
  lemma StillSame(img: Image, img2: Image, img3: Image, img4: Image, root: nat)
    requires SameTranslations(img, img2, root) && SameTranslations(img2, img3, root) && SameTranslations(img3, img4, root)
    ensures SameTranslations(img, img4, root)
  {
    hide Translation;
  }

  lemma AfterFailedMap(img: Image, own: Ledger, img': Image, own': Ledger, bm: nat, root: nat)
    requires MappingsOk(img, own) && IsRoot(own, root) && GrowsTree(img, own, img', own', bm, root)
    requires OthersSame(img, own, img', root) && SameTranslations(img, img', root)
    ensures MappingsOk(img', own')
  {
    hide TablesOk, DataOk, Translation;
    SameRoots(img, own, img', own', bm, root);
    KeepMappings(img, own, img', own');
  }

  // ---- rights of leaf entries ------------------------------------------------------------------

  /** The leaf word of `vpn` grants what `prot` says: bit 0 is set, bit 1 is the write right, bit 63 is set
      when execution is not allowed, and bits 2 to 11 and 52 to 62 are clear; the frame is zeroed. */
  ghost predicate LeafRights(img: Image, root: nat, vpn: nat, prot: nat)
  {
    match Translation(img, root, vpn)
    case None => false
    case Some(w) =>
      && w % 2 == 1 && (w / 2 % 2 == 1 <==> prot / 2 % 2 == 1)
      && (w / 0x8000_0000_0000_0000 == 1 <==> prot / 4 % 2 == 0)
      && w % 4096 < 4 && w / 0x10_0000_0000_0000 % 2048 == 0
      && var p := w / 4096 % 0x100_0000_0000;
         p < |img| && forall i :: 0 <= i < 512 ==> img[p][i] == 0
  }

  lemma WordRights(paddr: Word, prot: nat)
    ensures var w := EntryWord(paddr, ProtToPte(prot));
            && w % 2 == 1 && (w / 2 % 2 == 1 <==> prot / 2 % 2 == 1)
            && (w / 0x8000_0000_0000_0000 == 1 <==> prot / 4 % 2 == 0)
            && w % 4096 < 4 && w / 0x10_0000_0000_0000 % 2048 == 0
  {
    var f, w := ProtToPte(prot), EntryWord(paddr, ProtToPte(prot));
    hide EntryWord;
    assert f % 4096 == if prot / 2 % 2 == 1 then 2 else 0;
    assert f / 0x10_0000_0000_0000 == if prot / 4 % 2 == 0 then 2048 else 0;
    LowTwo(w);
    TopBit(w);
  }

  lemma LowTwo(w: nat)
    requires w % 4096 < 4
    ensures w % 2 == w % 4096 % 2 && w / 2 % 2 == w % 4096 / 2
  {
    var q := w / 4096;
    assert w == 4096 * q + w % 4096;
    assert w / 2 == 2048 * q + w % 4096 / 2;
  }

  lemma TopBit(w: Word)
    ensures w / 0x8000_0000_0000_0000 == w / 0x10_0000_0000_0000 / 2048
  {}

  /** A fresh page has the rights of `prot`. */
  lemma FreshRights(img: Image, root: nat, vpn: nat, prot: nat)
    requires FreshPage(img, root, vpn, ProtToPte(prot))
    ensures LeafRights(img, root, vpn, prot)
  {
    hide Translation, EntryWord, ProtToPte;
    var w := Translation(img, root, vpn).value;
    WordRights(Frame(w) * 4096, prot);
  }

  /** So have all pages of a wired range. */
  lemma WiredRights(img: Image, own: Ledger, img': Image, own': Ledger, root: nat, zoneId: nat, first: nat, next: nat,
                    prot: nat)
    requires WiredSoFar(img, own, img', own', root, zoneId, first, next, ProtToPte(prot)) && next <= LOWER_PAGES
    ensures forall v: nat :: first <= v < next ==> LeafRights(img', root, v, prot)
    ensures forall v: nat :: v < LOWER_PAGES && !(first <= v < next) ==>
              Translation(img', root, v) == Translation(img, root, v)
  {
    hide FreshPage, Translation, LeafRights, OthersSame, WiredLedger, FramesKept;
    forall v: nat | first <= v < next ensures LeafRights(img', root, v, prot) {
      var tr := Translation(img', root, v);
      assert FreshPage(img', root, v, ProtToPte(prot));
      FreshRights(img', root, v, prot);
    }
  }

  // ---- vm_map_enter --------------------------------------------------------------------------

  /** A zone allocation moves no table, no frame and no translation. */
  lemma AfterZone(img: Image, own: Ledger, img': Image, own': Ledger, bm: nat, id: nat)
    requires TreesOk(img, own) && MappingsOk(img, own) && BitmapOk(img, own, bm)
    requires ZoneStep(img, own, img', own', bm, id)
    ensures TreesOk(img', own') && MappingsOk(img', own')
    ensures forall r :: IsRoot(own, r) ==> IsRoot(own', r) && SameTranslations(img, img', r)
  {
    hide TablesOk, DataOk, Used, Translation;
    ForeignWrites(img, own, img', own');
    KeepMappings(img, own, img', own');
  }

  /** What one call may do besides its own pages: turn free pages into tables of `root` or into
      pages of the entry zone. */
  ghost predicate Overhead(own: Ledger, own': Ledger, root: nat, zoneId: nat)
  {
    |own'| == |own| && forall p :: 0 <= p < |own| ==>
      own'[p] == own[p] || (own[p].Free? && (IsTable(own', root, p) || own'[p] == ZonePage(zoneId)))
  }

  ghost predicate WiredPages(img: Image, img': Image, root: nat, first: nat, next: nat, pte: Word)
  {
    forall v {:trigger Translation(img', root, v)} :: 0 <= v < LOWER_PAGES ==>
      if first <= v < next then FreshPage(img', root, v, pte)
      else Translation(img', root, v) == Translation(img, root, v)
  }

  ghost predicate WiredLedger(own: Ledger, own': Ledger, root: nat, zoneId: nat, first: nat, next: nat)
  {
    |own'| == |own| && forall p :: 0 <= p < |own| ==>
      || own'[p] == own[p]
      || (own[p].Free? && (IsTable(own', root, p) || own'[p] == ZonePage(zoneId)))
      || (own[p].Free? && IsData(own', root, p) && first <= own'[p].vpn < next)
  }

  /** Frames that were mapped before keep their contents. */
  ghost predicate FramesKept(img: Image, own: Ledger, img': Image)
  {
    |img'| == |img| && forall p :: 0 <= p < |own| && p < |img| && own[p].Data? ==> img'[p] == img[p]
  }

  /** Pages first .. next-1 have been mapped to fresh zeroed frames, nothing else changed. */
  ghost predicate WiredSoFar(img: Image, own: Ledger, img': Image, own': Ledger, root: nat, zoneId: nat,
                             first: nat, next: nat, pte: Word)
  {
    && WiredPages(img, img', root, first, next, pte)
    && OthersSame(img, own, img', root)
    && WiredLedger(own, own', root, zoneId, first, next)
    && FramesKept(img, own, img')
  }

  lemma WiredNone(img: Image, own: Ledger, img': Image, own': Ledger, bm: nat, root: nat, zoneId: nat,
                  first: nat, pte: Word)
    requires BitmapOk(img, own, bm) && ZoneStep(img, own, img', own', bm, zoneId)
    requires forall r :: IsRoot(own, r) ==> SameTranslations(img, img', r)
    requires IsRoot(own, root)
    ensures WiredSoFar(img, own, img', own', root, zoneId, first, first, pte)
  {}

  /** Pages that are in use as frames are not touched by pmap_map or the allocator. */
  lemma UsedFramesKept(img: Image, own: Ledger, img': Image, bm: nat, root: nat)
    requires BitmapOk(img, own, bm) && UsedKept(img, own, img', bm, root)
    ensures FramesKept(img, own, img')
  {
    forall p | 0 <= p < |own| && own[p].Data? ensures img'[p] == img[p] {
      assert Untouched(own, bm, root, p);
    }
  }

  lemma FreshStays(img: Image, own: Ledger, img': Image, root: nat, v: nat, pte: Word)
    requires DataOk(img, own, root) && FramesKept(img, own, img') && v < LOWER_PAGES && |own| <= |img|
    requires FreshPage(img, root, v, pte) && Translation(img', root, v) == Translation(img, root, v)
    ensures FreshPage(img', root, v, pte)
  {}

  lemma WiredPagesMore(img: Image, img1: Image, own1: Ledger, img2: Image, root: nat,
                       first: nat, next: nat, pte: Word, mapped: bool)
    requires WiredPages(img, img1, root, first, next, pte) && first <= next
    requires DataOk(img1, own1, root) && FramesKept(img1, own1, img2) && |own1| <= |img1|
    requires if mapped then
               Remapped(img1, img2, root, next, Translation(img2, root, next)) && FreshPage(img2, root, next, pte)
             else SameTranslations(img1, img2, root)
    ensures WiredPages(img, img2, root, first, if mapped then next + 1 else next, pte)
  {
    hide FreshPage, DataOk, FramesKept;
    forall v | 0 <= v < LOWER_PAGES
      ensures if first <= v < (if mapped then next + 1 else next) then FreshPage(img2, root, v, pte)
              else Translation(img2, root, v) == Translation(img, root, v)
    {
      if first <= v < next {
        assert Translation(img2, root, v) == Translation(img1, root, v);
        FreshStays(img1, own1, img2, root, v, pte);
      }
    }
  }

  /** One more page, wired or failed. */
  lemma WiredMore(img: Image, own: Ledger, img1: Image, own1: Ledger, img2: Image, own2: Ledger, bm: nat,
                  root: nat, zoneId: nat, first: nat, next: nat, pte: Word, mapped: bool)
    requires WiredSoFar(img, own, img1, own1, root, zoneId, first, next, pte) && first <= next
    requires BitmapOk(img1, own1, bm) && MappingsOk(img1, own1) && IsRoot(own, root) && |own| <= |img|
    requires if mapped then
               Remapped(img1, img2, root, next, Translation(img2, root, next)) && FreshPage(img2, root, next, pte)
             else SameTranslations(img1, img2, root)
    requires OthersSame(img1, own1, img2, root) && TakesFree(own1, own2, root, mapped, next)
    requires UsedKept(img1, own1, img2, bm, root)
    ensures WiredSoFar(img, own, img2, own2, root, zoneId, first, if mapped then next + 1 else next, pte)
  {
    hide Used, FreshPage, Translation, WiredPages;
    UsedFramesKept(img1, own1, img2, bm, root);
    assert IsRoot(own1, root) && DataOk(img1, own1, root);
    WiredPagesMore(img, img1, own1, img2, root, first, next, pte, mapped);
    forall r | IsRoot(own, r) && r != root ensures SameTranslations(img, img2, r) {
      assert IsRoot(own1, r);
    }
  }

  lemma CoverageMore(own: Ledger, own': Ledger, root: nat, infos: seq<Info>, mapped: bool, vpn: nat)
    requires Coverage(own, root, infos) && TakesFree(own, own', root, mapped, vpn)
    requires CoveredBy(infos, vpn)
    ensures Coverage(own', root, infos)
  {
    forall p | 0 <= p < |own'| && IsData(own', root, p) ensures CoveredBy(infos, own'[p].vpn) {
      assert own'[p] == own[p] ==> IsData(own, root, p);
    }
  }

  /** MapFreshPage does not touch the pages of a zone. */
  lemma ZonePagesUntouched(img: Image, own: Ledger, img': Image, own': Ledger, bm: nat, root: nat,
                           mapped: bool, vpn: nat, id: nat)
    requires BitmapOk(img, own, bm) && TakesFree(own, own', root, mapped, vpn) && UsedKept(img, own, img', bm, root)
    ensures |own'| == |own|
    ensures forall p :: 0 <= p < |own| ==> (own'[p] == ZonePage(id) <==> own[p] == ZonePage(id))
    ensures forall p :: 0 <= p < |own| && own[p] == ZonePage(id) ==> img'[p] == img[p]
  {
    hide Used;
    forall p | 0 <= p < |own| && own[p] == ZonePage(id) ensures img'[p] == img[p] {
      assert Untouched(own, bm, root, p);
    }
  }

  /** Unmapping what was wired so far restores every translation; the frames are free again and only
      table pages and zone pages stay taken. */
  lemma RolledBack(img: Image, own: Ledger, img2: Image, own2: Ledger, img3: Image, own3: Ledger, bm: nat,
                   root: nat, zoneId: nat, infos: seq<Info>, lo: nat, hi: nat, next: nat, pte: Word)
    requires WiredSoFar(img, own, img2, own2, root, zoneId, lo / 4096, next, pte)
    requires lo / 4096 <= next <= hi / 4096
    requires forall v: nat :: lo / 4096 <= v < hi / 4096 ==> Translation(img, root, v) == None
    requires forall p :: 0 <= p < |own| && IsData(own, root, p) ==> !(lo / 4096 <= own[p].vpn < hi / 4096)
    requires Unmapped(img2, own2, img3, own3, bm, root, infos, lo, hi)
    requires forall v: nat :: Visited(infos, lo, hi, v) <==> lo / 4096 <= v < hi / 4096
    requires IsRoot(own, root) && BitmapOk(img, own, bm)
    ensures SameTranslations(img, img3, root) && OthersSame(img, own, img3, root)
    ensures Overhead(own, own3, root, zoneId) && FramesKept(img, own, img3)
  {
    hide Visited, FreshPage, Used, Translation;
    assert IsRoot(own2, root);
    forall r | IsRoot(own, r) && r != root ensures SameTranslations(img, img3, r) {
      assert IsRoot(own2, r);
    }
    forall p | 0 <= p < |own| && own[p].Data? ensures img3[p] == img[p] {
      assert Plain(own2, bm, root, p);
    }
  }

  /** Frames of `root` mapped at pages lo .. hi-1. */
  ghost function Frames(own: Ledger, root: nat, lo: nat, hi: nat): set<nat>
  {
    set p | 0 <= p < |own| && IsData(own, root, p) && lo <= own[p].vpn < hi
  }

  lemma {:induction false} FramesBound(img: Image, own: Ledger, root: nat, lo: nat, hi: nat)
    requires DataOk(img, own, root) && lo <= hi <= LOWER_PAGES
    ensures |Frames(own, root, lo, hi)| <= hi - lo
    decreases hi
  {
    hide DataOk, IsData;
    if lo == hi {
      assert Frames(own, root, lo, hi) == {};
    } else {
      hide Frames;
      FramesBound(img, own, root, lo, hi - 1);
      OneFrame(img, own, root, hi - 1);
      FramesSplit(own, root, lo, hi);
    }
  }

  lemma FramesSplit(own: Ledger, root: nat, lo: nat, hi: nat)
    requires lo < hi
    ensures Frames(own, root, lo, hi) == Frames(own, root, lo, hi - 1) + Frames(own, root, hi - 1, hi)
  {
    hide IsData;
  }

  /** A page has at most one frame. */
  lemma OneFrame(img: Image, own: Ledger, root: nat, vpn: nat)
    requires DataOk(img, own, root) && vpn < LOWER_PAGES
    ensures |Frames(own, root, vpn, vpn + 1)| <= 1
  {
    hide Translation;
    var one := Frames(own, root, vpn, vpn + 1);
    if p :| p in one {
      assert Translation(img, root, vpn).Some? && Frame(Translation(img, root, vpn).value) == p;
      forall q | q in one ensures q == p {
        assert Frame(Translation(img, root, own[q].vpn).value) == q;
      }
      assert one == {p};
    }
  }

  /** After the roll-back of a call that found memory exhausted at page `next`, what is free is at
      most what the call had mapped and one page more. */
  lemma FewFree(img: Image, own: Ledger, img2: Image, own2: Ledger, img3: Image, own3: Ledger, bm: nat,
                root: nat, zoneId: nat, infos: seq<Info>, lo: nat, hi: nat, next: nat, pte: Word)
    requires WiredSoFar(img, own, img2, own2, root, zoneId, lo / 4096, next, pte) && MappingsOk(img2, own2) && IsRoot(own2, root)
    requires lo / 4096 <= next < hi / 4096 <= LOWER_PAGES && |FreePages(own2)| <= 1
    requires forall p :: 0 <= p < |own| && IsData(own, root, p) ==> !(lo / 4096 <= own[p].vpn < hi / 4096)
    requires Unmapped(img2, own2, img3, own3, bm, root, infos, lo, hi)
    requires forall v: nat :: Visited(infos, lo, hi, v) <==> lo / 4096 <= v < hi / 4096
    ensures |FreePages(own3)| <= hi / 4096 - lo / 4096
  {
    hide Visited, Translation;
    FramesBound(img2, own2, root, lo / 4096, next);
    forall p | p in FreePages(own3) ensures p in FreePages(own2) + Frames(own2, root, lo / 4096, next) {
      if !own2[p].Free? { assert IsData(own2, root, p) && (own2[p] == own[p] ==> IsData(own, root, p)); }
    }
    AtMost(FreePages(own3), FreePages(own2) + Frames(own2, root, lo / 4096, next));
  }

  lemma {:induction false} AtMost(a: set<nat>, b: set<nat>)
    requires a <= b
    ensures |a| <= |b|
  {
    if x :| x in a {
      AtMost(a - {x}, b - {x});
    }
  }

  /** The pages a new entry is about to cover are not mapped yet. */
  lemma EnterGap(img: Image, own: Ledger, root: nat, infos: seq<Info>, lo: nat, hi: nat)
    requires MappingsOk(img, own) && IsRoot(own, root) && Coverage(own, root, infos)
    requires lo % 4096 == 0 && hi % 4096 == 0 && hi <= LOWER_END
    requires forall i :: 0 <= i < |infos| ==> !infos[i].Overlaps(lo, hi)
    ensures forall v: nat :: lo / 4096 <= v < hi / 4096 ==> Translation(img, root, v) == None
    ensures forall p :: 0 <= p < |own| && IsData(own, root, p) ==> !(lo / 4096 <= own[p].vpn < hi / 4096)
  {
    assert DataOk(img, own, root);
    GapUnmapped(img, own, root, infos, lo, hi);
    forall v: nat | lo / 4096 <= v < hi / 4096 ensures Translation(img, root, v) == None {
      assert lo <= v * 4096 < hi;
    }
    forall p | 0 <= p < |own| && IsData(own, root, p) ensures !(lo / 4096 <= own[p].vpn < hi / 4096) {
      assert Translation(img, root, own[p].vpn).Some?;
    }
  }

  lemma NothingWired(img: Image, own: Ledger, img': Image, own': Ledger, root: nat, zoneId: nat, first: nat, pte: Word)
    requires WiredSoFar(img, own, img', own', root, zoneId, first, first, pte)
    ensures SameTranslations(img, img', root) && OthersSame(img, own, img', root)
    ensures Overhead(own, own', root, zoneId) && FramesKept(img, own, img')
  {}

  lemma OwnPagesCovered(nodes: seq<Entry>, k: nat, ne: Entry)
    requires k <= |nodes| && ne.start % 4096 == 0 && ne.end % 4096 == 0
    ensures forall v: nat :: ne.start / 4096 <= v < ne.end / 4096 ==>
              CoveredBy(Infos(nodes[..k] + [ne] + nodes[k..]), v)
  {
    InfosInsert(nodes, k, ne);
    var infos := Infos(nodes[..k] + [ne] + nodes[k..]);
    forall v: nat | ne.start / 4096 <= v < ne.end / 4096 ensures CoveredBy(infos, v) {
      assert infos[k].Covers(v * 4096);
    }
  }

  lemma AllSame(img: Image, own: Ledger, img': Image, root: nat)
    requires SameTranslations(img, img', root) && OthersSame(img, own, img', root)
    ensures forall r :: IsRoot(own, r) ==> SameTranslations(img, img', r)
  {}
}
