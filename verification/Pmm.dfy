/** vm/pmm.c: the bitmap page allocator, one bit per 4 KiB page, 0 = free.  The bitmap itself
    lives in 32 frames of the memory it describes. */
module Pmm {
  import opened Words
  import opened PhysMem

  const MAX_PAGES: nat := 0x10_0000     // 4 GiB
  const BITMAP_WORDS: nat := 16384
  const BITMAP_PAGES: nat := 32

  // ---- the bitmap read as a set of pages -----------------------------------------------------

  function BitWord(img: Image, bm: nat, page: nat): Word
    requires page < MAX_PAGES && bm + BITMAP_PAGES <= |img|
  {
    img[bm + page / 32768][page / 64 % 512]
  }

  predicate Used(img: Image, bm: nat, page: nat)
    requires page < MAX_PAGES && bm + BITMAP_PAGES <= |img|
  {
    TestBit(BitWord(img, bm, page), page % 64)
  }

  ghost predicate SameOutside(img: Image, img': Image, bm: nat)
  {
    |img'| == |img| && forall p :: 0 <= p < |img| && !(bm <= p < bm + BITMAP_PAGES) ==> img'[p] == img[p]
  }

  ghost function FreePages(own: Ledger): set<nat>
  {
    set p | 0 <= p < |own| && own[p] == Free
  }

  ghost predicate BitmapOk(img: Image, own: Ledger, bm: nat)
  {
    && |own| == MAX_PAGES <= |img| && 0 < bm && bm + BITMAP_PAGES <= |img|
    && own[0] == Reserved
    && (forall p :: 0 <= p < MAX_PAGES ==> (own[p] == Free <==> !Used(img, bm, p)))
    && (forall p :: bm <= p < bm + BITMAP_PAGES && p < MAX_PAGES ==> own[p] == Reserved)
  }

  /** What the bitmap says, by number: bit `p % 64` of word `p / 64` is set for every page in use. */
  lemma BitmapBits(img: Image, own: Ledger, bm: nat)
    requires BitmapOk(img, own, bm)
    ensures |own| == 0x10_0000 && bm + 32 <= |img|
    ensures forall p :: 0 <= p < 0x10_0000 ==>
              (own[p] == Free <==> img[bm + p / 64 / 512][p / 64 % 512] / Pow2(p % 64) % 2 == 0)
  {
    forall p | 0 <= p < 0x10_0000
      ensures own[p] == Free <==> img[bm + p / 64 / 512][p / 64 % 512] / Pow2(p % 64) % 2 == 0
    {
      assert p / 64 / 512 == p / 32768;
      TestBitIs(img[bm + p / 64 / 512][p / 64 % 512], p % 64);
    }
  }

  /** Pages that must not be handed to pmm_free_page. */
  ghost predicate MayNotFree(own: Ledger, bm: nat, page: nat)
  {
    0 < page < MAX_PAGES && page < |own| && (own[page].Free? || bm <= page < bm + BITMAP_PAGES)
  }

  /** A page that is in use is not the bitmap. */
  lemma MayFree(img: Image, own: Ledger, bm: nat, page: nat)
    requires BitmapOk(img, own, bm) && page < |own| && !own[page].Free? && !own[page].Reserved?
    ensures !MayNotFree(own, bm, page)
  {}

  lemma FreeLedger(img: Image, own: Ledger, img': Image, bm: nat, page: nat)
    requires BitmapOk(img, own, bm) && SameOutside(img, img', bm) && 0 < page < MAX_PAGES
    requires forall q :: 0 <= q < MAX_PAGES ==> Used(img', bm, q) == (q != page && Used(img, bm, q))
    ensures BitmapOk(img', own[page := Free], bm) <==> !(bm <= page < bm + BITMAP_PAGES)
    ensures |FreePages(own[page := Free])| == |FreePages(own)| + if own[page].Free? then 0 else 1
  {
    hide Used;
    FreeChange(own, page, Free);
    if own[page].Free? {
      assert FreePages(own) + {page} == FreePages(own);
    } else {
      assert page !in FreePages(own);
    }
  }

  /** Two pages share a bit only if they are the same page. */
  lemma SameBit(p: nat, q: nat)
    requires p / 32768 == q / 32768 && p / 64 % 512 == q / 64 % 512 && p % 64 == q % 64
    ensures p == q
  {
    assert p / 32768 == p / 64 / 512;
    assert q / 32768 == q / 64 / 512;
  }

  lemma OneBitAt(img: Image, bm: nat, page: nat, used: bool, w: Word, img': Image, q: nat)
    requires page < MAX_PAGES && q < MAX_PAGES && bm + BITMAP_PAGES <= |img|
    requires w == if used then SetBit(BitWord(img, bm, page), page % 64)
                  else ClearBit(BitWord(img, bm, page), page % 64)
    requires img' == WithWord(img, bm + page / 32768, page / 64 % 512, w)
    ensures Used(img', bm, q) == if q == page then used else Used(img, bm, q)
  {
    if q / 32768 == page / 32768 && q / 64 % 512 == page / 64 % 512 {
      if q % 64 == page % 64 { SameBit(q, page); }
      SetBitTest(BitWord(img, bm, page), page % 64, q % 64);
      ClearBitTest(BitWord(img, bm, page), page % 64, q % 64);
    }
  }

  /** Rewriting one bit of the bitmap changes the state of that page only. */
  lemma OneBit(img: Image, bm: nat, page: nat, used: bool, w: Word, img': Image)
    requires page < MAX_PAGES && bm + BITMAP_PAGES <= |img|
    requires w == if used then SetBit(BitWord(img, bm, page), page % 64)
                  else ClearBit(BitWord(img, bm, page), page % 64)
    requires img' == WithWord(img, bm + page / 32768, page / 64 % 512, w)
    ensures SameOutside(img, img', bm)
    ensures forall q :: 0 <= q < MAX_PAGES ==>
              Used(img', bm, q) == if q == page then used else Used(img, bm, q)
  {
    forall q | 0 <= q < MAX_PAGES
      ensures Used(img', bm, q) == if q == page then used else Used(img, bm, q)
    {
      OneBitAt(img, bm, page, used, w, img', q);
    }
  }

  /** The ledger with the owners of some pages replaced. */
  function WithTables(own: Ledger, tables: map<nat, Owner>): (r: Ledger)
    ensures |r| == |own| && forall p :: 0 <= p < |own| ==> r[p] == if p in tables then tables[p] else own[p]
  {
    seq(|own|, p requires 0 <= p < |own| => if p in tables then tables[p] else own[p])
  }

  /** A page changing hands moves the free set by at most that page. */
  lemma FreeChange(own: Ledger, p: nat, o: Owner)
    requires p < |own|
    ensures FreePages(own[p := o]) == if o == Free then FreePages(own) + {p} else FreePages(own) - {p}
  {}

  /** Giving back the last page taken leaves one page free. */
  lemma OnlyPageFree(own: Ledger, p: nat)
    requires p < |own| && FreePages(own) == {}
    ensures FreePages(own[p := Owner.Free]) == {p} && |FreePages(own[p := Owner.Free])| == 1
  {
    FreeChange(own, p, Owner.Free);
  }

  /** Writing frames outside the bitmap, none of which is the bitmap, leaves it intact. */
  lemma BitmapFrame(img: Image, img': Image, own: Ledger, bm: nat)
    requires BitmapOk(img, own, bm)
    requires |img'| == |img|
    requires forall p :: bm <= p < bm + BITMAP_PAGES ==> img'[p] == img[p]
    ensures BitmapOk(img', own, bm)
  {
    forall p | 0 <= p < MAX_PAGES ensures Used(img', bm, p) == Used(img, bm, p) {
      assert bm <= bm + p / 32768 < bm + BITMAP_PAGES;
    }
  }

  // ---- the boot memory map -------------------------------------------------------------------

  datatype Region = Region(base: Word, length: Word, usable: bool)
  {
    /** First page at or after the start, first page the region does not fill. */
    function Lo(): nat { (base + 4095) / 4096 }
    function Hi(): nat { (base + length) / 4096 }
    predicate Covers(page: nat) { usable && Lo() <= page < Hi() }
  }

  /** What the boot protocol guarantees: no entry wraps around, usable entries do not overlap
      and lie in memory. */
  ghost predicate MemoryMap(map_: seq<Region>, pages: nat)
  {
    && (forall i :: 0 <= i < |map_| ==> map_[i].base + map_[i].length + 4095 < U64)
    && (forall i :: 0 <= i < |map_| && map_[i].usable ==> map_[i].base + map_[i].length <= pages * 4096)
    && (forall i, j :: 0 <= i < j < |map_| && map_[i].usable && map_[j].usable ==>
          map_[i].base + map_[i].length <= map_[j].base || map_[j].base + map_[j].length <= map_[i].base)
  }

  ghost predicate Usable(map_: seq<Region>, page: nat)
  {
    exists i :: 0 <= i < |map_| && map_[i].Covers(page)
  }

  /** The pages visited by `for (addr = start; addr < end; addr += PMM_PAGE_SIZE)`. */
  predicate Stepped(start: nat, end: nat, page: nat)
  {
    start / 4096 <= page && page * 4096 + start % 4096 < end
  }

  /** Stepping visits every page that meets [start, end) exactly when the last page is reached,
      in particular always when `start` is page-aligned. */
  lemma SteppedCoversRange(start: nat, end: nat)
    requires start < end
    ensures (forall p: nat :: p * 4096 < end && start < (p + 1) * 4096 ==> Stepped(start, end, p))
            <==> start % 4096 <= (end - 1) % 4096
    ensures forall p: nat :: Stepped(start, end, p) ==> p * 4096 < end && start < (p + 1) * 4096
  {
    var last := (end - 1) / 4096;
    assert last * 4096 < end && start < (last + 1) * 4096;
    assert Stepped(start, end, last) <==> start % 4096 <= (end - 1) % 4096;
    if start % 4096 <= (end - 1) % 4096 {
      forall p: nat | p * 4096 < end && start < (p + 1) * 4096 ensures Stepped(start, end, p) {
        assert p <= last;
      }
    }
  }

  /** For example, an image of two bytes that straddle a page boundary loses its second page. */
  lemma SecondPageMissed()
    ensures !Stepped(4095, 4097, 1) && 1 * 4096 < 4097 && 4095 < 2 * 4096
  {}

  lemma WholePages(start: nat, end: nat, first: nat, count: nat)
    requires start == first * 4096 && end == start + count * 4096
    ensures forall q: nat :: Stepped(start, end, q) <==> first <= q < first + count
  {}

  // ---- pmm_init, in terms of pages -----------------------------------------------------------

  /** First page of the bitmap for the given region, or 0 when it does not fit there. */
  function BitmapSpot(r: Region): nat
  {
    var lo := if r.Lo() < 256 then 256 else r.Lo();
    if r.usable && (lo + BITMAP_PAGES) * 4096 <= r.base + r.length then lo else 0
  }

  /** The pages pmm_init leaves free. */
  ghost predicate FreeAtBoot(map_: seq<Region>, bm: nat, kstart: nat, kend: nat, page: nat)
  {
    Usable(map_, page) && page != 0 && !(bm <= page < bm + BITMAP_PAGES) && !Stepped(kstart, kend, page)
  }

  ghost function Unused(img: Image, bm: nat): set<nat>
    requires bm + BITMAP_PAGES <= |img|
  {
    set p | 0 <= p < MAX_PAGES && !Used(img, bm, p)
  }

  /** Regions that do not overlap share no page once their ends are rounded inwards. */
  lemma RegionsApart(map_: seq<Region>, pages: nat, i: nat, j: nat, page: nat)
    requires MemoryMap(map_, pages) && i < |map_| && j < |map_| && i != j
    requires map_[i].Covers(page)
    ensures !map_[j].Covers(page)
  {
    var a, b := map_[i], map_[j];
    assert a.base <= page * 4096 && (page + 1) * 4096 <= a.base + a.length;
    assert b.Covers(page) ==> b.base <= page * 4096 && (page + 1) * 4096 <= b.base + b.length;
  }

  ghost function UsablePages(map_: seq<Region>): set<nat>
  {
    set p | 0 <= p < MAX_PAGES && Usable(map_, p)
  }

  /** `bm` is the spot of the first region in which the bitmap fits. */
  ghost predicate FirstSpot(map_: seq<Region>, bm: nat)
  {
    exists i :: 0 <= i < |map_| && BitmapSpot(map_[i]) == bm && bm != 0
                && forall j :: 0 <= j < i ==> BitmapSpot(map_[j]) == 0
  }

  // ---- the same in bytes -----------------------------------------------------------------------

  /** The region has room for the 0x20000 bytes of the bitmap from page `q` on, above 1 MB. */
  ghost predicate HoldsFrom(r: Region, q: nat)
  {
    r.usable && r.base <= q * 4096 && 0x100000 <= q * 4096 && q * 4096 + 0x20000 <= r.base + r.length
  }

  /** Page `bm` is the first place for the bitmap in the first usable region that has one. */
  ghost predicate BitmapAt(map_: seq<Region>, bm: nat)
  {
    exists i :: 0 <= i < |map_| && HoldsFrom(map_[i], bm)
                && (forall q: nat :: HoldsFrom(map_[i], q) ==> bm <= q)
                && forall j, q: nat :: 0 <= j < i ==> !HoldsFrom(map_[j], q)
  }

  ghost predicate NoPlace(map_: seq<Region>)
  {
    forall i, q: nat :: 0 <= i < |map_| ==> !HoldsFrom(map_[i], q)
  }

  /** All 4096 bytes of page `q` lie in one usable region. */
  ghost predicate Whole(map_: seq<Region>, q: nat)
  {
    exists i :: 0 <= i < |map_| && map_[i].usable && map_[i].base <= q * 4096
                && (q + 1) * 4096 <= map_[i].base + map_[i].length
  }

  /** Free are the whole usable pages other than page 0, the 32 pages of the bitmap and the pages of
      the addresses kstart, kstart + 4096, kstart + 8192, ... below kend. */
  ghost predicate FreeInBytes(own: Ledger, map_: seq<Region>, bm: nat, kstart: nat, kend: nat)
  {
    |own| == 0x10_0000
    && forall q :: 0 <= q < 0x10_0000 ==>
         (own[q] == Free <==> Whole(map_, q) && q != 0 && !(bm <= q < bm + 32)
                              && !(kstart / 4096 <= q && q * 4096 + kstart % 4096 < kend))
  }

  lemma SpotHolds(r: Region)
    ensures BitmapSpot(r) != 0 ==> HoldsFrom(r, BitmapSpot(r)) && forall q: nat :: HoldsFrom(r, q) ==> BitmapSpot(r) <= q
    ensures BitmapSpot(r) == 0 ==> forall q: nat :: !HoldsFrom(r, q)
  {
    forall q: nat | HoldsFrom(r, q) ensures r.Lo() <= q && 256 <= q && BitmapSpot(r) != 0 {
      assert r.base + 4095 < (q + 1) * 4096;
    }
  }

  lemma FirstSpotHolds(map_: seq<Region>, bm: nat)
    requires FirstSpot(map_, bm)
    ensures BitmapAt(map_, bm)
  {
    var i :| 0 <= i < |map_| && BitmapSpot(map_[i]) == bm && bm != 0 && forall j :: 0 <= j < i ==> BitmapSpot(map_[j]) == 0;
    SpotHolds(map_[i]);
    forall j, q: nat | 0 <= j < i ensures !HoldsFrom(map_[j], q) { SpotHolds(map_[j]); }
  }

  lemma NoSpotHolds(map_: seq<Region>)
    requires forall i :: 0 <= i < |map_| ==> BitmapSpot(map_[i]) == 0
    ensures NoPlace(map_)
  {
    forall i, q: nat | 0 <= i < |map_| ensures !HoldsFrom(map_[i], q) { SpotHolds(map_[i]); }
  }

  lemma CoversWhole(r: Region, q: nat)
    ensures r.Covers(q) <==> r.usable && r.base <= q * 4096 && (q + 1) * 4096 <= r.base + r.length
  {}

  lemma UsableWhole(map_: seq<Region>, q: nat)
    ensures Usable(map_, q) <==> Whole(map_, q)
  {
    forall i | 0 <= i < |map_|
      ensures map_[i].Covers(q) <==> map_[i].usable && map_[i].base <= q * 4096 && (q + 1) * 4096 <= map_[i].base + map_[i].length
    {
      CoversWhole(map_[i], q);
    }
  }

  lemma BootInBytes(own: Ledger, map_: seq<Region>, bm: nat, kstart: nat, kend: nat)
    requires AtBoot(own, map_, bm, kstart, kend)
    ensures FreeInBytes(own, map_, bm, kstart, kend)
  {
    forall q: nat ensures Usable(map_, q) <==> Whole(map_, q) { UsableWhole(map_, q); }
    hide Usable, Whole;
  }

  lemma SpotFits(map_: seq<Region>, pages: nat, bm: nat)
    requires MemoryMap(map_, pages) && FirstSpot(map_, bm)
    ensures 256 <= bm && bm + BITMAP_PAGES <= pages
  {
    var i :| 0 <= i < |map_| && BitmapSpot(map_[i]) == bm;
    assert map_[i].usable && (bm + BITMAP_PAGES) * 4096 <= map_[i].base + map_[i].length <= pages * 4096;
  }

  ghost predicate AtBoot(own: Ledger, map_: seq<Region>, bm: nat, kstart: nat, kend: nat)
  {
    |own| == MAX_PAGES
    && forall q :: 0 <= q < MAX_PAGES ==>
         own[q] == if FreeAtBoot(map_, bm, kstart, kend, q) then Free else Reserved
  }

  /** The bitmap pmm_init ends with, read as a ledger. */
  lemma BootLedger(map_: seq<Region>, kstart: nat, kend: nat, released: Image, img: Image, own: Ledger, bm: nat)
    requires MAX_PAGES <= |img| == |released| && 0 < bm && bm + BITMAP_PAGES <= |img| && |own| == MAX_PAGES
    requires forall q :: 0 <= q < MAX_PAGES ==> (Used(released, bm, q) <==> !Usable(map_, q))
    requires forall q :: 0 <= q < MAX_PAGES ==>
               (Used(img, bm, q) <==> Used(released, bm, q) || q == 0 || bm <= q < bm + BITMAP_PAGES
                                      || Stepped(kstart, kend, q))
    requires forall q :: 0 <= q < MAX_PAGES ==> own[q] == if Used(img, bm, q) then Reserved else Free
    ensures BitmapOk(img, own, bm) && FreePages(own) == Unused(img, bm)
    ensures AtBoot(own, map_, bm, kstart, kend)
  {
    hide Used, Stepped, Usable;
  }

  lemma UsableSplit(map_: seq<Region>, i: nat, page: nat)
    requires i < |map_|
    ensures Usable(map_[..i + 1], page) <==> Usable(map_[..i], page) || map_[i].Covers(page)
  {
    if Usable(map_[..i], page) {
      var j :| 0 <= j < i && map_[..i][j].Covers(page);
      assert map_[..i + 1][j].Covers(page);
    }
    if map_[i].Covers(page) { assert map_[..i + 1][i].Covers(page); }
    if Usable(map_[..i + 1], page) && !map_[i].Covers(page) {
      var j :| 0 <= j < i + 1 && map_[..i + 1][j].Covers(page);
      assert map_[..i][j].Covers(page);
    }
  }

  lemma NotYetCovered(map_: seq<Region>, pages: nat, i: nat, page: nat)
    requires MemoryMap(map_, pages) && i < |map_| && map_[i].Covers(page)
    ensures !Usable(map_[..i], page)
  {
    forall j | 0 <= j < i ensures !map_[..i][j].Covers(page) { RegionsApart(map_, pages, i, j, page); }
  }

  /** A bitmap word without a clear bit stands for 64 used pages; otherwise its lowest clear bit
      is the lowest unused page of the 64. */
  lemma ScanWord(img: Image, bm: nat, w: nat)
    requires w < BITMAP_WORDS && bm + BITMAP_PAGES <= |img|
    ensures var word := img[bm + w / 512][w % 512];
            if word == U64 - 1 then forall q :: w * 64 <= q < w * 64 + 64 ==> Used(img, bm, q)
            else var bit := LowestClear(word);
                 && bit < 64 && !Used(img, bm, w * 64 + bit)
                 && forall q :: w * 64 <= q < w * 64 + bit ==> Used(img, bm, q)
  {
    var word := img[bm + w / 512][w % 512];
    WordWidth();
    ClearBitExists(word, 64);
    forall q | w * 64 <= q < w * 64 + 64 ensures Used(img, bm, q) == TestBit(word, q - w * 64) {
      assert q / 64 == w && q % 64 == q - w * 64 && q / 32768 == w / 512;
    }
  }

  /** No page below `n` is free. */
  ghost predicate NoneFree(own: Ledger, n: nat)
  {
    n <= |own| && forall q :: 0 <= q < n ==> own[q] != Free
  }

  lemma LedgerSize(img: Image, own: Ledger, bm: nat)
    requires BitmapOk(img, own, bm)
    ensures |own| == MAX_PAGES && bm + BITMAP_PAGES <= |img|
    ensures NoneFree(own, MAX_PAGES) <==> FreePages(own) == {}
  {
    assert forall q :: q in FreePages(own) <==> 0 <= q < |own| && own[q] == Free;
  }

  /** ScanWord in terms of the ledger. */
  lemma FirstFree(img: Image, own: Ledger, bm: nat, w: nat)
    requires BitmapOk(img, own, bm) && w < BITMAP_WORDS && NoneFree(own, w * 64)
    ensures var word := img[bm + w / 512][w % 512];
            if word == U64 - 1 then NoneFree(own, w * 64 + 64)
            else var page := w * 64 + LowestClear(word);
                 && 0 < page < MAX_PAGES && own[page] == Free && NoneFree(own, page) && FreePages(own) != {}
  {
    hide Used, TestBit, LowestClear;
    ScanWord(img, bm, w);
    var word := img[bm + w / 512][w % 512];
    if word != U64 - 1 {
      assert w * 64 + LowestClear(word) in FreePages(own);
    }
  }

  class PageAllocator {
    const mem: Memory
    var bitmap: nat       // frame number of the bitmap's first page, 0 = not set up
    var total_pages: nat
    var free_count: nat
    ghost var own: Ledger

    constructor (mem: Memory)
      ensures this.mem == mem && bitmap == 0 && own == []
    {
      this.mem := mem;
      bitmap, total_pages, free_count := 0, 0, 0;
      own := [];
    }

    ghost predicate Valid()
      reads this, mem.frame
    {
      && BitmapOk(mem.Image(), own, bitmap)
      && free_count == |FreePages(own)|
    }

    predicate Placed(page: nat)
      reads this
    {
      page < MAX_PAGES && bitmap + BITMAP_PAGES <= mem.frame.Length
    }

    predicate BitmapTest(page: nat)
      requires Placed(page)
      reads this, mem.frame
      ensures BitmapTest(page) == Used(mem.Image(), bitmap, page)
    {
      TestBit(mem.Load(bitmap + page / 32768, page / 64 % 512), page % 64)
    }

    method BitmapSet(page: nat)
      requires Placed(page)
      modifies mem.frame
      ensures SameOutside(old(mem.Image()), mem.Image(), bitmap)
      ensures forall q :: 0 <= q < MAX_PAGES ==>
                Used(mem.Image(), bitmap, q) == (q == page || Used(old(mem.Image()), bitmap, q))
      ensures Unused(mem.Image(), bitmap) == Unused(old(mem.Image()), bitmap) - {page}
    {
      var w := mem.Load(bitmap + page / 32768, page / 64 % 512);
      WordWidth();
      BitOpsFit(w, page % 64, 64);
      mem.Store(bitmap + page / 32768, page / 64 % 512, SetBit(w, page % 64));
      OneBit(old(mem.Image()), bitmap, page, true, SetBit(w, page % 64), mem.Image());
    }

    method BitmapClear(page: nat)
      requires Placed(page)
      modifies mem.frame
      ensures SameOutside(old(mem.Image()), mem.Image(), bitmap)
      ensures forall q :: 0 <= q < MAX_PAGES ==>
                Used(mem.Image(), bitmap, q) == (q != page && Used(old(mem.Image()), bitmap, q))
      ensures Unused(mem.Image(), bitmap) == Unused(old(mem.Image()), bitmap) + {page}
    {
      var w := mem.Load(bitmap + page / 32768, page / 64 % 512);
      WordWidth();
      BitOpsFit(w, page % 64, 64);
      mem.Store(bitmap + page / 32768, page / 64 % 512, ClearBit(w, page % 64));
      OneBit(old(mem.Image()), bitmap, page, false, ClearBit(w, page % 64), mem.Image());
    }

    /** Marks the pages stepped over by one reservation loop as used. */
    method Reserve(start: nat, end: nat)
      requires Placed(0)
      requires free_count == |Unused(mem.Image(), bitmap)|
      modifies this`free_count, mem.frame
      ensures SameOutside(old(mem.Image()), mem.Image(), bitmap)
      ensures free_count == |Unused(mem.Image(), bitmap)|
      ensures forall q :: 0 <= q < MAX_PAGES ==>
                Used(mem.Image(), bitmap, q) == (Used(old(mem.Image()), bitmap, q) || Stepped(start, end, q))
    {
      hide Used;
      var addr := start;
      ghost var next := start / 4096;
      while addr < end
        invariant start / 4096 <= next && addr == next * 4096 + start % 4096
        invariant SameOutside(old(mem.Image()), mem.Image(), bitmap)
        invariant free_count == |Unused(mem.Image(), bitmap)|
        invariant forall q :: 0 <= q < MAX_PAGES ==>
                    Used(mem.Image(), bitmap, q) ==
                    (Used(old(mem.Image()), bitmap, q) || (q < next && Stepped(start, end, q)))
      {
        var page := addr / 4096;
        assert page == next;
        if page < MAX_PAGES && !BitmapTest(page) {
          assert page in Unused(mem.Image(), bitmap);
          BitmapSet(page);
          free_count := free_count - 1;
        }
        addr := addr + 4096;
        next := next + 1;
      }
    }

    /** kmemset(bitmap, 0xff, PMM_BITMAP_BYTES) */
    method FillBitmap()
      requires Placed(0)
      modifies mem.frame
      ensures SameOutside(old(mem.Image()), mem.Image(), bitmap)
      ensures forall q :: 0 <= q < MAX_PAGES ==> Used(mem.Image(), bitmap, q)
    {
      for k := 0 to BITMAP_PAGES
        invariant SameOutside(old(mem.Image()), mem.Image(), bitmap)
        invariant forall p :: bitmap <= p < bitmap + k ==> mem.Image()[p] == seq(512, _ => U64 - 1)
      {
        mem.Fill(bitmap + k, U64 - 1);
      }
      WordWidth();
      ClearBitExists(U64 - 1, 64);
      forall q | 0 <= q < MAX_PAGES ensures Used(mem.Image(), bitmap, q) {
        assert mem.Image()[bitmap + q / 32768] == seq(512, _ => U64 - 1);
      }
    }

    /** Frees the whole pages of one usable region. */
    method Release(ghost map_: seq<Region>, ghost i: nat, e: Region)
      requires Placed(0) && MemoryMap(map_, mem.frame.Length)
      requires i < |map_| && e == map_[i] && e.usable
      requires forall q :: 0 <= q < MAX_PAGES ==> (Used(mem.Image(), bitmap, q) <==> !Usable(map_[..i], q))
      requires free_count == total_pages == |Unused(mem.Image(), bitmap)|
      modifies this`free_count, this`total_pages, mem.frame
      ensures SameOutside(old(mem.Image()), mem.Image(), bitmap)
      ensures forall q :: 0 <= q < MAX_PAGES ==> (Used(mem.Image(), bitmap, q) <==> !Usable(map_[..i + 1], q))
      ensures free_count == total_pages == |Unused(mem.Image(), bitmap)|
    {
      hide Used;
      var start, end := e.Lo() * 4096, e.Hi() * 4096;
      var addr := start;
      ghost var next := e.Lo();
      while addr < end
        invariant addr == next * 4096 && e.Lo() <= next
        invariant SameOutside(old(mem.Image()), mem.Image(), bitmap)
        invariant free_count == total_pages == |Unused(mem.Image(), bitmap)|
        invariant forall q :: 0 <= q < MAX_PAGES ==>
                    (Used(mem.Image(), bitmap, q) <==>
                     !Usable(map_[..i], q) && !(e.Covers(q) && q < next))
      {
        var page := addr / 4096;
        assert page == next;
        if page >= MAX_PAGES {
          break;
        }
        total_pages := total_pages + 1;
        NotYetCovered(map_, mem.frame.Length, i, page);
        assert page !in Unused(mem.Image(), bitmap);
        BitmapClear(page);
        free_count := free_count + 1;
        addr := addr + 4096;
        next := next + 1;
      }
      forall q | 0 <= q < MAX_PAGES
        ensures Used(mem.Image(), bitmap, q) <==> !Usable(map_[..i + 1], q)
      {
        UsableSplit(map_, i, q);
      }
    }

    /** First loop of pmm_init: the first usable region that can hold the bitmap. */
    method PlaceBitmap(map_: seq<Region>) returns (bm: nat)
      ensures bm == 0 ==> forall i :: 0 <= i < |map_| ==> BitmapSpot(map_[i]) == 0
      ensures bm != 0 ==> FirstSpot(map_, bm)
    {
      for i := 0 to |map_|
        invariant forall j :: 0 <= j < i ==> BitmapSpot(map_[j]) == 0
      {
        if BitmapSpot(map_[i]) != 0 {
          return BitmapSpot(map_[i]);
        }
      }
      return 0;
    }

    /** Second loop of pmm_init: from an all-ones bitmap, free the whole pages of usable regions. */
    method ReleaseUsable(map_: seq<Region>)
      requires Placed(0) && MemoryMap(map_, mem.frame.Length)
      modifies this`free_count, this`total_pages, mem.frame
      ensures SameOutside(old(mem.Image()), mem.Image(), bitmap)
      ensures forall q :: 0 <= q < MAX_PAGES ==> (Used(mem.Image(), bitmap, q) <==> !Usable(map_, q))
      ensures free_count == total_pages == |Unused(mem.Image(), bitmap)|
    {
      hide Used;
      FillBitmap();
      total_pages, free_count := 0, 0;
      assert Unused(mem.Image(), bitmap) == {};
      var n := 0;
      while n < |map_|
        invariant 0 <= n <= |map_|
        invariant SameOutside(old(mem.Image()), mem.Image(), bitmap)
        invariant free_count == total_pages == |Unused(mem.Image(), bitmap)|
        invariant forall q :: 0 <= q < MAX_PAGES ==> (Used(mem.Image(), bitmap, q) <==> !Usable(map_[..n], q))
      {
        if map_[n].usable {
          Release(map_, n, map_[n]);
        } else {
          forall q ensures Usable(map_[..n + 1], q) == Usable(map_[..n], q) { UsableSplit(map_, n, q); }
        }
        n := n + 1;
      }
      assert map_[..n] == map_;
    }

    /** The reservations that end pmm_init: page 0, the bitmap and the kernel image. */
    method ReserveFixed(kstart: nat, kend: nat)
      requires Placed(0) && free_count == |Unused(mem.Image(), bitmap)|
      modifies this`free_count, mem.frame
      ensures SameOutside(old(mem.Image()), mem.Image(), bitmap)
      ensures free_count == |Unused(mem.Image(), bitmap)|
      ensures forall q :: 0 <= q < MAX_PAGES ==>
                (Used(mem.Image(), bitmap, q) <==>
                 Used(old(mem.Image()), bitmap, q) || q == 0 || bitmap <= q < bitmap + BITMAP_PAGES
                 || Stepped(kstart, kend, q))
    {
      hide Used, Stepped;
      if !BitmapTest(0) {
        assert 0 in Unused(mem.Image(), bitmap);
        BitmapSet(0);
        free_count := free_count - 1;
      }
      var bm_start, bm_end := bitmap * 4096, bitmap * 4096 + BITMAP_PAGES * 4096;
      WholePages(bm_start, bm_end, bitmap, BITMAP_PAGES);
      Reserve(bm_start, bm_end);
      Reserve(kstart, kend);
    }

    /** pmm_init */
    method Init(map_: seq<Region>, kstart: nat, kend: nat)
      requires MemoryMap(map_, mem.frame.Length) && MAX_PAGES <= mem.frame.Length
      requires bitmap == 0
      modifies this, mem.frame
      ensures bitmap == 0 ==>
                && mem.Image() == old(mem.Image()) && NoPlace(map_)
                && forall i :: 0 <= i < |map_| ==> BitmapSpot(map_[i]) == 0
      ensures bitmap != 0 ==>
                && Valid() && FirstSpot(map_, bitmap) && BitmapAt(map_, bitmap)
                && FreeInBytes(own, map_, bitmap, kstart, kend)
                && SameOutside(old(mem.Image()), mem.Image(), bitmap)
                && AtBoot(own, map_, bitmap, kstart, kend)
                && total_pages == |UsablePages(map_)|
    {
      hide Used, Stepped, Usable, FirstSpot, BitmapOk, FreeAtBoot, BitmapAt, NoPlace, FreeInBytes;
      var bm := PlaceBitmap(map_);
      if bm == 0 {
        NoSpotHolds(map_);
        return;
      }
      FirstSpotHolds(map_, bm);
      SpotFits(map_, mem.frame.Length, bm);
      bitmap := bm;
      ReleaseUsable(map_);
      ghost var released := mem.Image();
      assert Unused(released, bm) == UsablePages(map_);
      ReserveFixed(kstart, kend);
      ghost var img := mem.Image();
      own := seq(MAX_PAGES, p requires 0 <= p < MAX_PAGES => if Used(img, bm, p) then Reserved else Free);
      BootLedger(map_, kstart, kend, released, img, own, bm);
      BootInBytes(own, map_, bm, kstart, kend);
    }

    /** Marks a free page used. */
    method Take(page: nat)
      requires Valid() && page < MAX_PAGES && own[page] == Free
      modifies this`free_count, this`own, mem.frame
      ensures Valid() && SameOutside(old(mem.Image()), mem.Image(), bitmap)
      ensures own == old(own)[page := Held]
    {
      hide Used;
      BitmapSet(page);
      assert page in FreePages(own);
      if free_count > 0 { free_count := free_count - 1; }
      FreeChange(own, page, Held);
      own := own[page := Held];
    }

    /** pmm_alloc_page: the lowest free page, or PMM_NULL when there is none. */
    method AllocPage() returns (paddr: Word)
      requires Valid()
      modifies this`free_count, this`own, mem.frame
      ensures Valid() && SameOutside(old(mem.Image()), mem.Image(), bitmap)
      ensures paddr % 4096 == 0
      ensures paddr == 0 <==> FreePages(old(own)) == {}
      ensures paddr == 0 ==> own == old(own) && mem.Image() == old(mem.Image())
      ensures paddr != 0 ==>
                var page := paddr / 4096;
                && 0 < page < MAX_PAGES && old(own)[page] == Free
                && (forall q :: 0 <= q < page ==> old(own)[q] != Free)
                && own == old(own)[page := Held]
    {
      hide Used, BitmapOk, FreePages;
      LedgerSize(mem.Image(), own, bitmap);
      for w := 0 to BITMAP_WORDS
        invariant Valid() && own == old(own) && mem.Image() == old(mem.Image())
        invariant NoneFree(own, w * 64)
      {
        FirstFree(mem.Image(), own, bitmap, w);
        var word := mem.Load(bitmap + w / 512, w % 512);
        if word != U64 - 1 {
          var page := w * 64 + LowestClear(word);
          Take(page);
          return page * 4096;
        }
      }
      return 0;
    }

    /** pmm_free_page: null and out-of-range addresses are ignored.  Freeing a page that is free
        already makes the count wrong, freeing the bitmap gives it away; any other page is fine. */
    method FreePage(paddr: Word)
      requires Valid()
      modifies this`free_count, this`own, mem.frame
      ensures Valid() <==> !MayNotFree(old(own), bitmap, paddr / 4096)
      ensures |mem.Image()| == |old(mem.Image())| && SameOutside(old(mem.Image()), mem.Image(), bitmap)
      ensures own == if 0 < paddr / 4096 < MAX_PAGES then old(own)[paddr / 4096 := Free] else old(own)
    {
      var page := paddr / 4096;
      if page == 0 || page >= MAX_PAGES {
        return;
      }
      ghost var img := mem.Image();
      assert page < |own| && Placed(page);
      hide BitmapOk, Used, FreePages;
      BitmapClear(page);
      FreeLedger(img, own, mem.Image(), bitmap, page);
      free_count := free_count + 1;
      own := own[page := Free];
    }

    /** Reading a word of a page that is in use. */
    method ReadWord(page: nat, slot: nat) returns (w: Word)
      requires Valid() && InUse(page) && slot < 512
      ensures w == mem.Image()[page][slot]
    {
      w := mem.Load(page, slot);
    }

    /** A page that is in use may be written through the direct map. */
    ghost predicate InUse(page: nat)
      reads this
    {
      page < |own| && !own[page].Free? && !own[page].Reserved?
    }

    method WriteWord(page: nat, slot: nat, w: Word)
      requires Valid() && InUse(page) && slot < 512
      modifies mem.frame
      ensures Valid() && mem.Image() == WithWord(old(mem.Image()), page, slot, w)
    {
      mem.Store(page, slot, w);
      BitmapFrame(old(mem.Image()), mem.Image(), own, bitmap);
    }

    /** kmemset(PHYS_TO_VIRT(pa), 0, PMM_PAGE_SIZE) */
    method ZeroPage(page: nat)
      requires Valid() && InUse(page)
      modifies mem.frame
      ensures Valid() && IsZero(mem.Image()[page])
      ensures |mem.Image()| == old(|mem.Image()|)
      ensures forall p :: 0 <= p < |mem.Image()| && p != page ==> mem.Image()[p] == old(mem.Image())[p]
    {
      mem.Fill(page, 0);
      BitmapFrame(old(mem.Image()), mem.Image(), own, bitmap);
    }

    /** kmemset of `count` words starting at `slot`. */
    method ZeroWords(page: nat, slot: nat, count: nat)
      requires Valid() && InUse(page) && slot + count <= 512
      modifies mem.frame
      ensures Valid() && |mem.Image()| == old(|mem.Image()|)
      ensures forall p :: 0 <= p < |mem.Image()| && p != page ==> mem.Image()[p] == old(mem.Image())[p]
      ensures forall j :: 0 <= j < 512 ==>
                mem.Image()[page][j] == if slot <= j < slot + count then 0 else old(mem.Image())[page][j]
    {
      for n := 0 to count
        invariant Valid() && |mem.Image()| == old(|mem.Image()|)
        invariant forall p :: 0 <= p < |mem.Image()| && p != page ==> mem.Image()[p] == old(mem.Image())[p]
        invariant forall j :: 0 <= j < 512 ==>
                    mem.Image()[page][j] == if slot <= j < slot + n then 0 else old(mem.Image())[page][j]
      {
        WriteWord(page, slot + n, 0);
      }
    }

    /** Names the reserved pages that hold the kernel's own page tables. */
    ghost method AdoptKernelTables(tables: map<nat, Owner>)
      requires Valid() && forall p :: p in tables ==>
                 0 < p < |own| && own[p].Reserved? && !(bitmap <= p < bitmap + BITMAP_PAGES) && tables[p].Kernel?
      modifies this`own
      ensures Valid() && own == WithTables(old(own), tables)
    {
      hide Used;
      assert FreePages(WithTables(own, tables)) == FreePages(own);
      own := WithTables(own, tables);
    }

    /** A page in use changes its purpose. */
    ghost method Relabel(page: nat, o: Owner)
      requires Valid() && InUse(page) && !o.Free? && !o.Reserved?
      modifies this`own
      ensures Valid() && own == old(own)[page := o]
    {
      FreeChange(own, page, o);
      own := own[page := o];
    }
  }
}
