/** vm/zalloc.c: zones of equal-sized elements carved from PMM pages, with the free list threaded
    through the first word of every free slot.

    A slot is named by the physical word address of its first word, `page * 512 + offset`. */
module Zalloc {
  import opened Words
  import opened Seqs
  import opened Arith
  import opened PhysMem
  import opened Pmm

  function SlotOffset(k: nat, words: nat): nat { k * words }

  /** `a` is the first word of a slot in one of the zone's pages. */
  ghost predicate IsSlot(pages: set<nat>, words: nat, a: nat)
    requires 1 <= words <= 512
  {
    a / 512 in pages && exists k :: 0 <= k < 512 / words && a % 512 == SlotOffset(k, words)
  }

  function WordAt(img: Image, a: nat): Word
    requires a / 512 < |img|
  {
    img[a / 512][a % 512]
  }

  /** The direct-map address of a slot. */
  function Virt(hhdm: nat, a: nat): nat { hhdm + a * 8 }

  function HeadOf(hhdm: nat, free: seq<nat>): nat
  {
    if free == [] then 0 else Virt(hhdm, free[0])
  }

  /** The free list starting at `free[0]` is stored link by link in memory. */
  ghost predicate Chain(img: Image, hhdm: nat, free: seq<nat>)
  {
    forall i :: 0 <= i < |free| ==>
      free[i] / 512 < |img| && WordAt(img, free[i]) == HeadOf(hhdm, free[i + 1..])
  }

  /** Every slot of the zone's pages is either on the free list or live, never both. */
  ghost predicate Partitioned(pages: set<nat>, words: nat, free: seq<nat>, live: set<nat>)
    requires 1 <= words <= 512
  {
    && Distinct(free)
    && (forall a :: a in free || a in live <==> IsSlot(pages, words, a))
    && (forall a :: a in live ==> a !in free)
  }

  lemma OffsetsApart(j: nat, k: nat, words: nat)
    requires j < k
    ensures SlotOffset(j, words) + words <= SlotOffset(k, words)
  {
    assert (j + 1) * words <= k * words;
  }

  /** A slot lies inside its page. */
  lemma SlotFits(pages: set<nat>, words: nat, a: nat)
    requires 1 <= words <= 512 && IsSlot(pages, words, a)
    ensures a % 512 + words <= 512
    ensures forall x :: a <= x < a + words ==> x / 512 == a / 512
  {
    var k :| 0 <= k < 512 / words && a % 512 == SlotOffset(k, words);
    OffsetsApart(k, 512 / words, words);
    assert SlotOffset(512 / words, words) <= 512;
  }

  /** Different slots never overlap. */
  lemma SlotsApart(pages: set<nat>, words: nat, a: nat, b: nat)
    requires 1 <= words <= 512 && IsSlot(pages, words, a) && IsSlot(pages, words, b) && a != b
    ensures a + words <= b || b + words <= a
  {
    hide SlotOffset;
    SlotFits(pages, words, a);
    SlotFits(pages, words, b);
    var j :| 0 <= j < 512 / words && a % 512 == SlotOffset(j, words);
    var k :| 0 <= k < 512 / words && b % 512 == SlotOffset(k, words);
    if j < k { OffsetsApart(j, k, words); }
    if k < j { OffsetsApart(k, j, words); }
  }

  /** Writes inside a live element leave the free list as it was. */
  lemma LiveWritesKeepChain(img: Image, img': Image, hhdm: nat, pages: set<nat>, words: nat,
                            free: seq<nat>, live: set<nat>, a: nat)
    requires 1 <= words <= 512 && Partitioned(pages, words, free, live) && Chain(img, hhdm, free)
    requires a in live && |img'| == |img|
    requires forall x: nat :: x / 512 < |img| && !(a <= x < a + words) ==> WordAt(img', x) == WordAt(img, x)
    ensures Chain(img', hhdm, free)
  {
    forall i | 0 <= i < |free| ensures WordAt(img', free[i]) == HeadOf(hhdm, free[i + 1..]) {
      SlotsApart(pages, words, a, free[i]);
    }
  }

  /** Pushing: the new head's first word points at the old head. */
  lemma PushChain(img: Image, img': Image, hhdm: nat, free: seq<nat>, a: nat)
    requires Chain(img, hhdm, free) && a !in free && a / 512 < |img| && HeadOf(hhdm, free) < U64
    requires img' == WithWord(img, a / 512, a % 512, HeadOf(hhdm, free))
    ensures Chain(img', hhdm, [a] + free)
  {
    var free' := [a] + free;
    assert free'[1..] == free;
    forall i | 0 <= i < |free'| ensures free'[i] / 512 < |img'| && WordAt(img', free'[i]) == HeadOf(hhdm, free'[i + 1..]) {
      if i > 0 {
        assert free'[i] == free[i - 1] && free'[i + 1..] == free[i..];
        assert free[i - 1] != a;
      }
    }
  }

  lemma PopChain(img: Image, hhdm: nat, free: seq<nat>)
    requires Chain(img, hhdm, free) && free != []
    ensures Chain(img, hhdm, free[1..])
    ensures free[0] / 512 < |img| && WordAt(img, free[0]) == HeadOf(hhdm, free[1..])
  {
    forall i | 0 <= i < |free| - 1
      ensures free[1..][i] / 512 < |img| && WordAt(img, free[1..][i]) == HeadOf(hhdm, free[1..][i + 1..])
    {
      assert free[1..][i + 1..] == free[i + 2..];
    }
  }

  /** Writes to other pages leave the list as it was. */
  lemma ForeignWritesKeepList(img: Image, img': Image, hhdm: nat, free: seq<nat>, head: nat, count: nat)
    requires ListOk(img, hhdm, free, head, count) && |img'| == |img|
    requires forall a :: a in free ==> a / 512 < |img| && img'[a / 512] == img[a / 512]
    ensures ListOk(img', hhdm, free, head, count)
  {
    forall i | 0 <= i < |free| ensures WordAt(img', free[i]) == HeadOf(hhdm, free[i + 1..]) {
      assert free[i] in free;
    }
  }

  lemma PopPartition(pages: set<nat>, words: nat, free: seq<nat>, live: set<nat>)
    requires 1 <= words <= 512 && Partitioned(pages, words, free, live) && free != []
    ensures Partitioned(pages, words, free[1..], live + {free[0]})
    ensures free[0] !in live && IsSlot(pages, words, free[0])
  {
    assert free[0] in free;
    forall a ensures a in free <==> a == free[0] || a in free[1..] {}
  }

  lemma PushPartition(pages: set<nat>, words: nat, free: seq<nat>, live: set<nat>, a: nat)
    requires 1 <= words <= 512 && Partitioned(pages, words, free, live) && a in live
    ensures Partitioned(pages, words, [a] + free, live - {a})
    ensures a !in free && IsSlot(pages, words, a)
  {}

  /** The list field, the count and the links in memory all describe `free`. */
  ghost predicate ListOk(img: Image, hhdm: nat, free: seq<nat>, head: nat, count: nat)
  {
    Distinct(free) && Chain(img, hhdm, free) && head == HeadOf(hhdm, free) && count == |free|
  }

  ghost predicate SameBeside(img: Image, img': Image, page: nat)
  {
    |img'| == |img| && forall p :: 0 <= p < |img| && p != page ==> img'[p] == img[p]
  }

  lemma PushList(img: Image, img': Image, hhdm: nat, free: seq<nat>, head: nat, count: nat, a: nat)
    requires ListOk(img, hhdm, free, head, count) && a !in free && a / 512 < |img| && head < U64
    requires img' == WithWord(img, a / 512, a % 512, head)
    ensures ListOk(img', hhdm, [a] + free, Virt(hhdm, a), count + 1)
  {
    PushChain(img, img', hhdm, free, a);
  }

  lemma ListDistinct(img: Image, hhdm: nat, free: seq<nat>, head: nat, count: nat)
    requires ListOk(img, hhdm, free, head, count)
    ensures Distinct(free) && count == |free|
  {}

  lemma ListFits(img: Image, hhdm: nat, frames: nat, free: seq<nat>, head: nat, count: nat)
    requires ListOk(img, hhdm, free, head, count)
    requires hhdm + frames * 4096 <= U64 && forall a :: a in free ==> a / 512 < frames
    ensures head < U64
  {
    if free != [] { assert free[0] in free; }
  }

  lemma PerPageIs(elem_size: nat, words: nat)
    requires 1 <= words <= 512 && elem_size == 8 * words
    ensures PAGE_SIZE / elem_size == 512 / words
  {
    assert 512 / words * words <= 512 < (512 / words + 1) * words;
    DivIs(4096, elem_size, 512 / words, 4096 - 512 / words * elem_size);
  }

  lemma GrowthCount(pages: nat, per: nat)
    ensures (pages + 1) * per == pages * per + per
  {}

  lemma NothingGrown(page: nat, words: nat)
    ensures forall a :: !GrownSlot(page, words, 0, a)
  {}

  lemma GrowOne(page: nat, words: nat, k: nat)
    requires SlotOffset(k, words) < 512
    ensures forall a {:trigger GrownSlot(page, words, k + 1, a)} ::
              GrownSlot(page, words, k + 1, a) <==>
              GrownSlot(page, words, k, a) || a == page * 512 + SlotOffset(k, words)
  {
    var a := page * 512 + SlotOffset(k, words);
    assert a / 512 == page && a % 512 == SlotOffset(k, words);
  }

  lemma ZoneStepRefl(img: Image, own: Ledger, bm: nat, id: nat)
    requires |own| <= |img|
    ensures ZoneStep(img, own, img, own, bm, id)
  {}

  lemma ZoneGrew(img: Image, own: Ledger, img1: Image, img2: Image, bm: nat, id: nat, page: nat)
    requires page < |own| <= |img| && own[page] == Free && SameOutside(img, img1, bm) && SameBeside(img1, img2, page)
    ensures ZoneStep(img, own, img2, own[page := Held][page := ZonePage(id)], bm, id)
  {}

  lemma SlotsInPages(pages: set<nat>, words: nat, free: seq<nat>, live: set<nat>)
    requires 1 <= words <= 512 && Partitioned(pages, words, free, live)
    ensures forall a :: a in free || a in live ==> a / 512 in pages
  {}

  lemma LedgerFits(img: Image, own: Ledger, bm: nat)
    requires BitmapOk(img, own, bm)
    ensures |own| == MAX_PAGES <= |img| && own[0].Reserved?
  {}

  ghost predicate ZeroedAt(img: Image, a: nat, words: nat)
  {
    a / 512 < |img| && a % 512 + words <= 512
    && forall j :: a % 512 <= j < a % 512 + words ==> img[a / 512][j] == 0
  }

  /** Every live element keeps its contents. */
  ghost predicate LiveKept(img: Image, img': Image, live: set<nat>, words: nat)
  {
    forall b :: b in live ==>
      b / 512 < |img| && b / 512 < |img'| && b % 512 + words <= 512
      && forall j :: b % 512 <= j < b % 512 + words ==> img'[b / 512][j] == img[b / 512][j]
  }

  lemma LiveKeptByPages(img: Image, img': Image, pages: set<nat>, live: set<nat>, words: nat)
    requires 1 <= words <= 512 && |img'| == |img|
    requires forall b :: b in live ==> IsSlot(pages, words, b)
    requires forall p :: p in pages ==> 0 <= p < |img| && img'[p] == img[p]
    ensures LiveKept(img, img', live, words)
  {
    forall b | b in live ensures b % 512 + words <= 512 { SlotFits(pages, words, b); }
  }

  lemma LiveKeptTransitive(img: Image, img1: Image, img2: Image, live: set<nat>, words: nat)
    requires LiveKept(img, img1, live, words) && LiveKept(img1, img2, live, words)
    ensures LiveKept(img, img2, live, words)
  {}

  /** A step followed by writes inside one page of the zone. */
  lemma ZoneStepWithin(img: Image, own: Ledger, img1: Image, own1: Ledger, img2: Image, bm: nat, id: nat, page: nat)
    requires ZoneStep(img, own, img1, own1, bm, id) && SameBeside(img1, img2, page)
    requires page < |own1| && own1[page] == ZonePage(id)
    ensures ZoneStep(img, own, img2, own1, bm, id)
  {}

  ghost predicate ZeroedIn(img: Image, img': Image, a: nat, words: nat)
  {
    && |img'| == |img| && a / 512 < |img| && SameBeside(img, img', a / 512)
    && forall j :: 0 <= j < 512 ==>
         img'[a / 512][j] == if a % 512 <= j < a % 512 + words then 0 else img[a / 512][j]
  }

  lemma ListHead(img: Image, hhdm: nat, free: seq<nat>, head: nat, count: nat)
    requires ListOk(img, hhdm, free, head, count) && free != []
    ensures head == Virt(hhdm, free[0]) && (head - hhdm) / 8 == free[0] && free[0] / 512 < |img| && count > 0
  {}

  /** Popping the head and zeroing the element keeps the rest of the list and all live elements. */
  lemma PopList(img: Image, img': Image, hhdm: nat, pages: set<nat>, words: nat,
                free: seq<nat>, live: set<nat>, head: nat, count: nat)
    requires 1 <= words <= 512 && Partitioned(pages, words, free, live) && free != []
    requires ListOk(img, hhdm, free, head, count) && ZeroedIn(img, img', free[0], words)
    requires forall b :: b in live ==> b / 512 < |img|
    ensures ListOk(img', hhdm, free[1..], WordAt(img, free[0]), count - 1)
    ensures ZeroedAt(img', free[0], words) && LiveKept(img, img', live, words)
  {
    var a := free[0];
    PopPartition(pages, words, free, live);
    PopChain(img, hhdm, free);
    SlotFits(pages, words, a);
    forall x: nat | x / 512 < |img| && !(a <= x < a + words) ensures WordAt(img', x) == WordAt(img, x) {
      if x / 512 == a / 512 { assert !(a % 512 <= x % 512 < a % 512 + words); }
    }
    LiveWritesKeepChain(img, img', hhdm, pages, words, free[1..], live + {a}, a);
    forall b | b in live
      ensures b / 512 < |img| && b % 512 + words <= 512
      ensures forall j :: b % 512 <= j < b % 512 + words ==> img'[b / 512][j] == img[b / 512][j]
    {
      SlotFits(pages, words, b);
      SlotsApart(pages, words, a, b);
    }
  }

  lemma SlotsPositive(img: Image, own: Ledger, bm: nat, pages: set<nat>, words: nat, free: seq<nat>, live: set<nat>)
    requires 1 <= words <= 512 && Partitioned(pages, words, free, live) && BitmapOk(img, own, bm)
    requires forall p :: p in pages ==> 0 <= p < |own| && own[p].ZonePage?
    ensures forall a :: a in free ==> a > 0
    ensures forall a :: a in live ==> IsSlot(pages, words, a) && a / 512 < |img|
    ensures |own| <= |img|
    ensures forall p :: p in pages ==> p < |img|
  {}

  lemma HeadNull(img: Image, hhdm: nat, free: seq<nat>, head: nat, count: nat)
    requires ListOk(img, hhdm, free, head, count)
    requires forall a :: a in free ==> a > 0
    ensures head == 0 <==> free == []
  {
    if free != [] { assert free[0] in free; }
  }

  /** Free slots sit in pages of the zone, so taking a free page leaves them alone. */
  lemma FreeSlotsInPages(img: Image, own: Ledger, bm: nat, pages: set<nat>, words: nat,
                         free: seq<nat>, live: set<nat>, page: nat)
    requires 1 <= words <= 512 && Partitioned(pages, words, free, live) && BitmapOk(img, own, bm)
    requires forall p :: p in pages ==> 0 <= p < |own| && own[p].ZonePage?
    requires page < |own| && own[page].Free?
    ensures page !in pages && page < |img| && Distinct(free)
    ensures forall p :: p in pages ==> 0 <= p < |img| && !(bm <= p < bm + BITMAP_PAGES)
    ensures forall a :: a in free || a in live ==>
              a / 512 in pages && a / 512 < |img| && a / 512 != page && !(bm <= a / 512 < bm + BITMAP_PAGES)
  {}

  lemma AllOffsetsFit(words: nat)
    requires words > 0
    ensures SlotOffset(512 / words, words) <= 512
  {}

  /** The k-th slot of a page lies inside it and is none of the earlier ones. */
  lemma NewSlot(page: nat, words: nat, k: nat)
    requires 1 <= words <= 512 && k < 512 / words
    ensures SlotOffset(k, words) + words <= 512
    ensures var a := page * 512 + SlotOffset(k, words);
            a / 512 == page && a % 512 == SlotOffset(k, words) && !GrownSlot(page, words, k, a)
  {
    hide SlotOffset;
    OffsetsApart(k, 512 / words, words);
    AllOffsetsFit(words);
    DivIs(page * 512 + SlotOffset(k, words), 512, page, SlotOffset(k, words));
    forall j | 0 <= j < k ensures SlotOffset(j, words) != SlotOffset(k, words) { OffsetsApart(j, k, words); }
  }

  /** The slots pushed by zone_grow so far. */
  ghost predicate GrownSlot(page: nat, words: nat, n: nat, a: nat)
  {
    a / 512 == page && exists k :: 0 <= k < n && a % 512 == SlotOffset(k, words)
  }

  lemma GrowPartition(pages: set<nat>, words: nat, free: seq<nat>, free': seq<nat>, live: set<nat>, page: nat)
    requires 1 <= words <= 512 && Partitioned(pages, words, free, live) && page !in pages
    requires Distinct(free')
    requires forall a :: a in free' <==> a in free || GrownSlot(page, words, 512 / words, a)
    ensures Partitioned(pages + {page}, words, free', live)
  {
    forall a ensures IsSlot(pages + {page}, words, a) <==> IsSlot(pages, words, a) || GrownSlot(page, words, 512 / words, a) {}
  }

  /** Elements of different zones share no word: their pages have different owners. */
  lemma ZonesApart(own: Ledger, id: nat, pages: set<nat>, words: nat, a: nat,
                   id': nat, pages': set<nat>, words': nat, b: nat, x: nat)
    requires 1 <= words <= 512 && IsSlot(pages, words, a) && 1 <= words' <= 512 && IsSlot(pages', words', b)
    requires id != id'
    requires forall p :: p in pages ==> p < |own| && own[p] == ZonePage(id)
    requires forall p :: p in pages' ==> p < |own| && own[p] == ZonePage(id')
    ensures !(a <= x < a + words && b <= x < b + words')
  {
    SlotFits(pages, words, a);
    SlotFits(pages', words', b);
  }

  /** Pages of other owners and the zone's live elements keep their contents; only free pages may
      become pages of this zone. */
  ghost predicate ZoneStep(img: Image, own: Ledger, img': Image, own': Ledger, bm: nat, id: nat)
  {
    && |img'| == |img| && |own'| == |own| <= |img|
    && (forall p :: 0 <= p < |own| ==> own'[p] == own[p] || (own[p].Free? && own'[p] == ZonePage(id)))
    && (forall p :: 0 <= p < |img| && KeptByZone(own, bm, id, p) ==> img'[p] == img[p])
  }

  ghost predicate KeptByZone(own: Ledger, bm: nat, id: nat, p: nat)
  {
    !(bm <= p < bm + BITMAP_PAGES) && (p < |own| ==> own[p] != Free && own[p] != ZonePage(id))
  }

  /** `elem` is where element `k` of page `page` starts when elements of `size` bytes fill a page from
      its first byte on. */
  ghost predicate ElementAt(hhdm: nat, size: nat, elem: nat, page: nat, k: nat)
  {
    elem == hhdm + page * 4096 + k * size && (k + 1) * size <= 4096
  }

  /** `elem` is one of the elements in the pages of zone `id`. */
  ghost predicate ElementOf(own: Ledger, id: nat, hhdm: nat, size: nat, elem: nat)
  {
    exists page: nat, k: nat :: page < |own| && own[page] == ZonePage(id) && ElementAt(hhdm, size, elem, page, k)
  }

  lemma SlotIsElement(own: Ledger, id: nat, hhdm: nat, pages: set<nat>, size: nat, elem: nat)
    requires 8 <= size <= 4096 && size % 8 == 0 && elem >= hhdm && elem == Virt(hhdm, (elem - hhdm) / 8)
    requires IsSlot(pages, size / 8, (elem - hhdm) / 8) && (elem - hhdm) / 8 / 512 < |own|
    requires own[(elem - hhdm) / 8 / 512] == ZonePage(id)
    ensures ElementOf(own, id, hhdm, size, elem)
  {
    var a, words := (elem - hhdm) / 8, size / 8;
    SlotFits(pages, words, a);
    var k :| 0 <= k < 512 / words && a % 512 == SlotOffset(k, words);
    assert k * size == 8 * (k * words) && (k + 1) * size == k * size + size;
    assert ElementAt(hhdm, size, elem, a / 512, k);
  }

  /** `elem` is the direct-map address of a live slot. */
  ghost predicate LiveElement(hhdm: nat, live: set<nat>, elem: nat)
  {
    elem >= hhdm && elem == Virt(hhdm, (elem - hhdm) / 8) && (elem - hhdm) / 8 in live
  }

  class Zone {
    const pmm: PageAllocator
    const id: nat
    const elem_size: nat
    const max_size: nat
    var cur_size: nat
    var free_list: nat
    var count_free: nat
    var count_alloc: nat
    ghost var pages: set<nat>
    ghost var free: seq<nat>
    ghost var live: set<nat>

    /** zinit: sizes below a pointer are raised to one, then rounded up to whole pointers. */
    constructor (pmm: PageAllocator, id: nat, elem_size: nat, max_size: nat)
      requires pmm.Valid() && pmm.mem.hhdm + pmm.mem.frame.Length * 4096 <= U64
      requires elem_size <= 4096
      requires forall p :: 0 <= p < |pmm.own| ==> pmm.own[p] != ZonePage(id)
      ensures Valid() && this.pmm == pmm && this.id == id && this.max_size == max_size
      ensures this.elem_size >= elem_size && this.elem_size < (if elem_size < 8 then 8 else elem_size) + 8
      ensures this.elem_size % 8 == 0
      ensures pages == {} && free == [] && live == {}
    {
      var size := if elem_size < 8 then 8 else elem_size;
      this.pmm, this.id, this.max_size := pmm, id, max_size;
      this.elem_size := (size + 7) / 8 * 8;
      cur_size, free_list, count_free, count_alloc := 0, 0, 0, 0;
      pages, free, live := {}, [], {};
    }

    function Words(): nat { elem_size / 8 }
    function PerPage(): nat requires Words() > 0 { 512 / Words() }

    ghost predicate Shape()
    {
      elem_size % 8 == 0 && 1 <= Words() <= 512 && pmm.mem.hhdm + pmm.mem.frame.Length * 4096 <= U64
    }

    ghost predicate Valid()
      reads this, pmm, pmm.mem.frame
    {
      && pmm.Valid() && Shape()
      && (forall p :: p in pages <==> 0 <= p < |pmm.own| && pmm.own[p] == ZonePage(id))
      && Partitioned(pages, Words(), free, live)
      && ListOk(pmm.mem.Image(), pmm.mem.hhdm, free, free_list, count_free)
      && count_alloc == |live| && cur_size == |pages| * 4096
      && count_free + count_alloc == |pages| * PerPage()
    }

    lemma SlotsPerPage()
      requires Shape()
      ensures PerPage() == 4096 / elem_size
    {
      PerPageIs(elem_size, Words());
    }

    /** zone_grow: 0 when a page was added, -1 when the zone is full or memory has run out. */
    method Grow() returns (r: int)
      requires Valid()
      modifies this, pmm, pmm.mem.frame
      ensures Valid() && pmm.bitmap == old(pmm.bitmap) && live == old(live)
      ensures r == 0 || r == -1
      ensures r == -1 <==> (max_size != 0 && old(cur_size) >= max_size) || FreePages(old(pmm.own)) == {}
      ensures r == -1 ==>
                && pmm.own == old(pmm.own) && pmm.mem.Image() == old(pmm.mem.Image())
                && pages == old(pages) && free == old(free) && cur_size == old(cur_size)
      ensures r == 0 ==> |free| == |old(free)| + PerPage() && free[PerPage()..] == old(free)
      ensures PerPage() == 4096 / elem_size
      ensures r == 0 ==> old(pages) <= pages && cur_size == old(cur_size) + PAGE_SIZE
      ensures ZoneStep(old(pmm.mem.Image()), old(pmm.own), pmm.mem.Image(), pmm.own, pmm.bitmap, id)
      ensures forall p :: p in old(pages) ==> pmm.mem.Image()[p] == old(pmm.mem.Image())[p]
    {
      assert |pmm.own| <= |pmm.mem.Image()|;
      hide Partitioned, ListOk, BitmapOk, IsSlot, ZoneStep, PerPage, Words;
      SlotsPerPage();
      ghost var img, own := pmm.mem.Image(), pmm.own;
      ZoneStepRefl(img, own, pmm.bitmap, id);
      if max_size != 0 && cur_size >= max_size {
        return -1;
      }
      var paddr := FetchPage();
      if paddr == 0 {
        return -1;
      }
      ghost var img1 := pmm.mem.Image();
      AddPage(paddr / 4096);
      ZoneGrew(img, own, img1, pmm.mem.Image(), pmm.bitmap, id, paddr / 4096);
      return 0;
    }

    /** pmm_alloc_page on behalf of the zone: its own pages are not concerned. */
    method FetchPage() returns (paddr: Word)
      requires Valid()
      modifies pmm`free_count, pmm`own, pmm.mem.frame
      ensures Valid() && |pmm.own| <= pmm.mem.frame.Length
      ensures paddr == 0 <==> FreePages(old(pmm.own)) == {}
      ensures paddr == 0 ==> pmm.own == old(pmm.own) && pmm.mem.Image() == old(pmm.mem.Image())
      ensures paddr != 0 ==>
                && paddr / 4096 < |pmm.own| == |old(pmm.own)| && old(pmm.own)[paddr / 4096].Free?
                && pmm.own == old(pmm.own)[paddr / 4096 := Held]
      ensures SameOutside(old(pmm.mem.Image()), pmm.mem.Image(), pmm.bitmap)
      ensures forall p :: p in pages ==>
                p < pmm.mem.frame.Length && pmm.mem.Image()[p] == old(pmm.mem.Image())[p] && p != paddr / 4096
    {
      hide Partitioned, ListOk, IsSlot, Used;
      ghost var img, own := pmm.mem.Image(), pmm.own;
      paddr := pmm.AllocPage();
      if paddr != 0 {
        FreeSlotsInPages(img, own, pmm.bitmap, pages, Words(), free, live, paddr / 4096);
        ForeignWritesKeepList(img, pmm.mem.Image(), pmm.mem.hhdm, free, free_list, count_free);
      }
    }

    /** zone_grow once the page is there. */
    method AddPage(page: nat)
      requires Valid() && page < |pmm.own| <= pmm.mem.frame.Length && pmm.own[page] == Held
      modifies this`cur_size, this`pages, this`free_list, this`count_free, this`free, pmm`own, pmm.mem.frame
      ensures Valid() && pages == old(pages) + {page} && cur_size == old(cur_size) + PAGE_SIZE
      ensures pmm.own == old(pmm.own)[page := ZonePage(id)]
      ensures |free| == |old(free)| + PerPage() && free[PerPage()..] == old(free)
      ensures SameBeside(old(pmm.mem.Image()), pmm.mem.Image(), page)
    {
      hide Partitioned, ListOk, BitmapOk, IsSlot, SameBeside;
      SlotsInPages(pages, Words(), free, live);
      ListDistinct(pmm.mem.Image(), pmm.mem.hhdm, free, free_list, count_free);
      pmm.Relabel(page, ZonePage(id));
      ghost var was := free;
      Carve(page);
      GrowPartition(pages, Words(), was, free, live, page);
      GrowthCount(|pages|, PerPage());
      cur_size := cur_size + PAGE_SIZE;
      pages := pages + {page};
    }

    /** State of the loop of zone_grow after `i` slots of the new page: `was` and `count` are the list it
        started from, `img` the memory. */
    ghost predicate Carving(page: nat, i: nat, was: seq<nat>, count: nat, img: Image)
      reads this, pmm, pmm.mem.frame
    {
      && pmm.Valid() && Shape() && page < |pmm.own| <= pmm.mem.frame.Length && pmm.own[page] == ZonePage(id)
      && i <= PerPage() && (forall a :: a in free ==> a / 512 < pmm.mem.frame.Length)
      && (forall a :: a in was ==> a / 512 != page)
      && ListOk(pmm.mem.Image(), pmm.mem.hhdm, free, free_list, count_free)
      && |free| == |was| + i && free[i..] == was && count_free == count + i
      && (forall a :: a in free <==> a in was || GrownSlot(page, Words(), i, a))
      && SameBeside(img, pmm.mem.Image(), page)
    }

    /** One turn of the loop: pushes slot `i`. */
    method CarveOne(page: nat, i: nat, ghost was: seq<nat>, ghost count: nat, ghost img0: Image)
      requires Carving(page, i, was, count, img0) && i < PerPage()
      modifies this`free_list, this`count_free, this`free, pmm.mem.frame
      ensures Carving(page, i + 1, was, count, img0)
    {
      hide ListOk, GrownSlot, BitmapOk;
      var slot := SlotOffset(i, Words());
      var a := page * 512 + slot;
      NewSlot(page, Words(), i);
      ListFits(pmm.mem.Image(), pmm.mem.hhdm, pmm.mem.frame.Length, free, free_list, count_free);
      ghost var img := pmm.mem.Image();
      assert a / 512 == page && a % 512 == slot && a !in free;
      pmm.WriteWord(page, slot, free_list);
      PushList(img, pmm.mem.Image(), pmm.mem.hhdm, free, free_list, count_free, a);
      GrowOne(page, Words(), i);
      free_list := Virt(pmm.mem.hhdm, a);
      free := [a] + free;
      count_free := count_free + 1;
    }

    /** The loop of zone_grow: pushes every slot of the new page. */
    method Carve(page: nat)
      requires pmm.Valid() && Shape() && page < |pmm.own| <= pmm.mem.frame.Length && pmm.own[page] == ZonePage(id)
      requires forall a :: a in free ==> a / 512 < pmm.mem.frame.Length && a / 512 != page
      requires ListOk(pmm.mem.Image(), pmm.mem.hhdm, free, free_list, count_free)
      modifies this`free_list, this`count_free, this`free, pmm.mem.frame
      ensures pmm.Valid() && ListOk(pmm.mem.Image(), pmm.mem.hhdm, free, free_list, count_free)
      ensures |free| == |old(free)| + PerPage() && free[PerPage()..] == old(free) && Distinct(free)
      ensures count_free == old(count_free) + PerPage()
      ensures forall a :: a in free <==> a in old(free) || GrownSlot(page, Words(), PerPage(), a)
      ensures SameBeside(old(pmm.mem.Image()), pmm.mem.Image(), page)
    {
      hide ListOk, GrownSlot, BitmapOk;
      PerPageIs(elem_size, Words());
      var n := PAGE_SIZE / elem_size;
      var i := 0;
      NothingGrown(page, Words());
      while i < n
        invariant 0 <= i <= n && Carving(page, i, old(free), old(count_free), old(pmm.mem.Image()))
      {
        CarveOne(page, i, old(free), old(count_free), old(pmm.mem.Image()));
        i := i + 1;
      }
      ListDistinct(pmm.mem.Image(), pmm.mem.hhdm, free, free_list, count_free);
    }

    /** The slot whose direct-map address is `elem`. */
    function SlotOf(elem: nat): nat
      requires elem >= pmm.mem.hhdm
    {
      (elem - pmm.mem.hhdm) / 8
    }

    ghost predicate IsLive(elem: nat)
      reads this
    {
      LiveElement(pmm.mem.hhdm, live, elem)
    }

    /** No element is left and the zone cannot grow. */
    ghost predicate Exhausted()
      reads this, pmm
    {
      free == [] && ((max_size != 0 && cur_size >= max_size) || FreePages(pmm.own) == {})
    }

    /** zalloc: a zeroed element that was not live before, or NULL. */
    method Alloc() returns (elem: nat)
      requires Valid()
      modifies this, pmm, pmm.mem.frame
      ensures Valid() && pmm.bitmap == old(pmm.bitmap)
      ensures elem == 0 <==>
              old(free) == [] && ((max_size != 0 && old(cur_size) >= max_size) || FreePages(old(pmm.own)) == {})
      ensures elem == 0 ==>
                && pmm.own == old(pmm.own) && pmm.mem.Image() == old(pmm.mem.Image())
                && free == old(free) && live == old(live) && Exhausted()
      ensures elem != 0 ==>
                var slot := (elem - pmm.mem.hhdm) / 8;
                && ElementOf(pmm.own, id, pmm.mem.hhdm, elem_size, elem) && elem == pmm.mem.hhdm + 8 * slot
                && IsLive(elem) && slot !in old(live) && live == old(live) + {slot}
                && IsSlot(pages, elem_size / 8, slot) && slot / 512 < pmm.mem.frame.Length
                && ZeroedAt(pmm.mem.Image(), slot, elem_size / 8)
                && LiveKept(old(pmm.mem.Image()), pmm.mem.Image(), old(live), elem_size / 8)
      ensures old(free) != [] ==> pmm.own == old(pmm.own)
      ensures ZoneStep(old(pmm.mem.Image()), old(pmm.own), pmm.mem.Image(), pmm.own, pmm.bitmap, id)
    {
      hide Partitioned, ListOk, BitmapOk, IsSlot, ZoneStep, ZeroedAt, LiveKept, ElementOf;
      ghost var img, own := pmm.mem.Image(), pmm.own;
      SlotsPositive(img, own, pmm.bitmap, pages, Words(), free, live);
      HeadNull(img, pmm.mem.hhdm, free, free_list, count_free);
      if free_list == 0 {
        var r := Grow();
        if r != 0 {
          return 0;
        }
      } else {
        ZoneStepRefl(img, own, pmm.bitmap, id);
      }
      ghost var img1, own1 := pmm.mem.Image(), pmm.own;
      LiveKeptByPages(img, img1, old(pages), live, Words());
      elem := Pop();
      ZoneStepWithin(img, own, img1, own1, pmm.mem.Image(), pmm.bitmap, id, SlotOf(elem) / 512);
      LiveKeptTransitive(img, img1, pmm.mem.Image(), old(live), Words());
      SlotIsElement(pmm.own, id, pmm.mem.hhdm, pages, elem_size, elem);
    }

    /** zalloc once the free list is not empty. */
    method Pop() returns (elem: nat)
      requires Valid() && free != []
      modifies this`free_list, this`count_free, this`count_alloc, this`free, this`live, pmm.mem.frame
      ensures Valid() && elem != 0
      ensures IsLive(elem) && SlotOf(elem) == old(free)[0]
      ensures SlotOf(elem) !in old(live) && live == old(live) + {SlotOf(elem)} && free == old(free)[1..]
      ensures IsSlot(pages, Words(), SlotOf(elem)) && SlotOf(elem) / 512 < |pmm.own|
      ensures pmm.own[SlotOf(elem) / 512] == ZonePage(id)
      ensures SameBeside(old(pmm.mem.Image()), pmm.mem.Image(), SlotOf(elem) / 512)
      ensures ZeroedAt(pmm.mem.Image(), SlotOf(elem), Words())
      ensures LiveKept(old(pmm.mem.Image()), pmm.mem.Image(), old(live), Words())
    {
      hide Partitioned, ListOk, BitmapOk, ZeroedAt, LiveKept, FreePages, IsSlot, SameOutside;
      ghost var img, was, wasLive := pmm.mem.Image(), free, live;
      ghost var a := free[0];
      ListHead(img, pmm.mem.hhdm, free, free_list, count_free);
      PopPartition(pages, Words(), free, live);
      SlotFits(pages, Words(), a);
      SlotsPositive(img, pmm.own, pmm.bitmap, pages, Words(), free, live);
      assert a in free && a / 512 in pages;
      elem := free_list;
      var at := SlotOf(elem);
      free_list := pmm.mem.Load(at / 512, at % 512);
      count_free := count_free - 1;
      count_alloc := count_alloc + 1;
      free := free[1..];
      live := live + {a};
      pmm.ZeroWords(at / 512, at % 512, elem_size / 8);
      PopList(img, pmm.mem.Image(), pmm.mem.hhdm, pages, Words(), was, wasLive, elem, count_free + 1);
    }

    /** zfree of a live element. */
    method Free(elem: nat)
      requires Valid() && IsLive(elem)
      modifies this`free_list, this`count_free, this`count_alloc, this`free, this`live, pmm.mem.frame
      ensures Valid() && live == old(live) - {(elem - pmm.mem.hhdm) / 8} && free == [(elem - pmm.mem.hhdm) / 8] + old(free)
      ensures (elem - pmm.mem.hhdm) / 8 / 512 < |pmm.own| && pmm.own[(elem - pmm.mem.hhdm) / 8 / 512] == ZonePage(id)
      ensures SameBeside(old(pmm.mem.Image()), pmm.mem.Image(), (elem - pmm.mem.hhdm) / 8 / 512)
      ensures var slot := (elem - pmm.mem.hhdm) / 8;
              elem == pmm.mem.hhdm + 8 * slot && slot / 512 < pmm.mem.frame.Length
              && pmm.mem.Image()[slot / 512][slot % 512] == old(free_list) && free_list == elem
      ensures forall x: nat :: x / 512 < pmm.mem.frame.Length && x != (elem - pmm.mem.hhdm) / 8 ==>
                WordAt(pmm.mem.Image(), x) == old(WordAt(pmm.mem.Image(), x))
    {
      hide Partitioned, ListOk, BitmapOk, IsSlot;
      ghost var img, was := pmm.mem.Image(), free;
      var at := SlotOf(elem);
      SlotsInPages(pages, Words(), free, live);
      PushPartition(pages, Words(), free, live, at);
      assert at / 512 in pages;
      LedgerFits(img, pmm.own, pmm.bitmap);
      ListFits(img, pmm.mem.hhdm, pmm.mem.frame.Length, free, free_list, count_free);
      pmm.WriteWord(at / 512, at % 512, free_list);
      PushList(img, pmm.mem.Image(), pmm.mem.hhdm, free, free_list, count_free, at);
      free_list := elem;
      count_free := count_free + 1;
      count_alloc := count_alloc - 1;
      free := [at] + free;
      live := live - {at};
    }

    /** Changes elsewhere in memory do not concern the zone. */
    twostate lemma Kept()
      requires old(Valid()) && unchanged(this) && pmm.Valid()
      requires |pmm.own| == old(|pmm.own|)
      requires forall p :: 0 <= p < |pmm.own| ==> (pmm.own[p] == ZonePage(id) <==> old(pmm.own[p] == ZonePage(id)))
      requires forall p :: 0 <= p < |pmm.own| && pmm.own[p] == ZonePage(id) ==>
                 pmm.mem.Image()[p] == old(pmm.mem.Image()[p])
      ensures Valid()
    {
      hide Partitioned, BitmapOk;
      SlotsInPages(pages, Words(), free, live);
      LedgerFits(pmm.mem.Image(), pmm.own, pmm.bitmap);
      ForeignWritesKeepList(old(pmm.mem.Image()), pmm.mem.Image(), pmm.mem.hhdm, free, free_list, count_free);
    }
  }
}
