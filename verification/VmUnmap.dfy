/** What removing entries from an address space does to translations and page ownership. */
module VmUnmap {
  import opened Words
  import opened PhysMem
  import opened Pmm
  import opened PageTable
  import opened Pmap
  import opened Mappings
  import opened Zalloc
  import opened VmList

  /** Every page mapped by the address space lies inside an entry. */
  ghost predicate Coverage(own: Ledger, root: nat, infos: seq<Info>)
  {
    forall p :: 0 <= p < |own| && IsData(own, root, p) ==> CoveredBy(infos, own[p].vpn)
  }

  /** Unmapping a range: exactly the visited pages lose their translation. */
  ghost predicate RangeDropped(img: Image, img': Image, root: nat, lo: nat, hi: nat)
  {
    forall v {:trigger Translation(img', root, v)} :: 0 <= v < LOWER_PAGES ==>
      Translation(img', root, v) == if Stepped(lo, hi, v) then None else Translation(img, root, v)
  }

  /** ... and exactly the frames mapped there become free. */
  ghost predicate FramesFreed(own: Ledger, own': Ledger, root: nat, lo: nat, hi: nat)
  {
    |own'| == |own| && forall p :: 0 <= p < |own| ==>
      own'[p] == if IsData(own, root, p) && Stepped(lo, hi, own[p].vpn) then Owner.Free else own[p]
  }

  /** Pages that belong to neither the bitmap nor the page tables of `root` keep their contents. */
  ghost predicate OthersKept(img: Image, own: Ledger, img': Image, bm: nat, root: nat)
  {
    |img'| == |img| && forall p: nat :: p < |img| && !(bm <= p < bm + BITMAP_PAGES) && !IsLeafTable(own, root, p) ==>
      img'[p] == img[p]
  }

  /** The frame of one page, if it is mapped, becomes free. */
  ghost predicate OneFreed(img: Image, own: Ledger, own': Ledger, root: nat, vpn: nat)
  {
    |own'| == |own| && forall p :: 0 <= p < |own| ==>
      own'[p] == if own[p] == Data(root, vpn) then Owner.Free else own[p]
  }

  lemma VpnOf(a: Word)
    requires a < LOWER_END
    ensures Vpn(a) == a / 4096 < LOWER_PAGES
  {}

  /** What pmap_query reports: zero exactly for an unmapped page, else the frame the page owns. */
  lemma MappedFrame(img: Image, own: Ledger, bm: nat, root: nat, vpn: nat)
    requires MappingsOk(img, own) && IsRoot(own, root) && vpn < LOWER_PAGES && BitmapOk(img, own, bm)
    ensures Translation(img, root, vpn) == None ==> forall p :: 0 <= p < |own| ==> own[p] != Data(root, vpn)
    ensures Translation(img, root, vpn).Some? ==>
              var p := Frame(Translation(img, root, vpn).value);
              && 0 < p < |own| == MAX_PAGES && own[p] == Data(root, vpn)
              && forall q :: 0 <= q < |own| && own[q] == Data(root, vpn) ==> q == p
  {
    assert DataOk(img, own, root);
  }

  /** Clearing the bit of a data frame writes no table. */
  lemma FreedBeside(img: Image, own: Ledger, img': Image, bm: nat, p: nat)
    requires BitmapOk(img, own, bm) && SameOutside(img, img', bm) && p < |own| && own[p].Data?
    ensures forall q :: 0 <= q < |own| && InTree(own[q]) ==> img'[q] == img[q]
  {}

  /** Effect of the unmapping loop on the pages lo/4096 .. next-1. */
  ghost predicate PrefixDropped(img: Image, own: Ledger, img': Image, own': Ledger, bm: nat,
                                root: nat, lo: nat, next: nat)
  {
    && (forall v {:trigger Translation(img', root, v)} :: 0 <= v < LOWER_PAGES ==>
          Translation(img', root, v) == if lo / 4096 <= v < next then None else Translation(img, root, v))
    && |own'| == |own|
    && (forall p :: 0 <= p < |own| ==>
          own'[p] == if IsData(own, root, p) && lo / 4096 <= own[p].vpn < next then Owner.Free else own[p])
    && OthersSame(img, own, img', root)
    && OthersKept(img, own, img', bm, root)
  }

  lemma DropOneMore(img: Image, own: Ledger, img1: Image, own1: Ledger, img2: Image, own2: Ledger, bm: nat,
                    root: nat, lo: nat, next: nat)
    requires PrefixDropped(img, own, img1, own1, bm, root, lo, next) && lo / 4096 <= next
    requires Remapped(img1, img2, root, next, None) && OneFreed(img1, own1, own2, root, next)
    requires OthersSame(img1, own1, img2, root) && OthersKept(img1, own1, img2, bm, root)
    ensures PrefixDropped(img, own, img2, own2, bm, root, lo, next + 1)
  {
    forall r | IsRoot(own, r) && r != root ensures SameTranslations(img, img2, r) {
      assert IsRoot(own1, r);
    }
    forall p: nat | p < |img| && !(bm <= p < bm + BITMAP_PAGES) && !IsLeafTable(own, root, p) ensures img2[p] == img[p] {
      assert !IsLeafTable(own1, root, p);
    }
  }

  lemma PrefixIsRange(img: Image, own: Ledger, img': Image, own': Ledger, bm: nat,
                      root: nat, lo: nat, hi: nat, next: nat)
    requires PrefixDropped(img, own, img', own', bm, root, lo, next)
    requires lo / 4096 <= next && next * 4096 + lo % 4096 >= hi
    requires next == lo / 4096 || (next - 1) * 4096 + lo % 4096 < hi
    ensures RangeDropped(img, img', root, lo, hi) && FramesFreed(own, own', root, lo, hi)
    ensures OthersSame(img, own, img', root) && OthersKept(img, own, img', bm, root)
  {
    forall v: nat ensures Stepped(lo, hi, v) <==> lo / 4096 <= v < next {}
  }

  function Max(a: nat, b: nat): nat { if a > b then a else b }

  function Min(a: nat, b: nat): nat { if a < b then a else b }

  /** Entry `e` overlaps the range and its clipped page loop visits `vpn`. */
  predicate Visits(e: Info, lo: nat, hi: nat, vpn: nat)
  {
    e.Overlaps(lo, hi) && Stepped(Max(e.start, lo), Min(e.end, hi), vpn)
  }

  ghost predicate Visited(infos: seq<Info>, lo: nat, hi: nat, vpn: nat)
  {
    exists i :: 0 <= i < |infos| && Visits(infos[i], lo, hi, vpn)
  }

  /** No mapped page of an entry about to be dropped lies outside the range being removed. */
  ghost predicate NoStray(own: Ledger, root: nat, infos: seq<Info>, lo: nat, hi: nat)
  {
    forall p, i :: 0 <= p < |own| && IsData(own, root, p) && 0 <= i < |infos|
                   && infos[i].Covers(own[p].vpn * 4096) && infos[i].Overlaps(lo, hi) ==>
      Visits(infos[i], lo, hi, own[p].vpn)
  }

  /** A mapped page of an entry that a removal cuts, outside the range removed, is a stray. */
  lemma CutEntryLeavesStray(img: Image, own: Ledger, root: nat, infos: seq<Info>, i: nat, vpn: nat, lo: nat, hi: nat)
    requires MappingsOk(img, own) && IsRoot(own, root) && vpn < LOWER_PAGES && Translation(img, root, vpn).Some?
    requires i < |infos| && infos[i].Covers(vpn * 4096) && infos[i].Overlaps(lo, hi)
    requires lo % 4096 == 0 && !(lo <= vpn * 4096 < hi)
    ensures !NoStray(own, root, infos, lo, hi)
  {
    assert DataOk(img, own, root);
    var p := Frame(Translation(img, root, vpn).value);
    assert IsData(own, root, p) && !Visits(infos[i], lo, hi, own[p].vpn);
  }

  /** The first byte of page `vpn` lies in [lo, hi) and in some entry. */
  ghost predicate PageOfBoth(infos: seq<Info>, lo: nat, hi: nat, vpn: nat)
  {
    lo <= vpn * 4096 < hi && exists i :: 0 <= i < |infos| && infos[i].start <= vpn * 4096 < infos[i].end
  }

  /** From a page boundary on, the loops visit exactly the pages in the range and in an entry. */
  lemma VisitedIsBoth(infos: seq<Info>, lo: nat, hi: nat, vpn: nat)
    requires PageAligned(infos) && lo % 4096 == 0
    ensures Visited(infos, lo, hi, vpn) <==> PageOfBoth(infos, lo, hi, vpn)
  {
    forall i | 0 <= i < |infos|
      ensures Visits(infos[i], lo, hi, vpn) <==> lo <= vpn * 4096 < hi && infos[i].start <= vpn * 4096 < infos[i].end
    {
      AlignedSteps(Max(infos[i].start, lo), Min(infos[i].end, hi), vpn);
    }
  }

  lemma AlignedSteps(lo: nat, hi: nat, vpn: nat)
    requires lo % 4096 == 0
    ensures Stepped(lo, hi, vpn) <==> lo <= vpn * 4096 < hi
  {}

  /** What vm_map_remove of a range from a page boundary on does to translations and frames. */
  lemma UnmappedPages(img: Image, own: Ledger, img': Image, own': Ledger, bm: nat, root: nat, infos: seq<Info>, lo: nat, hi: nat)
    requires Unmapped(img, own, img', own', bm, root, infos, lo, hi) && PageAligned(infos) && lo % 4096 == 0
    ensures forall v: nat :: v < 0x8_0000_0000 ==>
              Translation(img', root, v) == if PageOfBoth(infos, lo, hi, v) then None else Translation(img, root, v)
    ensures |own'| == |own| && forall p :: 0 <= p < |own| ==>
              own'[p] == if own[p].Data? && own[p].root == root && PageOfBoth(infos, lo, hi, own[p].vpn) then Owner.Free
                         else own[p]
  {
    hide Translation, Visited, PageOfBoth;
    forall v: nat ensures Visited(infos, lo, hi, v) <==> PageOfBoth(infos, lo, hi, v) { VisitedIsBoth(infos, lo, hi, v); }
  }

  /** A range that cuts no entry leaves no strays. */
  lemma UncutRangeHasNoStray(own: Ledger, root: nat, infos: seq<Info>, lo: nat, hi: nat)
    requires PageAligned(infos)
    requires forall i :: 0 <= i < |infos| && infos[i].Overlaps(lo, hi) ==> lo <= infos[i].start && infos[i].end <= hi
    ensures NoStray(own, root, infos, lo, hi)
  {}

  /** Effect of dropping the entries `infos` on translations and ledger. */
  ghost predicate Unmapped(img: Image, own: Ledger, img': Image, own': Ledger, bm: nat,
                           root: nat, infos: seq<Info>, lo: nat, hi: nat)
  {
    && (forall v {:trigger Translation(img', root, v)} :: 0 <= v < LOWER_PAGES ==>
          Translation(img', root, v) == if Visited(infos, lo, hi, v) then None else Translation(img, root, v))
    && |own'| == |own|
    && (forall p :: 0 <= p < |own| ==>
          own'[p] == if IsData(own, root, p) && Visited(infos, lo, hi, own[p].vpn) then Owner.Free else own[p])
    && OthersSame(img, own, img', root)
    && |img'| == |img|
    && (forall p: nat :: p < |img| && Plain(own, bm, root, p) ==> img'[p] == img[p])
  }

  /** Neither bitmap, nor a page table of `root`, nor a zone page. */
  ghost predicate Plain(own: Ledger, bm: nat, root: nat, p: nat)
  {
    !(bm <= p < bm + BITMAP_PAGES) && !IsLeafTable(own, root, p) && !(p < |own| && own[p].ZonePage?)
  }

  /** Nothing but zone pages is written. */
  ghost predicate OnlyZoneWritten(img: Image, own: Ledger, img': Image)
  {
    |img'| == |img| && forall p: nat :: p < |img| && !(p < |own| && own[p].ZonePage?) ==> img'[p] == img[p]
  }

  lemma UnmappedNone(img: Image, own: Ledger, bm: nat, root: nat, lo: nat, hi: nat)
    ensures Unmapped(img, own, img, own, bm, root, [], lo, hi)
  {}

  /** Unmapping one entry and then returning its zone element. */
  lemma UnmappedOne(img: Image, own: Ledger, img1: Image, own1: Ledger, img2: Image,
                    bm: nat, root: nat, e: Info, lo: nat, hi: nat)
    requires e.Overlaps(lo, hi) && IsRoot(own, root)
    requires RangeDropped(img, img1, root, Max(e.start, lo), Min(e.end, hi))
    requires FramesFreed(own, own1, root, Max(e.start, lo), Min(e.end, hi))
    requires OthersSame(img, own, img1, root) && OthersKept(img, own, img1, bm, root)
    requires OnlyZoneWritten(img1, own1, img2)
    requires forall r :: IsRoot(own1, r) ==> SameTranslations(img1, img2, r)
    ensures Unmapped(img, own, img2, own1, bm, root, [e], lo, hi)
  {
    assert IsRoot(own1, root);
    forall v: nat ensures Visited([e], lo, hi, v) <==> Visits(e, lo, hi, v) {
      if Visits(e, lo, hi, v) { assert Visits([e][0], lo, hi, v); }
    }
    forall r | IsRoot(own, r) && r != root ensures SameTranslations(img, img2, r) {
      assert IsRoot(own1, r);
    }
    forall p: nat | p < |img| && Plain(own, bm, root, p) ensures img2[p] == img[p] {
      assert !(p < |own1| && own1[p].ZonePage?);
    }
  }

  lemma VisitedConcat(a: seq<Info>, b: seq<Info>, lo: nat, hi: nat, v: nat)
    ensures Visited(a + b, lo, hi, v) <==> Visited(a, lo, hi, v) || Visited(b, lo, hi, v)
  {
    if Visited(a, lo, hi, v) {
      var i :| 0 <= i < |a| && Visits(a[i], lo, hi, v);
      assert Visits((a + b)[i], lo, hi, v);
    }
    if Visited(b, lo, hi, v) {
      var i :| 0 <= i < |b| && Visits(b[i], lo, hi, v);
      assert Visits((a + b)[|a| + i], lo, hi, v);
    }
    if Visited(a + b, lo, hi, v) && !Visited(a, lo, hi, v) {
      var i :| 0 <= i < |a + b| && Visits((a + b)[i], lo, hi, v);
      assert i >= |a| && Visits(b[i - |a|], lo, hi, v);
    }
  }

  lemma UnmappedTransitive(img: Image, own: Ledger, img1: Image, own1: Ledger, img2: Image, own2: Ledger,
                           bm: nat, root: nat, a: seq<Info>, b: seq<Info>, lo: nat, hi: nat)
    requires Unmapped(img, own, img1, own1, bm, root, a, lo, hi)
    requires Unmapped(img1, own1, img2, own2, bm, root, b, lo, hi)
    requires IsRoot(own, root)
    ensures Unmapped(img, own, img2, own2, bm, root, a + b, lo, hi)
  {
    forall v: nat ensures Visited(a + b, lo, hi, v) <==> Visited(a, lo, hi, v) || Visited(b, lo, hi, v) {
      VisitedConcat(a, b, lo, hi, v);
    }
    forall r | IsRoot(own, r) && r != root ensures SameTranslations(img, img2, r) {
      assert IsRoot(own1, r);
    }
    forall p: nat | p < |img| && Plain(own, bm, root, p) ensures img2[p] == img[p] {
      assert Plain(own1, bm, root, p);
    }
  }

  /** An entry that does not overlap the range visits nothing. */
  lemma NotVisited(e: Info, lo: nat, hi: nat)
    requires !e.Overlaps(lo, hi)
    ensures forall v: nat :: !Visited([e], lo, hi, v)
  {}

  lemma UnmappedSkip(img: Image, own: Ledger, img1: Image, own1: Ledger, bm: nat, root: nat,
                     a: seq<Info>, e: Info, lo: nat, hi: nat)
    requires Unmapped(img, own, img1, own1, bm, root, a, lo, hi) && !e.Overlaps(lo, hi)
    ensures Unmapped(img, own, img1, own1, bm, root, a + [e], lo, hi)
  {
    NotVisited(e, lo, hi);
    forall v: nat ensures Visited(a + [e], lo, hi, v) <==> Visited(a, lo, hi, v) {
      VisitedConcat(a, [e], lo, hi, v);
    }
  }

  /** Writing zone pages moves no table, no frame and no translation. */
  lemma ZoneWrites(img: Image, own: Ledger, img': Image)
    requires TreesOk(img, own) && MappingsOk(img, own) && OnlyZoneWritten(img, own, img') && |own| <= |img|
    ensures TreesOk(img', own) && MappingsOk(img', own)
    ensures forall r :: IsRoot(own, r) ==> SameTranslations(img, img', r)
  {
    ForeignWrites(img, own, img', own);
    KeepMappings(img, own, img', own);
  }

  /** Unmapping does not touch the pages of a zone. */
  lemma ZonePagesKept(img: Image, own: Ledger, img': Image, own': Ledger, bm: nat, root: nat,
                      lo: nat, hi: nat, id: nat)
    requires BitmapOk(img, own, bm) && FramesFreed(own, own', root, lo, hi) && OthersKept(img, own, img', bm, root)
    ensures forall p :: 0 <= p < |own| ==> (own'[p] == ZonePage(id) <==> own[p] == ZonePage(id))
    ensures forall p :: 0 <= p < |own| && own[p] == ZonePage(id) ==> img'[p] == img[p]
  {}

  /** The entry whose loop visits a page is the one that covers it. */
  lemma VisitedIsCovered(infos: seq<Info>, i: nat, j: nat, lo: nat, hi: nat, vpn: nat)
    requires i < |infos| && j < |infos| && Sorted(infos, 0, U64) && PageAligned(infos)
    requires infos[i].Covers(vpn * 4096) && Visits(infos[j], lo, hi, vpn)
    ensures i == j
  {
    assert infos[j].start <= vpn * 4096 < infos[j].end;
  }

  /** After a removal the remaining entries cover every mapped page exactly when nothing strayed. */
  lemma CoverageAfter(all: seq<Entry>, img: Image, own: Ledger, img': Image, own': Ledger, bm: nat, root: nat,
                      lo: nat, hi: nat)
    requires Sorted(Infos(all), 0, U64) && PageAligned(Infos(all)) && Coverage(own, root, Infos(all))
    requires Unmapped(img, own, img', own', bm, root, Infos(all), lo, hi)
    ensures Coverage(own', root, Infos(KeepNodes(all, lo, hi))) <==> NoStray(own, root, Infos(all), lo, hi)
  {
    var infos := Infos(all);
    if NoStray(own, root, infos, lo, hi) {
      forall p | 0 <= p < |own'| && IsData(own', root, p)
        ensures CoveredBy(Infos(KeepNodes(all, lo, hi)), own'[p].vpn)
      {
        assert IsData(own, root, p) && own'[p] == own[p];
        var i :| 0 <= i < |infos| && infos[i].Covers(own[p].vpn * 4096);
        StillCovered(all, lo, hi, i, own[p].vpn);
      }
    }
    if Coverage(own', root, Infos(KeepNodes(all, lo, hi))) {
      forall p, i | 0 <= p < |own| && IsData(own, root, p) && 0 <= i < |infos|
                    && infos[i].Covers(own[p].vpn * 4096) && infos[i].Overlaps(lo, hi)
        ensures Visits(infos[i], lo, hi, own[p].vpn)
      {
        NoLongerCovered(all, lo, hi, i, own[p].vpn);
        assert !IsData(own', root, p);
        var j :| 0 <= j < |infos| && Visits(infos[j], lo, hi, own[p].vpn);
        VisitedIsCovered(infos, i, j, lo, hi, own[p].vpn);
      }
    }
  }

  /** A new entry covers its own pages and uncovers none. */
  lemma CoverageWith(own: Ledger, root: nat, nodes: seq<Entry>, k: nat, ne: Entry)
    requires k <= |nodes| && Coverage(own, root, Infos(nodes))
    ensures Coverage(own, root, Infos(nodes[..k] + [ne] + nodes[k..]))
  {
    var infos, infos' := Infos(nodes), Infos(nodes[..k] + [ne] + nodes[k..]);
    forall p | 0 <= p < |own| && IsData(own, root, p) ensures CoveredBy(infos', own[p].vpn) {
      var i :| 0 <= i < |infos| && infos[i].Covers(own[p].vpn * 4096);
      assert infos'[if i < k then i else i + 1] == infos[i];
    }
  }

  /** Free pages becoming zone pages do not concern coverage. */
  lemma CoverageKept(own: Ledger, own': Ledger, root: nat, infos: seq<Info>, id: nat)
    requires Coverage(own, root, infos) && |own'| == |own|
    requires forall p :: 0 <= p < |own| ==> own'[p] == own[p] || own'[p] == ZonePage(id)
    ensures Coverage(own', root, infos)
  {
    forall p | 0 <= p < |own'| && IsData(own', root, p) ensures CoveredBy(infos, own'[p].vpn) {
      assert IsData(own, root, p);
    }
  }

  /** A gap between entries has no mapped page. */
  lemma GapUnmapped(img: Image, own: Ledger, root: nat, infos: seq<Info>, lo: nat, hi: nat)
    requires DataOk(img, own, root) && Coverage(own, root, infos)
    requires hi <= LOWER_END && forall i :: 0 <= i < |infos| ==> !infos[i].Overlaps(lo, hi)
    ensures forall v: nat :: lo <= v * 4096 < hi ==> Translation(img, root, v) == None
  {
    forall v: nat | lo <= v * 4096 < hi ensures !CoveredBy(infos, v) {
      forall i | 0 <= i < |infos| ensures !infos[i].Covers(v * 4096) {
        assert !infos[i].Overlaps(lo, hi);
      }
    }
    forall v: nat | lo <= v * 4096 < hi ensures Translation(img, root, v) == None {
      assert Translation(img, root, v).Some? ==> IsData(own, root, Frame(Translation(img, root, v).value));
    }
  }

  /** When only `infos[k]`, the range itself, overlaps the range, exactly its pages are visited. */
  lemma OnlyOwnPagesVisited(infos: seq<Info>, k: nat, lo: nat, hi: nat)
    requires k < |infos| && infos[k].start == lo && infos[k].end == hi && lo < hi && lo % 4096 == 0 && hi % 4096 == 0
    requires forall i :: 0 <= i < |infos| && i != k ==> !infos[i].Overlaps(lo, hi)
    ensures forall v: nat :: Visited(infos, lo, hi, v) <==> lo / 4096 <= v < hi / 4096
  {
    forall v: nat ensures Visited(infos, lo, hi, v) <==> lo / 4096 <= v < hi / 4096 {
      assert Visits(infos[k], lo, hi, v) <==> lo / 4096 <= v < hi / 4096;
    }
  }

  lemma CoverageSame(own: Ledger, own': Ledger, root: nat, infos: seq<Info>)
    requires Coverage(own, root, infos) && |own'| == |own|
    requires forall p :: 0 <= p < |own| && IsData(own', root, p) ==> own'[p] == own[p]
    ensures Coverage(own', root, infos)
  {
    forall p | 0 <= p < |own'| && IsData(own', root, p) ensures CoveredBy(infos, own'[p].vpn) {
      assert IsData(own, root, p);
    }
  }
}
