/** hal/x86_64/pmap.c: building a new address space and tearing one down. */
module Teardown {
  import opened Words
  import opened Seqs
  import opened PhysMem
  import opened Pmm
  import opened PageTable
  import opened Pmap
  import opened Mappings

  // ---- the pages pmap_free_tables frees, in order ---------------------------------------------

  function Below(img: Image, t: nat, i: nat): seq<nat>
    requires i < 512
  {
    match NextTable(img, t, i) case None => [] case Some(p) => [p]
  }

  function PtPages(img: Image, pd: nat, n: nat): seq<nat>
    requires n <= 512
  {
    if n == 0 then [] else PtPages(img, pd, n - 1) + Below(img, pd, n - 1)
  }

  /** The directory in slot `i` of a PDPT, after its page tables. */
  function DirPages(img: Image, pdpt: nat, i: nat): seq<nat>
    requires i < 512
  {
    if Below(img, pdpt, i) == [] then []
    else PtPages(img, Below(img, pdpt, i)[0], 512) + Below(img, pdpt, i)
  }

  /** Every table below slots 0..n-1 of a PDPT. */
  function PdPages(img: Image, pdpt: nat, n: nat): seq<nat>
    requires n <= 512
  {
    if n == 0 then [] else PdPages(img, pdpt, n - 1) + DirPages(img, pdpt, n - 1)
  }

  /** The PDPT in slot `i` of the PML4, after what lies below it; slots are followed whenever they
      are present. */
  function SlotPages(img: Image, pml4: nat, i: nat): seq<nat>
    requires i < 512
  {
    match Child(img, pml4, i)
    case None => []
    case Some(pdpt) => PdPages(img, pdpt, 512) + [pdpt]
  }

  function PdptPages(img: Image, pml4: nat, n: nat): seq<nat>
    requires n <= 512
  {
    if n == 0 then [] else PdptPages(img, pml4, n - 1) + SlotPages(img, pml4, n - 1)
  }

  function TornDown(img: Image, root: nat): seq<nat>
  {
    PdptPages(img, root, 512) + [root]
  }

  /** Pages that may be freed one after the other: all in use, none twice. */
  ghost predicate Freeable(own: Ledger, s: seq<nat>)
  {
    Distinct(s) && forall p :: p in s ==> 0 < p < |own| && p < MAX_PAGES && !own[p].Free? && !own[p].Reserved?
  }

  ghost function Freed(own: Ledger, s: seq<nat>): (r: Ledger)
    ensures |r| == |own| && forall p :: 0 <= p < |own| ==> r[p] == if p in s then Owner.Free else own[p]
  {
    seq(|own|, p requires 0 <= p < |own| => if p in s then Owner.Free else own[p])
  }

  lemma FreedMore(own: Ledger, s: seq<nat>, p: nat)
    requires p < |own|
    ensures Freed(own, s)[p := Owner.Free] == Freed(own, s + [p])
  {}

  lemma FreeableParts(own: Ledger, a: seq<nat>, b: seq<nat>)
    requires Freeable(own, a + b)
    ensures Freeable(own, a) && Freeable(Freed(own, a), b)
  {
    forall p | p in a ensures p in a + b {}
    forall p | p in b ensures p in a + b && p !in a {
      var j :| 0 <= j < |b| && b[j] == p;
      assert (a + b)[|a| + j] == p;
      forall i | 0 <= i < |a| ensures a[i] != p { assert (a + b)[i] == a[i]; }
    }
    forall i, j | 0 <= i < j < |a| ensures a[i] != a[j] { assert (a + b)[i] == a[i] && (a + b)[j] == a[j]; }
    forall i, j | 0 <= i < j < |b| ensures b[i] != b[j] {
      assert (a + b)[|a| + i] == b[i] && (a + b)[|a| + j] == b[j];
    }
  }

  lemma FreeablePrefix(own: Ledger, a: seq<nat>, b: seq<nat>)
    requires Freeable(own, b) && a <= b
    ensures Freeable(own, a)
  {
    assert a + b[|a|..] == b;
    FreeableParts(own, a, b[|a|..]);
  }

  lemma {:induction false} PtPrefix(img: Image, t: nat, n: nat, m: nat)
    requires n <= m <= 512
    ensures PtPages(img, t, n) <= PtPages(img, t, m)
    decreases m
  {
    if n < m { PtPrefix(img, t, n, m - 1); }
  }

  lemma {:induction false} PdPrefix(img: Image, t: nat, n: nat, m: nat)
    requires n <= m <= 512
    ensures PdPages(img, t, n) <= PdPages(img, t, m)
    decreases m
  {
    hide DirPages;
    if n < m { PdPrefix(img, t, n, m - 1); }
  }

  lemma {:induction false} PdptPrefix(img: Image, t: nat, n: nat, m: nat)
    requires n <= m <= 512
    ensures PdptPages(img, t, n) <= PdptPages(img, t, m)
    decreases m
  {
    hide SlotPages;
    if n < m { PdptPrefix(img, t, n, m - 1); }
  }

  lemma InBoth(a: seq<nat>, b: seq<nat>, p: nat)
    ensures p in a + b <==> p in a || p in b
  {}

  // ---- the same pages, told by the bits of the entries -------------------------------------------

  /** Slot `i` of table `t` is present and holds the page number `p`. */
  ghost predicate Points(img: Image, t: nat, i: nat, p: nat)
  {
    t < |img| && i < 512 && img[t][i] % 2 == 1 && img[t][i] / 4096 % 0x100_0000_0000 == p
  }

  /** The same with bit 7 clear, the bit that marks a large page. */
  ghost predicate Links(img: Image, t: nat, i: nat, p: nat)
  {
    Points(img, t, i, p) && img[t][i] / 128 % 2 == 0
  }

  /** `p` is linked from one of the slots 0..n-1 of `t`. */
  ghost predicate Under(img: Image, t: nat, n: nat, p: nat)
  {
    exists i: nat :: i < n && Links(img, t, i, p)
  }

  /** `p` is the directory in slot `i` of a PDPT or linked from it. */
  ghost predicate InDirectory(img: Image, pdpt: nat, i: nat, p: nat)
  {
    Links(img, pdpt, i, p) || exists d: nat :: Links(img, pdpt, i, d) && Under(img, d, 512, p)
  }

  /** `p` is the PDPT in slot `i` of a PML4 or lies one or two links below it. */
  ghost predicate InSlot(img: Image, root: nat, i: nat, p: nat)
  {
    Points(img, root, i, p) || exists t: nat, j: nat :: Points(img, root, i, t) && InDirectory(img, t, j, p)
  }

  /** `p` is the PML4 or lies below it, over links with bit 7 clear from the second level on. */
  ghost predicate Linked(img: Image, root: nat, p: nat)
  {
    p == root || exists i: nat :: InSlot(img, root, i, p)
  }

  /** From `own` to `own'` exactly the linked pages became free. */
  ghost predicate FreesLinked(img: Image, root: nat, own: Ledger, own': Ledger)
  {
    |own'| == |own| && forall p :: 0 <= p < |own| ==> own'[p] == if Linked(img, root, p) then Free else own[p]
  }

  lemma BelowLinks(img: Image, t: nat, i: nat)
    requires i < 512
    ensures forall p: nat :: p in Below(img, t, i) <==> Links(img, t, i, p)
    ensures Below(img, t, i) != [] ==> forall p: nat :: Links(img, t, i, p) <==> p == Below(img, t, i)[0]
  {}

  lemma {:induction false} PtPagesLinked(img: Image, t: nat, n: nat)
    requires n <= 512
    ensures forall p: nat :: p in PtPages(img, t, n) <==> Under(img, t, n, p)
  {
    hide Links, Below;
    if n > 0 {
      PtPagesLinked(img, t, n - 1);
      BelowLinks(img, t, n - 1);
      forall p: nat ensures p in PtPages(img, t, n) <==> Under(img, t, n, p) {
        InBoth(PtPages(img, t, n - 1), Below(img, t, n - 1), p);
        if Under(img, t, n, p) {
          var i: nat :| i < n && Links(img, t, i, p);
          assert i < n - 1 || Links(img, t, n - 1, p);
        }
      }
    }
  }

  lemma DirPagesLinked(img: Image, pdpt: nat, i: nat)
    requires i < 512
    ensures forall p: nat :: p in DirPages(img, pdpt, i) <==> InDirectory(img, pdpt, i, p)
  {
    hide Links, Below, PtPages, Under;
    BelowLinks(img, pdpt, i);
    var below := Below(img, pdpt, i);
    if below == [] {
      forall p: nat ensures !Links(img, pdpt, i, p) { assert p !in below; }
    } else {
      PtPagesLinked(img, below[0], 512);
      forall p: nat ensures p in DirPages(img, pdpt, i) <==> InDirectory(img, pdpt, i, p) {
        InBoth(PtPages(img, below[0], 512), below, p);
      }
    }
  }

  lemma {:induction false} PdPagesLinked(img: Image, pdpt: nat, n: nat)
    requires n <= 512
    ensures forall p: nat :: p in PdPages(img, pdpt, n) <==> exists j: nat :: j < n && InDirectory(img, pdpt, j, p)
  {
    hide InDirectory, DirPages;
    if n > 0 {
      PdPagesLinked(img, pdpt, n - 1);
      DirPagesLinked(img, pdpt, n - 1);
      forall p: nat
        ensures p in PdPages(img, pdpt, n) <==> exists j: nat :: j < n && InDirectory(img, pdpt, j, p)
      {
        InBoth(PdPages(img, pdpt, n - 1), DirPages(img, pdpt, n - 1), p);
        if j: nat :| j < n && InDirectory(img, pdpt, j, p) {
          assert j < n - 1 || InDirectory(img, pdpt, n - 1, p);
        }
      }
    }
  }

  lemma OnlySlots(img: Image, pdpt: nat, j: nat, p: nat)
    requires InDirectory(img, pdpt, j, p)
    ensures j < 512
  {}

  lemma ChildPoints(img: Image, root: nat, i: nat)
    requires i < 512
    ensures forall t: nat :: Points(img, root, i, t) <==> Child(img, root, i) == Some(t)
  {}

  lemma SlotPagesLinked(img: Image, root: nat, i: nat)
    requires i < 512
    ensures forall p: nat :: p in SlotPages(img, root, i) <==> InSlot(img, root, i, p)
  {
    hide Points, Child, InDirectory, PdPages;
    ChildPoints(img, root, i);
    match Child(img, root, i)
    case None =>
      forall t: nat ensures !Points(img, root, i, t) {}
    case Some(t) =>
      PdPagesLinked(img, t, 512);
      forall p: nat ensures p in SlotPages(img, root, i) <==> InSlot(img, root, i, p) {
        InBoth(PdPages(img, t, 512), [t], p);
        assert Points(img, root, i, p) <==> p == t;
        if j: nat :| InDirectory(img, t, j, p) { OnlySlots(img, t, j, p); }
      }
  }

  lemma {:induction false} PdptPagesLinked(img: Image, root: nat, n: nat)
    requires n <= 512
    ensures forall p: nat :: p in PdptPages(img, root, n) <==> exists i: nat :: i < n && InSlot(img, root, i, p)
  {
    hide InSlot, SlotPages;
    if n > 0 {
      PdptPagesLinked(img, root, n - 1);
      SlotPagesLinked(img, root, n - 1);
      forall p: nat ensures p in PdptPages(img, root, n) <==> exists i: nat :: i < n && InSlot(img, root, i, p) {
        InBoth(PdptPages(img, root, n - 1), SlotPages(img, root, n - 1), p);
        if i: nat :| i < n && InSlot(img, root, i, p) {
          assert i < n - 1 || InSlot(img, root, n - 1, p);
        }
      }
    }
  }

  /** The pages torn down are the PML4 and what its present entries lead to, over entries with bit 7
      clear from the second level on.  So a page to which only entries with bit 7 set point below the
      PML4 keeps its owner. */
  lemma TornDownLinked(img: Image, root: nat)
    ensures forall p: nat :: p in TornDown(img, root) <==> Linked(img, root, p)
  {
    PdptPagesLinked(img, root, 512);
    hide InSlot, PdptPages;
    forall p: nat ensures p in TornDown(img, root) <==> Linked(img, root, p) {
      InBoth(PdptPages(img, root, 512), [root], p);
      if i: nat :| InSlot(img, root, i, p) { SlotInTable(img, root, i, p); }
    }
  }

  lemma SlotInTable(img: Image, root: nat, i: nat, p: nat)
    requires InSlot(img, root, i, p)
    ensures i < 512
  {}

  lemma FreedLinked(img: Image, root: nat, own: Ledger)
    ensures FreesLinked(img, root, own, Freed(own, TornDown(img, root)))
  {
    TornDownLinked(img, root);
    hide Linked, TornDown;
  }

  // ---- pmap_free_tables ------------------------------------------------------------------------

  /** `t` is a table of the ledger `own` that is not among the pages `s`. */
  ghost predicate Standing(own: Ledger, s: seq<nat>, t: nat)
  {
    t < |own| && !own[t].Free? && !own[t].Reserved? && t !in s
  }

  /** A page of the list still stands when those before it have been freed. */
  lemma StillStanding(own: Ledger, s: seq<nat>, t: nat)
    requires Freeable(own, s + [t])
    ensures Standing(own, s, t) && 0 < t < MAX_PAGES && t * 4096 < U64
  {
    assert (s + [t])[|s|] == t && t in s + [t];
    forall i | 0 <= i < |s| ensures s[i] != t { assert (s + [t])[i] == s[i]; }
  }

  lemma StandingPrefix(own: Ledger, a: seq<nat>, b: seq<nat>, t: nat)
    requires Standing(own, b, t) && a <= b
    ensures Standing(own, a, t)
  {}

  /** Reads one entry of a table that has not been freed. */
  method ReadEntry(pmm: PageAllocator, t: nat, i: nat, ghost img: Image, ghost own: Ledger, ghost done: seq<nat>)
    returns (e: Word)
    requires pmm.Valid() && pmm.own == Freed(own, done) && SameOutside(img, pmm.mem.Image(), pmm.bitmap)
    requires Standing(own, done, t) && i < 512
    ensures t < |img| && e == img[t][i]
  {
    e := pmm.ReadWord(t, i);
  }

  /** Frees one page of the list. */
  method FreeOne(pmm: PageAllocator, p: nat, ghost own: Ledger, ghost done: seq<nat>)
    requires pmm.Valid() && pmm.own == Freed(own, done) && Freeable(own, done + [p])
    modifies pmm`free_count, pmm`own, pmm.mem.frame
    ensures pmm.Valid() && pmm.own == Freed(own, done + [p])
    ensures SameOutside(old(pmm.mem.Image()), pmm.mem.Image(), pmm.bitmap)
  {
    FreeableParts(own, done, [p]);
    assert p in [p];
    FreedMore(own, done, p);
    assert !MayNotFree(pmm.own, pmm.bitmap, p);
    pmm.FreePage(p * 4096);
  }

  /** The innermost loop: the page tables of one directory, which is read throughout. */
  method FreePageTables(pmm: PageAllocator, pd: nat, ghost img: Image, ghost own: Ledger, ghost done: seq<nat>)
    requires pmm.Valid() && pmm.own == Freed(own, done) && SameOutside(img, pmm.mem.Image(), pmm.bitmap)
    requires Freeable(own, done + PtPages(img, pd, 512)) && Standing(own, done + PtPages(img, pd, 512), pd)
    modifies pmm`free_count, pmm`own, pmm.mem.frame
    ensures pmm.Valid() && SameOutside(img, pmm.mem.Image(), pmm.bitmap)
    ensures pmm.own == Freed(own, done + PtPages(img, pd, 512))
  {
    hide Freeable, BitmapOk, Standing, Freed;
    var i := 0;
    assert done + PtPages(img, pd, 0) == done;
    while i < 512
      invariant 0 <= i <= 512 && pmm.Valid() && SameOutside(img, pmm.mem.Image(), pmm.bitmap)
      invariant pmm.own == Freed(own, done + PtPages(img, pd, i))
    {
      PtPrefix(img, pd, i, 512);
      StandingPrefix(own, done + PtPages(img, pd, i), done + PtPages(img, pd, 512), pd);
      var e := ReadEntry(pmm, pd, i, img, own, done + PtPages(img, pd, i));
      PtPrefix(img, pd, i + 1, 512);
      if Present(e) && !Huge(e) {
        FreeablePrefix(own, done + PtPages(img, pd, i + 1), done + PtPages(img, pd, 512));
        assert done + PtPages(img, pd, i + 1) == done + PtPages(img, pd, i) + [Frame(e)];
        FreeOne(pmm, Frame(e), own, done + PtPages(img, pd, i));
      } else {
        assert PtPages(img, pd, i + 1) == PtPages(img, pd, i);
      }
      i := i + 1;
    }
  }

  /** One turn of the middle loop: the directory in slot `i`, after its page tables. */
  method FreeDirectory(pmm: PageAllocator, pdpt: nat, i: nat, ghost img: Image, ghost own: Ledger, ghost done: seq<nat>)
    requires pmm.Valid() && pmm.own == Freed(own, done) && SameOutside(img, pmm.mem.Image(), pmm.bitmap)
    requires i < 512 && Freeable(own, done + DirPages(img, pdpt, i)) && Standing(own, done, pdpt)
    modifies pmm`free_count, pmm`own, pmm.mem.frame
    ensures pmm.Valid() && SameOutside(img, pmm.mem.Image(), pmm.bitmap)
    ensures pmm.own == Freed(own, done + DirPages(img, pdpt, i))
  {
    hide Freeable, BitmapOk, PtPages, Standing, Freed;
    var e := ReadEntry(pmm, pdpt, i, img, own, done);
    if Present(e) && !Huge(e) {
      ghost var tables := PtPages(img, Frame(e), 512);
      assert done + DirPages(img, pdpt, i) == done + tables + [Frame(e)];
      FreeablePrefix(own, done + tables, done + tables + [Frame(e)]);
      StillStanding(own, done + tables, Frame(e));
      FreePageTables(pmm, Frame(e), img, own, done);
      FreeOne(pmm, Frame(e), own, done + tables);
    } else {
      assert done + DirPages(img, pdpt, i) == done;
    }
  }

  /** The middle loop: the directories of one PDPT. */
  method FreeDirectories(pmm: PageAllocator, pdpt: nat, ghost img: Image, ghost own: Ledger, ghost done: seq<nat>)
    requires pmm.Valid() && pmm.own == Freed(own, done) && SameOutside(img, pmm.mem.Image(), pmm.bitmap)
    requires Freeable(own, done + PdPages(img, pdpt, 512)) && Standing(own, done + PdPages(img, pdpt, 512), pdpt)
    modifies pmm`free_count, pmm`own, pmm.mem.frame
    ensures pmm.Valid() && SameOutside(img, pmm.mem.Image(), pmm.bitmap)
    ensures pmm.own == Freed(own, done + PdPages(img, pdpt, 512))
  {
    hide Freeable, BitmapOk, DirPages, Freed, Standing;
    var i := 0;
    assert done + PdPages(img, pdpt, 0) == done;
    while i < 512
      invariant 0 <= i <= 512 && pmm.Valid() && SameOutside(img, pmm.mem.Image(), pmm.bitmap)
      invariant pmm.own == Freed(own, done + PdPages(img, pdpt, i))
    {
      ghost var before, all := done + PdPages(img, pdpt, i), done + PdPages(img, pdpt, 512);
      PdPrefix(img, pdpt, i, 512);
      PdPrefix(img, pdpt, i + 1, 512);
      assert before + DirPages(img, pdpt, i) == done + PdPages(img, pdpt, i + 1);
      FreeablePrefix(own, before + DirPages(img, pdpt, i), all);
      StandingPrefix(own, before, all, pdpt);
      FreeDirectory(pmm, pdpt, i, img, own, before);
      i := i + 1;
    }
  }

  /** pmap_free_tables: frees the listed pages in order; every entry is read through ReadEntry, that
      is, while its table has not been freed. */
  method FreeTables(pmm: PageAllocator, pml4_phys: Word)
    requires pmm.Valid() && Freeable(pmm.own, TornDown(pmm.mem.Image(), pml4_phys / 4096))
    modifies pmm`free_count, pmm`own, pmm.mem.frame
    ensures pmm.Valid() && SameOutside(old(pmm.mem.Image()), pmm.mem.Image(), pmm.bitmap)
    ensures pmm.own == Freed(old(pmm.own), TornDown(old(pmm.mem.Image()), pml4_phys / 4096))
    ensures FreesLinked(old(pmm.mem.Image()), pml4_phys / 4096, old(pmm.own), pmm.own)
  {
    hide FreesLinked;
    FreedLinked(pmm.mem.Image(), pml4_phys / 4096, pmm.own);
    ghost var img, own := pmm.mem.Image(), pmm.own;
    var root := pml4_phys / 4096;
    assert Freed(own, []) == own;
    hide Freeable, BitmapOk, SlotPages, Standing, Freed;
    StillStanding(own, PdptPages(img, root, 512), root);
    FreeablePrefix(own, PdptPages(img, root, 512), TornDown(img, root));
    var i := 0;
    while i < 512
      invariant 0 <= i <= 512 && pmm.Valid() && SameOutside(img, pmm.mem.Image(), pmm.bitmap)
      invariant pmm.own == Freed(own, PdptPages(img, root, i))
    {
      PdptPrefix(img, root, i, 512);
      PdptPrefix(img, root, i + 1, 512);
      FreeablePrefix(own, PdptPages(img, root, i + 1), PdptPages(img, root, 512));
      StandingPrefix(own, PdptPages(img, root, i), PdptPages(img, root, 512), root);
      FreeSlot(pmm, root, i, img, own, PdptPages(img, root, i));
      i := i + 1;
    }
    FreeOne(pmm, root, own, PdptPages(img, root, 512));
  }

  /** One turn of its outer loop: the PDPT in slot `i`, after what lies below it. */
  method FreeSlot(pmm: PageAllocator, root: nat, i: nat, ghost img: Image, ghost own: Ledger, ghost done: seq<nat>)
    requires pmm.Valid() && pmm.own == Freed(own, done) && SameOutside(img, pmm.mem.Image(), pmm.bitmap)
    requires i < 512 && Freeable(own, done + SlotPages(img, root, i)) && Standing(own, done, root)
    modifies pmm`free_count, pmm`own, pmm.mem.frame
    ensures pmm.Valid() && SameOutside(img, pmm.mem.Image(), pmm.bitmap)
    ensures pmm.own == Freed(own, done + SlotPages(img, root, i))
  {
    hide Freeable, BitmapOk, PdPages, Standing, Freed;
    var e := ReadEntry(pmm, root, i, img, own, done);
    if Present(e) {
      ghost var dirs := PdPages(img, Frame(e), 512);
      assert done + SlotPages(img, root, i) == done + dirs + [Frame(e)];
      FreeablePrefix(own, done + dirs, done + dirs + [Frame(e)]);
      StillStanding(own, done + dirs, Frame(e));
      FreeDirectories(pmm, Frame(e), img, own, done);
      FreeOne(pmm, Frame(e), own, done + dirs);
    } else {
      assert done + SlotPages(img, root, i) == done;
    }
  }

  // ---- which pages those are --------------------------------------------------------------------

  /** Along every path of the tree, in either half, lies the table that owns that path. */
  ghost predicate WholeOk(img: Image, own: Ledger, root: nat)
  {
    forall level, idx {:trigger PathAt(img, root, level, idx)} ::
      1 <= level <= 3 && 0 <= idx < 2 * Width(level) && PathAt(img, root, level, idx).Some? ==>
        OwnedAs(own, PathAt(img, root, level, idx).value,
                if idx < Width(level) then Table(root, level, idx) else Kernel(level, idx))
  }

  /** `p` is a table the tree reaches along its own path, below the PML4. */
  ghost predicate Reached(img: Image, own: Ledger, root: nat, p: nat)
  {
    && p < |own| && InTree(own[p]) && (own[p].Table? ==> own[p].root == root)
    && 1 <= own[p].level <= 3 && own[p].idx < 2 * Width(own[p].level)
    && PathAt(img, root, own[p].level, own[p].idx) == Some(p)
  }

  /** `p` is the table at `level` with path `idx`. */
  ghost predicate TableIs(img: Image, own: Ledger, root: nat, p: nat, level: nat, idx: nat)
  {
    Reached(img, own, root, p) && own[p].level == level && own[p].idx == idx
  }

  /** `p` is a table of the tree at `level` whose path starts with `prefix` and ends in a digit
      below `n`. */
  ghost predicate TableBelow(img: Image, own: Ledger, root: nat, p: nat, level: nat, prefix: nat, n: nat)
  {
    Reached(img, own, root, p) && own[p].level == level && own[p].idx / 512 == prefix && own[p].idx % 512 < n
  }

  ghost predicate DeepTableBelow(img: Image, own: Ledger, root: nat, p: nat, prefix: nat, n: nat)
  {
    Reached(img, own, root, p) && own[p].level == 1 && own[p].idx / 512 / 512 == prefix && own[p].idx / 512 % 512 < n
  }

  /** Path numbers are their last digit behind their prefix. */
  lemma LastDigit(idx: nat, prefix: nat, n: nat)
    requires n < 512
    ensures idx == prefix * 512 + n <==> idx / 512 == prefix && idx % 512 == n
  {
    assert idx == idx / 512 * 512 + idx % 512;
  }

  lemma AppendOne(s: seq<nat>, p: nat)
    requires Distinct(s) && p !in s
    ensures Distinct(s + [p])
  {}

  lemma AppendMany(a: seq<nat>, b: seq<nat>)
    requires Distinct(a) && Distinct(b) && forall p :: p in a ==> p !in b
    ensures Distinct(a + b)
  {
    forall i, j | 0 <= i < j < |a + b| ensures (a + b)[i] != (a + b)[j] {
      if i < |a| <= j { assert a[i] in a && b[j - |a|] in b; }
    }
  }

  /** The table linked from slot `i` of a table is the one that owns the longer path. */
  lemma BelowIs(img: Image, own: Ledger, root: nat, t: nat, level: nat, prefix: nat, i: nat)
    requires WholeOk(img, own, root) && 1 <= level <= 2 && i < 512 && prefix < 2 * Width(level + 1)
    requires PathAt(img, root, level + 1, prefix) == Some(t)
    ensures Below(img, t, i) == match PathAt(img, root, level, prefix * 512 + i) case None => [] case Some(p) => [p]
    ensures Below(img, t, i) != [] ==> TableIs(img, own, root, Below(img, t, i)[0], level, prefix * 512 + i)
    ensures forall p: nat :: TableIs(img, own, root, p, level, prefix * 512 + i) ==> Below(img, t, i) == [p]
  {
    var idx := prefix * 512 + i;
    LastDigit(idx, prefix, i);
    assert PathAt(img, root, level, idx) == NextTable(img, t, i);
    assert idx < 2 * Width(level);
    hide PathAt;
  }

  lemma {:induction false} PtPagesAre(img: Image, own: Ledger, root: nat, pd: nat, prefix: nat, n: nat)
    requires WholeOk(img, own, root) && prefix < 2 * Width(2) && n <= 512
    requires PathAt(img, root, 2, prefix) == Some(pd)
    ensures forall p :: p in PtPages(img, pd, n) <==> TableBelow(img, own, root, p, 1, prefix, n)
    ensures Distinct(PtPages(img, pd, n))
  {
    if n == 0 {
      assert PtPages(img, pd, 0) == [];
    } else {
      hide WholeOk, Below, PathAt, Distinct, TableBelow, TableIs;
      PtPagesAre(img, own, root, pd, prefix, n - 1);
      BelowIs(img, own, root, pd, 1, prefix, n - 1);
      OneTableMore(img, own, root, prefix, n - 1, PtPages(img, pd, n - 1), Below(img, pd, n - 1));
    }
  }

  lemma OneTableMore(img: Image, own: Ledger, root: nat, prefix: nat, i: nat, before: seq<nat>, below: seq<nat>)
    requires i < 512 && Distinct(before)
    requires forall p :: p in before <==> TableBelow(img, own, root, p, 1, prefix, i)
    requires |below| <= 1 && (|below| == 1 ==> TableIs(img, own, root, below[0], 1, prefix * 512 + i))
    requires forall p: nat :: TableIs(img, own, root, p, 1, prefix * 512 + i) ==> below == [p]
    ensures forall p :: p in before + below <==> TableBelow(img, own, root, p, 1, prefix, i + 1)
    ensures Distinct(before + below)
  {
    hide Distinct, TableBelow, TableIs;
    OneDigitMore(img, own, root, 1, prefix, i);
    if below == [] {
      assert before + below == before;
    } else {
      SlotApart(img, own, root, below[0], 1, prefix, i);
      AppendOne(before, below[0]);
      assert below == [below[0]];
    }
    forall p: nat ensures p in before + below <==> p in before || below == [p] {
      InBoth(before, below, p);
    }
  }

  lemma SlotApart(img: Image, own: Ledger, root: nat, p: nat, level: nat, prefix: nat, i: nat)
    requires TableIs(img, own, root, p, level, prefix * 512 + i) && i < 512
    ensures !TableBelow(img, own, root, p, level, prefix, i)
  {
    LastDigit(prefix * 512 + i, prefix, i);
  }

  lemma OneDigitMore(img: Image, own: Ledger, root: nat, level: nat, prefix: nat, n: nat)
    requires n < 512
    ensures forall p: nat :: TableBelow(img, own, root, p, level, prefix, n + 1) <==>
              TableBelow(img, own, root, p, level, prefix, n) || TableIs(img, own, root, p, level, prefix * 512 + n)
  {
    hide Reached;
    forall p: nat
      ensures TableBelow(img, own, root, p, level, prefix, n + 1) <==>
              TableBelow(img, own, root, p, level, prefix, n) || TableIs(img, own, root, p, level, prefix * 512 + n)
    {
      if Reached(img, own, root, p) { ReachedHasPath(img, own, root, p); LastDigit(own[p].idx, prefix, n); }
    }
  }

  lemma ReachedHasPath(img: Image, own: Ledger, root: nat, p: nat)
    requires Reached(img, own, root, p)
    ensures p < |own| && InTree(own[p])
  {}

  lemma DeepDigitMore(img: Image, own: Ledger, root: nat, prefix: nat, n: nat)
    requires n < 512
    ensures forall p: nat :: DeepTableBelow(img, own, root, p, prefix, n + 1) <==>
              DeepTableBelow(img, own, root, p, prefix, n) || TableBelow(img, own, root, p, 1, prefix * 512 + n, 512)
  {
    hide Reached;
    forall p: nat
      ensures DeepTableBelow(img, own, root, p, prefix, n + 1) <==>
              DeepTableBelow(img, own, root, p, prefix, n) || TableBelow(img, own, root, p, 1, prefix * 512 + n, 512)
    {
      if Reached(img, own, root, p) { ReachedHasPath(img, own, root, p); LastDigit(own[p].idx / 512, prefix, n); }
    }
  }

  /** What slots below `n` lead to is told apart from what slot `n` leads to by its path. */
  lemma DigitsDiffer(img: Image, own: Ledger, root: nat, prefix: nat, n: nat)
    requires n < 512
    ensures forall p: nat :: TableBelow(img, own, root, p, 2, prefix, n) || DeepTableBelow(img, own, root, p, prefix, n) ==>
              !TableIs(img, own, root, p, 2, prefix * 512 + n) && !TableBelow(img, own, root, p, 1, prefix * 512 + n, 512)
  {
    hide Reached;
    forall p: nat | Reached(img, own, root, p)
      ensures !(TableBelow(img, own, root, p, 2, prefix, n) && TableIs(img, own, root, p, 2, prefix * 512 + n))
      ensures !(DeepTableBelow(img, own, root, p, prefix, n) && TableBelow(img, own, root, p, 1, prefix * 512 + n, 512))
    {
      ReachedHasPath(img, own, root, p);
      LastDigit(own[p].idx, prefix, n);
      LastDigit(own[p].idx / 512, prefix, n);
    }
  }

  lemma DirPagesAre(img: Image, own: Ledger, root: nat, pdpt: nat, prefix: nat, i: nat)
    requires WholeOk(img, own, root) && prefix < 2 * Width(3) && i < 512
    requires PathAt(img, root, 3, prefix) == Some(pdpt)
    ensures forall p :: p in DirPages(img, pdpt, i) <==>
              TableIs(img, own, root, p, 2, prefix * 512 + i) || TableBelow(img, own, root, p, 1, prefix * 512 + i, 512)
    ensures Distinct(DirPages(img, pdpt, i))
  {
    hide WholeOk, Below, PtPages, PathAt, TableIs, TableBelow;
    var below, idx := Below(img, pdpt, i), prefix * 512 + i;
    BelowIs(img, own, root, pdpt, 2, prefix, i);
    if below == [] {
      NoTableUnderMissing(img, own, root, idx);
      forall p: nat ensures !TableIs(img, own, root, p, 2, idx) { assert |[p]| == 1; }
      forall p: nat ensures !TableBelow(img, own, root, p, 1, idx, 512) {}
    } else {
      PtPagesAre(img, own, root, below[0], idx, 512);
      AtAndBelow(img, own, root, below[0], idx);
      AppendOne(PtPages(img, below[0], 512), below[0]);
      forall p: nat ensures p in DirPages(img, pdpt, i) <==> p in PtPages(img, below[0], 512) || p == below[0] {
        InBoth(PtPages(img, below[0], 512), below, p);
      }
      forall p: nat ensures p == below[0] <==> TableIs(img, own, root, p, 2, idx) {
        if TableIs(img, own, root, p, 2, idx) { assert below == [p]; }
      }
    }
  }

  lemma AtAndBelow(img: Image, own: Ledger, root: nat, p: nat, idx: nat)
    requires TableIs(img, own, root, p, 2, idx)
    ensures !TableBelow(img, own, root, p, 1, idx, 512)
  {}

  lemma {:induction false} PdPagesAre(img: Image, own: Ledger, root: nat, pdpt: nat, prefix: nat, n: nat)
    requires WholeOk(img, own, root) && prefix < 2 * Width(3) && n <= 512
    requires PathAt(img, root, 3, prefix) == Some(pdpt)
    ensures forall p :: p in PdPages(img, pdpt, n) <==>
              TableBelow(img, own, root, p, 2, prefix, n) || DeepTableBelow(img, own, root, p, prefix, n)
    ensures Distinct(PdPages(img, pdpt, n))
  {
    if n == 0 {
      assert PdPages(img, pdpt, 0) == [];
    } else {
      hide WholeOk, DirPages, Distinct, TableBelow, DeepTableBelow, TableIs, PathAt;
      PdPagesAre(img, own, root, pdpt, prefix, n - 1);
      DirPagesAre(img, own, root, pdpt, prefix, n - 1);
      OneDirectoryMore(img, own, root, prefix, n - 1, PdPages(img, pdpt, n - 1), DirPages(img, pdpt, n - 1));
    }
  }

  lemma OneDirectoryMore(img: Image, own: Ledger, root: nat, prefix: nat, i: nat, before: seq<nat>, dir: seq<nat>)
    requires i < 512 && Distinct(before) && Distinct(dir)
    requires forall p :: p in before <==>
               TableBelow(img, own, root, p, 2, prefix, i) || DeepTableBelow(img, own, root, p, prefix, i)
    requires forall p :: p in dir <==>
               TableIs(img, own, root, p, 2, prefix * 512 + i) || TableBelow(img, own, root, p, 1, prefix * 512 + i, 512)
    ensures forall p :: p in before + dir <==>
              TableBelow(img, own, root, p, 2, prefix, i + 1) || DeepTableBelow(img, own, root, p, prefix, i + 1)
    ensures Distinct(before + dir)
  {
    hide Distinct, TableBelow, DeepTableBelow, TableIs;
    OneDigitMore(img, own, root, 2, prefix, i);
    DeepDigitMore(img, own, root, prefix, i);
    DigitsDiffer(img, own, root, prefix, i);
    AppendMany(before, dir);
    forall p: nat ensures p in before + dir <==> p in before || p in dir {
      InBoth(before, dir, p);
    }
  }

  /** Below a missing directory there are no page tables. */
  lemma NoTableUnderMissing(img: Image, own: Ledger, root: nat, prefix: nat)
    requires PathAt(img, root, 2, prefix) == None
    ensures forall p: nat, n: nat :: !TableBelow(img, own, root, p, 1, prefix, n)
  {}

  /** Tables whose PML4 slot is below `n`. */
  ghost predicate UnderSlots(img: Image, own: Ledger, root: nat, p: nat, n: nat)
  {
    Reached(img, own, root, p)
    && ((own[p].level == 3 && own[p].idx < n) || (own[p].level == 2 && own[p].idx / 512 < n)
        || (own[p].level == 1 && own[p].idx / 512 / 512 < n))
  }

  lemma SlotMore(img: Image, own: Ledger, root: nat, n: nat)
    ensures forall p: nat :: UnderSlots(img, own, root, p, n + 1) <==>
              UnderSlots(img, own, root, p, n) || TableIs(img, own, root, p, 3, n)
              || TableBelow(img, own, root, p, 2, n, 512) || DeepTableBelow(img, own, root, p, n, 512)
    ensures forall p: nat :: UnderSlots(img, own, root, p, n) ==>
              !TableIs(img, own, root, p, 3, n) && !TableBelow(img, own, root, p, 2, n, 512)
              && !DeepTableBelow(img, own, root, p, n, 512)
  {}

  /** A present PML4 slot leads to the table that owns its path. */
  lemma SlotIs(img: Image, own: Ledger, root: nat, i: nat)
    requires WholeOk(img, own, root) && i < 512
    ensures PathAt(img, root, 3, i) == Child(img, root, i)
    ensures match Child(img, root, i)
            case None => forall p: nat :: !TableIs(img, own, root, p, 3, i)
            case Some(c) => TableIs(img, own, root, c, 3, i) && forall p: nat :: TableIs(img, own, root, p, 3, i) ==> p == c
  {
    assert i / 512 == 0 && i % 512 == i && PathAt(img, root, 4, 0) == Some(root);
  }

  lemma NothingUnderMissingSlot(img: Image, own: Ledger, root: nat, i: nat)
    requires PathAt(img, root, 3, i) == None
    ensures forall p: nat, n: nat :: !TableBelow(img, own, root, p, 2, i, n) && !DeepTableBelow(img, own, root, p, i, n)
  {
    forall p: nat | Reached(img, own, root, p) && own[p].level == 1
      ensures PathAt(img, root, 2, own[p].idx / 512).Some? && PathAt(img, root, 3, own[p].idx / 512 / 512).Some?
    {}
  }

  lemma NotItself(img: Image, own: Ledger, root: nat, c: nat, i: nat)
    requires TableIs(img, own, root, c, 3, i)
    ensures !TableBelow(img, own, root, c, 2, i, 512) && !DeepTableBelow(img, own, root, c, i, 512)
  {}

  lemma {:induction false} PdptPagesAre(img: Image, own: Ledger, root: nat, n: nat)
    requires WholeOk(img, own, root) && n <= 512
    ensures forall p :: p in PdptPages(img, root, n) <==> UnderSlots(img, own, root, p, n)
    ensures Distinct(PdptPages(img, root, n))
  {
    if n == 0 {
      assert PdptPages(img, root, 0) == [];
    } else {
      hide TableBelow, DeepTableBelow, TableIs, UnderSlots, PdPages, Child, PathAt, WholeOk, Distinct;
      var i := n - 1;
      PdptPagesAre(img, own, root, i);
      SlotIs(img, own, root, i);
      SlotMore(img, own, root, i);
      match Child(img, root, i)
      case None =>
        assert SlotPages(img, root, i) == [] && PdptPages(img, root, n) == PdptPages(img, root, i);
        NothingUnderMissingSlot(img, own, root, i);
      case Some(c) =>
        var before, dirs := PdptPages(img, root, i), PdPages(img, c, 512);
        PdPagesAre(img, own, root, c, i, 512);
        NotItself(img, own, root, c, i);
        AppendOne(dirs, c);
        AppendMany(before, dirs + [c]);
        assert SlotPages(img, root, i) == dirs + [c];
        forall p: nat ensures p in PdptPages(img, root, n) <==> p in before || p in dirs || p == c {
          InBoth(before, dirs + [c], p);
          InBoth(dirs, [c], p);
        }
    }
  }

  // ---- the tree and the kernel's share -----------------------------------------------------------

  /** In the lower half there are no large pages, so both ways of following a path agree. */
  lemma {:induction false} LowerPath(img: Image, own: Ledger, root: nat, level: nat, idx: nat)
    requires TablesOk(img, own, root) && 1 <= level <= 4 && idx < Width(level)
    ensures PathAt(img, root, level, idx) == TableAt(img, root, level, idx)
    decreases 4 - level
  {
    if level < 4 {
      LowerPath(img, own, root, level + 1, idx / 512);
    }
  }

  lemma WholeIs(img: Image, own: Ledger, root: nat)
    requires TablesOk(img, own, root) && UpperOk(img, own, root)
    ensures WholeOk(img, own, root)
  {
    forall level, idx | 1 <= level <= 3 && 0 <= idx < 2 * Width(level) && PathAt(img, root, level, idx).Some?
      ensures OwnedAs(own, PathAt(img, root, level, idx).value,
                      if idx < Width(level) then Table(root, level, idx) else Kernel(level, idx))
    {
      if idx < Width(level) { LowerPath(img, own, root, level, idx); } else { assert Upper(level, idx); }
    }
  }

  /** `p` is a kernel table that the upper half of `root` leads to. */
  ghost predicate KernelLinked(img: Image, own: Ledger, root: nat, p: nat)
  {
    && p < |own| && own[p].Kernel? && Upper(own[p].level, own[p].idx)
    && PathAt(img, root, own[p].level, own[p].idx) == Some(p)
  }

  /** Reached are exactly the tables of the tree and the kernel tables its upper half leads to. */
  lemma ReachedIs(img: Image, own: Ledger, root: nat, p: nat)
    requires TablesOk(img, own, root) && UpperOk(img, own, root) && IsRoot(own, root)
    ensures p == root || Reached(img, own, root, p) <==> IsTable(own, root, p) || KernelLinked(img, own, root, p)
  {
    WholeIs(img, own, root);
    if IsTable(own, root, p) {
      if own[p].level <= 3 { LowerPath(img, own, root, own[p].level, own[p].idx); }
      else { assert TableAt(img, root, 4, own[p].idx) == Some(p); }
    }
    if Reached(img, own, root, p) {
      assert OwnedAs(own, p, if own[p].idx < Width(own[p].level) then Table(root, own[p].level, own[p].idx)
                             else Kernel(own[p].level, own[p].idx));
    }
  }

  /** pmap_free_tables frees exactly the tables of the address space and the kernel tables its upper
      half leads to, over all 512 slots and each once: no leaf frame and no large page, in either
      half. */
  lemma TornDownIsTheTree(img: Image, own: Ledger, root: nat)
    requires TablesOk(img, own, root) && UpperOk(img, own, root) && IsRoot(own, root)
    requires |own| == MAX_PAGES && own[0] == Reserved
    ensures forall p :: p in TornDown(img, root) <==> IsTable(own, root, p) || KernelLinked(img, own, root, p)
    ensures Distinct(TornDown(img, root)) && Freeable(own, TornDown(img, root))
  {
    WholeIs(img, own, root);
    PdptPagesAre(img, own, root, 512);
    hide TablesOk, UpperOk, WholeOk, PathAt, PdptPages;
    forall p: nat
      ensures p in TornDown(img, root) <==> IsTable(own, root, p) || KernelLinked(img, own, root, p)
    {
      ReachedIs(img, own, root, p);
      InBoth(PdptPages(img, root, 512), [root], p);
      SlotBound(img, own, root, p);
    }
    AppendOne(PdptPages(img, root, 512), root);
  }

  lemma SlotBound(img: Image, own: Ledger, root: nat, p: nat)
    requires IsRoot(own, root)
    ensures Reached(img, own, root, p) <==> UnderSlots(img, own, root, p, 512)
    ensures !Reached(img, own, root, root)
  {}

  ghost predicate UpperHalfEmpty(img: Image, root: nat)
  {
    root < |img| && forall i :: 256 <= i < 512 ==> !Present(img[root][i])
  }

  /** A present upper-half slot, such as the kernel entries pmap_create copies, is torn down too: the
      table it points at is freed although this address space does not own it.  So the teardown
      frees nothing but the tables of this address space if and only if its upper half is empty. */
  lemma SharedTablesAreFreed(img: Image, own: Ledger, root: nat)
    requires TablesOk(img, own, root) && UpperOk(img, own, root) && IsRoot(own, root)
    requires |own| == MAX_PAGES && own[0] == Reserved
    ensures (forall p :: p in TornDown(img, root) ==> IsTable(own, root, p)) <==> UpperHalfEmpty(img, root)
  {
    TornDownIsTheTree(img, own, root);
    UpperSlots(img, own, root);
    hide TablesOk, UpperOk, TornDown, UpperHalfEmpty;
  }

  lemma UpperSlots(img: Image, own: Ledger, root: nat)
    requires UpperOk(img, own, root)
    ensures UpperHalfEmpty(img, root) <==> forall p: nat :: !KernelLinked(img, own, root, p)
  {
    if UpperHalfEmpty(img, root) {
      forall p: nat ensures !KernelLinked(img, own, root, p) {
        if p < |own| && own[p].Kernel? && Upper(own[p].level, own[p].idx) {
          NothingLinked(img, root, own[p].level, own[p].idx);
        }
      }
    } else {
      var i :| 256 <= i < 512 && Present(img[root][i]);
      assert PathAt(img, root, 4, 0) == Some(root) && i / 512 == 0 && i % 512 == i;
      assert Upper(3, i) && PathAt(img, root, 3, i) == Some(Frame(img[root][i]));
      assert KernelLinked(img, own, root, Frame(img[root][i]));
    }
  }

  lemma {:induction false} NothingLinked(img: Image, root: nat, level: nat, idx: nat)
    requires UpperHalfEmpty(img, root) && Upper(level, idx)
    ensures PathAt(img, root, level, idx) == None
    decreases 4 - level
  {
    if level < 3 {
      assert Upper(level + 1, idx / 512);
      NothingLinked(img, root, level + 1, idx / 512);
    } else {
      assert PathAt(img, root, 4, 0) == Some(root) && idx / 512 == 0 && idx % 512 == idx;
    }
  }
}
