/** The four-level page table of hal/x86_64/pmap.c as a tree inside physical memory, and the flat
    map it stands for.  The lower half (PML4 slots 0..255) belongs to an address space; the upper
    half leads to the tables of the kernel, which all address spaces share. */
module PageTable {
  import opened Words
  import opened PhysMem
  import opened Pmm

  const LOWER_PAGES: nat := 0x8_0000_0000   // 2^35 virtual pages below the half

  /** Virtual page number selected by the four index macros. */
  function Vpn(va: Word): nat { va / 4096 % 0x10_0000_0000 }

  /** Number of nodes a full lower half has at each level; level 0 stands for mapped pages. */
  function Width(level: nat): nat
  {
    if level == 0 then LOWER_PAGES
    else if level == 1 then 0x400_0000
    else if level == 2 then 0x2_0000
    else if level == 3 then 0x100
    else 1
  }

  /** The table frame reached from `root` along the path numbered `idx`, as pmap_walk follows it. */
  function TableAt(img: Image, root: nat, level: nat, idx: nat): Option<nat>
    decreases 4 - level
  {
    if level >= 4 then Some(root)
    else match TableAt(img, root, level + 1, idx / 512)
      case None => None
      case Some(t) => Child(img, t, idx % 512)
  }

  /** The frame a present entry points at. */
  function Child(img: Image, t: nat, i: nat): Option<nat>
    requires i < 512
  {
    if t < |img| && Present(img[t][i]) then Some(Frame(img[t][i])) else None
  }

  /** The flat map: the leaf entry of virtual page `vpn`, if it is mapped. */
  function Translation(img: Image, root: nat, vpn: nat): Option<Word>
  {
    match TableAt(img, root, 1, vpn / 512)
    case None => None
    case Some(t) =>
      if t < |img| && Present(img[t][vpn % 512]) then Some(img[t][vpn % 512]) else None
  }

  /** Root frames of live address spaces. */
  predicate IsRoot(own: Ledger, root: nat)
  {
    root < |own| && own[root] == Table(root, 4, 0)
  }

  predicate OwnedAs(own: Ledger, p: nat, o: Owner) { p < |own| && own[p] == o }

  ghost predicate IsTable(own: Ledger, root: nat, p: nat)
  {
    p < |own| && own[p].Table? && own[p].root == root
  }

  /** A page table proper: the last level of the tree. */
  ghost predicate IsLeafTable(own: Ledger, root: nat, p: nat)
  {
    IsTable(own, root, p) && own[p].level == 1
  }

  /** The PML4 slots shared with the kernel are as they were. */
  ghost predicate UpperKept(img: Image, img': Image, root: nat)
  {
    root < |img| && root < |img'| && forall i :: 256 <= i < 512 ==> img'[root][i] == img[root][i]
  }

  /** No entry of an upper-level table is a large page. */
  ghost predicate NoLargePages(page: Page)
  {
    forall i :: 0 <= i < 512 && Present(page[i]) ==> !Huge(page[i])
  }

  /** The tree of `root` is exactly what the ledger says: every reachable table is owned under its
      path, every table owned by the tree is reached along its path.  The walk never links large
      pages. */
  ghost predicate TablesOk(img: Image, own: Ledger, root: nat)
  {
    && |own| <= |img|
    && (forall level, idx {:trigger TableAt(img, root, level, idx)} ::
          1 <= level <= 4 && 0 <= idx < Width(level) && TableAt(img, root, level, idx).Some? ==>
            OwnedAs(own, TableAt(img, root, level, idx).value, Table(root, level, idx)))
    && (forall p: nat :: IsTable(own, root, p) ==>
          && 1 <= own[p].level <= 4 && own[p].idx < Width(own[p].level)
          && TableAt(img, root, own[p].level, own[p].idx) == Some(p))
    && (forall p: nat :: IsTable(own, root, p) && 2 <= own[p].level <= 3 ==> NoLargePages(img[p]))
  }

  /** Frames mapped by `root` are exactly the ledger's data frames of `root`, one page each. */
  ghost predicate DataOk(img: Image, own: Ledger, root: nat)
  {
    && (forall vpn {:trigger Translation(img, root, vpn)} ::
          0 <= vpn < LOWER_PAGES && Translation(img, root, vpn).Some? ==>
            OwnedAs(own, Frame(Translation(img, root, vpn).value), Data(root, vpn)))
    && (forall p :: 0 <= p < |own| && own[p].Data? && own[p].root == root ==>
          && own[p].vpn < LOWER_PAGES
          && Translation(img, root, own[p].vpn).Some?
          && Frame(Translation(img, root, own[p].vpn).value) == p)
  }

  // ---- the shared upper half -----------------------------------------------------------------

  /** The table a non-leaf entry links, unless it is absent or a large page. */
  function NextTable(img: Image, t: nat, i: nat): Option<nat>
    requires i < 512
  {
    if t < |img| && Present(img[t][i]) && !Huge(img[t][i]) then Some(Frame(img[t][i])) else None
  }

  /** The table frame reached along a path of either half: slots of the PML4 are followed whenever
      they are present, slots of lower levels unless they map a large page. */
  function PathAt(img: Image, root: nat, level: nat, idx: nat): Option<nat>
    decreases 4 - level
  {
    if level >= 4 then Some(root)
    else match PathAt(img, root, level + 1, idx / 512)
      case None => None
      case Some(t) => if level == 3 then Child(img, t, idx % 512) else NextTable(img, t, idx % 512)
  }

  /** Some entry that leads to the table at this path maps a large page. */
  predicate LargeOnPath(img: Image, root: nat, level: nat, idx: nat)
    decreases 4 - level
  {
    level < 3
    && (LargeOnPath(img, root, level + 1, idx / 512)
        || match TableAt(img, root, level + 1, idx / 512)
           case None => false
           case Some(t) => t < |img| && Present(img[t][idx % 512]) && Huge(img[t][idx % 512]))
  }

  /** pmap_walk never looks at the large-page bit: it arrives at the table of a path if and only if no
      entry on the way maps a large page, and else takes the large page for a table. */
  lemma {:induction false} LargePageTakenForTable(img: Image, root: nat, level: nat, idx: nat)
    requires 1 <= level <= 4
    ensures PathAt(img, root, level, idx) == if LargeOnPath(img, root, level, idx) then None else TableAt(img, root, level, idx)
    ensures TableAt(img, root, level, idx).Some? ==>
              (PathAt(img, root, level, idx) == TableAt(img, root, level, idx) <==> !LargeOnPath(img, root, level, idx))
    decreases 4 - level
  {
    if level < 4 { LargePageTakenForTable(img, root, level + 1, idx / 512); }
  }

  /** Path numbers that start with one of the PML4 slots 256..511. */
  predicate Upper(level: nat, idx: nat)
  {
    1 <= level <= 3 && Width(level) <= idx < 2 * Width(level)
  }

  /** The upper half of `root` leads to tables of the kernel only, each at its own path. */
  ghost predicate UpperOk(img: Image, own: Ledger, root: nat)
  {
    && root < |img| && |own| <= |img|
    && forall level, idx {:trigger PathAt(img, root, level, idx)} ::
         Upper(level, idx) && PathAt(img, root, level, idx).Some? ==>
           OwnedAs(own, PathAt(img, root, level, idx).value, Kernel(level, idx))
  }

  /** Roots whose upper half is the kernel's: those of live address spaces and the kernel's own. */
  predicate HasUpper(own: Ledger, r: nat)
  {
    r < |own| && (own[r] == Table(r, 4, 0) || own[r] == Kernel(4, 0))
  }

  ghost predicate UppersOk(img: Image, own: Ledger)
  {
    forall r :: HasUpper(own, r) ==> UpperOk(img, own, r)
  }

  /** The kernel's tables are as they were. */
  ghost predicate KernelKept(img: Image, own: Ledger, img': Image, own': Ledger)
  {
    && |img'| == |img| && |own'| == |own|
    && forall p :: 0 <= p < |own| && (own[p].Kernel? || own'[p].Kernel?) ==>
         own'[p] == own[p] && (p < |img| ==> img'[p] == img[p])
  }

  /** Two PML4s with the same upper slots reach the same tables there. */
  lemma {:induction false} UpperWalk(img: Image, own: Ledger, img': Image, root: nat, root': nat, level: nat, idx: nat)
    requires UpperOk(img, own, root) && root' < |img'| == |img|
    requires forall p: nat :: p < |own| && own[p].Kernel? && p < |img| ==> img'[p] == img[p]
    requires forall i :: 256 <= i < 512 ==> img'[root'][i] == img[root][i]
    requires Upper(level, idx)
    ensures PathAt(img', root', level, idx) == PathAt(img, root, level, idx)
    decreases 4 - level
  {
    if level < 3 {
      assert Upper(level + 1, idx / 512);
      UpperWalk(img, own, img', root, root', level + 1, idx / 512);
    } else {
      assert idx / 512 == 0 && PathAt(img, root, 4, 0) == Some(root) && PathAt(img', root', 4, 0) == Some(root');
    }
  }

  /** ... so one has the kernel's upper half if the other has. */
  lemma UpperFrame(img: Image, own: Ledger, img': Image, own': Ledger, root: nat, root': nat)
    requires UpperOk(img, own, root) && KernelKept(img, own, img', own') && root' < |img'|
    requires forall i :: 256 <= i < 512 ==> img'[root'][i] == img[root][i]
    ensures UpperOk(img', own', root')
  {
    forall level, idx | Upper(level, idx) && PathAt(img', root', level, idx).Some?
      ensures OwnedAs(own', PathAt(img', root', level, idx).value, Kernel(level, idx))
    {
      UpperWalk(img, own, img', root, root', level, idx);
      assert OwnedAs(own, PathAt(img, root, level, idx).value, Kernel(level, idx));
      KernelStays(img, own, img', own', PathAt(img, root, level, idx).value);
    }
  }

  lemma KernelStays(img: Image, own: Ledger, img': Image, own': Ledger, p: nat)
    requires KernelKept(img, own, img', own') && p < |own| && own[p].Kernel?
    ensures own'[p] == own[p]
  {}

  /** Nothing the upper halves consist of has changed. */
  lemma UppersFrame(img: Image, own: Ledger, img': Image, own': Ledger)
    requires UppersOk(img, own) && KernelKept(img, own, img', own')
    requires forall r :: HasUpper(own', r) ==> HasUpper(own, r) && UpperKept(img, img', r)
    ensures UppersOk(img', own')
  {
    hide UpperOk;
    forall r | HasUpper(own', r) ensures UpperOk(img', own', r) {
      UpperFrame(img, own, img', own', r, r);
    }
  }

  // ---- frames of the lower half ----------------------------------------------------------------

  /** `img` and `img'` agree on every table of the tree. */
  ghost predicate AgreeOnTables(img: Image, img': Image, own: Ledger, root: nat)
  {
    |img'| == |img| && forall p: nat :: p < |img| && IsTable(own, root, p) ==> img'[p] == img[p]
  }

  ghost predicate SamePaths(img: Image, img': Image, root: nat)
  {
    forall level, idx {:trigger TableAt(img', root, level, idx)} ::
      1 <= level <= 4 && 0 <= idx < Width(level) ==> TableAt(img', root, level, idx) == TableAt(img, root, level, idx)
  }

  ghost predicate SameTranslations(img: Image, img': Image, root: nat)
  {
    forall vpn {:trigger Translation(img', root, vpn)} ::
      0 <= vpn < LOWER_PAGES ==> Translation(img', root, vpn) == Translation(img, root, vpn)
  }

  lemma {:induction false} WalkFrame(img: Image, img': Image, own: Ledger, root: nat, level: nat, idx: nat)
    requires TablesOk(img, own, root) && AgreeOnTables(img, img', own, root)
    requires 1 <= level <= 4 && idx < Width(level)
    ensures TableAt(img', root, level, idx) == TableAt(img, root, level, idx)
    decreases 4 - level
  {
    if level < 4 {
      WalkFrame(img, img', own, root, level + 1, idx / 512);
    }
  }

  /** A tree that nobody writes to keeps its shape and its translations. */
  lemma TreeFrame(img: Image, img': Image, own: Ledger, own': Ledger, root: nat)
    requires TablesOk(img, own, root) && AgreeOnTables(img, img', own, root)
    requires |own'| == |own|
    requires forall p :: 0 <= p < |own| && (IsTable(own, root, p) || IsTable(own', root, p)) ==> own'[p] == own[p]
    ensures TablesOk(img', own', root) && SamePaths(img, img', root) && SameTranslations(img, img', root)
  {
    forall level, idx | 1 <= level <= 4 && 0 <= idx < Width(level)
      ensures TableAt(img', root, level, idx) == TableAt(img, root, level, idx)
    {
      WalkFrame(img, img', own, root, level, idx);
    }
    forall vpn | 0 <= vpn < LOWER_PAGES
      ensures Translation(img', root, vpn) == Translation(img, root, vpn)
    {
      WalkFrame(img, img', own, root, 1, vpn / 512);
    }
    forall p: nat | IsTable(own', root, p)
      ensures 1 <= own'[p].level <= 4 && own'[p].idx < Width(own'[p].level)
      ensures TableAt(img', root, own'[p].level, own'[p].idx) == Some(p)
    {
      assert IsTable(own, root, p);
    }
    forall p: nat | IsTable(own', root, p) && 2 <= own'[p].level <= 3 ensures NoLargePages(img'[p]) {
      assert IsTable(own, root, p);
    }
  }

  /** Linking the zeroed frame `c` into slot `idx % 512` of its parent adds one empty table to the
      tree and changes no other path. */
  lemma {:induction false} LinkWalk(img: Image, img': Image, own: Ledger, root: nat,
                                    level: nat, idx: nat, t: nat, c: nat, k: nat, j: nat)
    requires TablesOk(img, own, root) && Linked(img, img', own, root, level, idx, t, c)
    requires 1 <= k <= 4 && j < Width(k)
    ensures TableAt(img', root, k, j) ==
            if k == level && j == idx then Some(c) else TableAt(img, root, k, j)
    decreases 4 - k
  {
    if k < 4 {
      LinkWalk(img, img', own, root, level, idx, t, c, k + 1, j / 512);
      if k == level && j / 512 == idx / 512 {
        assert j == idx <==> j % 512 == idx % 512;
      }
    }
  }

  ghost predicate Linked(img: Image, img': Image, own: Ledger, root: nat, level: nat, idx: nat, t: nat, c: nat)
  {
    && 1 <= level <= 3 && idx < Width(level)
    && |img'| == |img| && t < |own| <= |img| && c < |own| && c < 0x100_0000_0000
    && own[t] == Table(root, level + 1, idx / 512)
    && !IsTable(own, root, c)
    && Child(img, t, idx % 512) == None
    && Present(img'[t][idx % 512]) && Frame(img'[t][idx % 512]) == c && !Huge(img'[t][idx % 512])
    && (forall i :: 0 <= i < 512 && i != idx % 512 ==> img'[t][i] == img[t][i])
    && IsZero(img'[c])
    && (forall p :: 0 <= p < |img| && IsTable(own, root, p) && p != t ==> img'[p] == img[p])
  }

  lemma LinkTable(img: Image, img': Image, own: Ledger, root: nat, level: nat, idx: nat, t: nat, c: nat)
    requires TablesOk(img, own, root) && Linked(img, img', own, root, level, idx, t, c)
    ensures TablesOk(img', own[c := Table(root, level, idx)], root)
    ensures TableAt(img', root, level, idx) == Some(c)
    ensures SameTranslations(img, img', root)
  {
    var own' := own[c := Table(root, level, idx)];
    assert TableAt(img, root, level + 1, idx / 512) == Some(t);
    assert TableAt(img, root, level, idx) == None;
    forall k, j | 1 <= k <= 4 && 0 <= j < Width(k)
      ensures TableAt(img', root, k, j) == if k == level && j == idx then Some(c) else TableAt(img, root, k, j)
    {
      LinkWalk(img, img', own, root, level, idx, t, c, k, j);
    }
    forall vpn | 0 <= vpn < LOWER_PAGES
      ensures Translation(img', root, vpn) == Translation(img, root, vpn)
    {
      LinkWalk(img, img', own, root, level, idx, t, c, 1, vpn / 512);
    }
    forall p: nat | IsTable(own', root, p)
      ensures 1 <= own'[p].level <= 4 && own'[p].idx < Width(own'[p].level)
      ensures TableAt(img', root, own'[p].level, own'[p].idx) == Some(p)
    {
      if p != c { assert IsTable(own, root, p); }
    }
    forall p: nat | IsTable(own', root, p) && 2 <= own'[p].level <= 3 ensures NoLargePages(img'[p]) {
      if p != c { assert IsTable(own, root, p) && NoLargePages(img[p]); }
    }
  }

  /** Writing one leaf entry changes the translation of that page only. */
  lemma SetLeaf(img: Image, img': Image, own: Ledger, root: nat, vpn: nat, t: nat, w: Word)
    requires TablesOk(img, own, root) && vpn < LOWER_PAGES
    requires TableAt(img, root, 1, vpn / 512) == Some(t)
    requires img' == WithWord(img, t, vpn % 512, w)
    ensures TablesOk(img', own, root)
    ensures forall v :: 0 <= v < LOWER_PAGES ==>
              Translation(img', root, v) ==
              if v == vpn then (if Present(w) then Some(w) else None) else Translation(img, root, v)
  {
    forall k, j | 1 <= k <= 4 && 0 <= j < Width(k)
      ensures TableAt(img', root, k, j) == TableAt(img, root, k, j)
    {
      LeafWalk(img, img', own, root, t, k, j);
    }
    forall v | 0 <= v < LOWER_PAGES
      ensures Translation(img', root, v) ==
              if v == vpn then (if Present(w) then Some(w) else None) else Translation(img, root, v)
    {
      LeafWalk(img, img', own, root, t, 1, v / 512);
      if v / 512 == vpn / 512 { assert v == vpn <==> v % 512 == vpn % 512; }
    }
  }

  lemma {:induction false} LeafWalk(img: Image, img': Image, own: Ledger, root: nat, t: nat, k: nat, j: nat)
    requires TablesOk(img, own, root) && |img'| == |img|
    requires t < |own| && own[t].Table? && own[t].level == 1
    requires forall p :: 0 <= p < |img| && p != t ==> img'[p] == img[p]
    requires 1 <= k <= 4 && j < Width(k)
    ensures TableAt(img', root, k, j) == TableAt(img, root, k, j)
    decreases 4 - k
  {
    if k < 4 {
      LeafWalk(img, img', own, root, t, k + 1, j / 512);
    }
  }
}
