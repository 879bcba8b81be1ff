/** Data frames: the invariant that ties every leaf entry of every live tree to the one frame it
    owns, and how mapping and unmapping a page move frames between owners. */
module Mappings {
  import opened Words
  import opened PhysMem
  import opened Pmm
  import opened PageTable
  import opened Pmap

  /** Each mapped frame belongs to exactly one page of one live address space. */
  ghost predicate MappingsOk(img: Image, own: Ledger)
  {
    && (forall root :: IsRoot(own, root) ==> DataOk(img, own, root))
    && (forall p :: 0 <= p < |own| && own[p].Data? ==> IsRoot(own, own[p].root))
  }

  ghost predicate IsData(own: Ledger, root: nat, p: nat)
  {
    p < |own| && own[p].Data? && own[p].root == root
  }

  /** Changes that move no data frame and no translation. */
  lemma KeepMappings(img: Image, own: Ledger, img': Image, own': Ledger)
    requires MappingsOk(img, own) && |own'| == |own|
    requires forall p :: 0 <= p < |own| && (own[p].Data? || own'[p].Data?) ==> own'[p] == own[p]
    requires forall r :: IsRoot(own', r) || IsRoot(own, r) ==>
               IsRoot(own', r) && IsRoot(own, r) && SameTranslations(img, img', r)
    ensures MappingsOk(img', own')
  {
    forall root | IsRoot(own', root) ensures DataOk(img', own', root) {
      assert DataOk(img, own, root);
    }
  }

  /** Mapping the held frame of `w` at a page that had none gives that frame to the page. */
  lemma AddMapping(img: Image, own: Ledger, img': Image, root: nat, vpn: nat, w: Word)
    requires MappingsOk(img, own) && IsRoot(own, root) && vpn < LOWER_PAGES
    requires Translation(img, root, vpn) == None
    requires Remapped(img, img', root, vpn, Some(w)) && OthersSame(img, own, img', root)
    requires Frame(w) < |own| && own[Frame(w)] == Held
    ensures MappingsOk(img', own[Frame(w) := Data(root, vpn)])
  {
    var own' := own[Frame(w) := Data(root, vpn)];
    forall r | IsRoot(own', r) ensures DataOk(img', own', r) {
      assert IsRoot(own, r) && DataOk(img, own, r);
      if r != root { assert SameTranslations(img, img', r); }
    }
    forall p | 0 <= p < |own'| && own'[p].Data? ensures IsRoot(own', own'[p].root) {
      assert IsRoot(own, own'[p].root);
    }
  }

  /** Unmapping a page gives its frame up. */
  lemma DropMapping(img: Image, own: Ledger, img': Image, root: nat, vpn: nat, p: nat)
    requires MappingsOk(img, own) && IsRoot(own, root) && vpn < LOWER_PAGES
    requires Translation(img, root, vpn).Some? && Frame(Translation(img, root, vpn).value) == p
    requires Remapped(img, img', root, vpn, None) && OthersSame(img, own, img', root)
    ensures p < |own| && own[p] == Data(root, vpn)
    ensures MappingsOk(img', own[p := Owner.Free])
  {
    assert DataOk(img, own, root);
    var own' := own[p := Owner.Free];
    forall r | IsRoot(own', r) ensures DataOk(img', own', r) {
      assert IsRoot(own, r) && DataOk(img, own, r);
      if r != root { assert SameTranslations(img, img', r); }
    }
    forall q | 0 <= q < |own'| && own'[q].Data? ensures IsRoot(own', own'[q].root) {
      assert IsRoot(own, own'[q].root);
    }
  }

  /** One frame is never mapped twice, in one address space or in two. */
  lemma NoFrameMappedTwice(img: Image, own: Ledger, r: nat, v: nat, r': nat, v': nat)
    requires MappingsOk(img, own) && IsRoot(own, r) && IsRoot(own, r') && v < LOWER_PAGES && v' < LOWER_PAGES
    requires Translation(img, r, v).Some? && Translation(img, r', v').Some?
    requires Frame(Translation(img, r, v).value) == Frame(Translation(img, r', v').value)
    ensures r == r' && v == v'
  {
    assert DataOk(img, own, r) && DataOk(img, own, r');
  }

  /** Overwriting a present leaf with another frame leaves the old frame mapped nowhere: this is
      why the callers of pmap_map must only map pages that are not mapped. */
  lemma OverwriteOrphans(img: Image, own: Ledger, img': Image, root: nat, vpn: nat, w: Word, v: nat)
    requires MappingsOk(img, own) && IsRoot(own, root) && vpn < LOWER_PAGES && v < LOWER_PAGES
    requires Translation(img, root, vpn).Some? && Frame(w) != Frame(Translation(img, root, vpn).value)
    requires Remapped(img, img', root, vpn, Some(w))
    ensures Translation(img', root, v).Some? ==>
              Frame(Translation(img', root, v).value) != Frame(Translation(img, root, vpn).value)
  {
    if v != vpn && Translation(img, root, v).Some?
       && Frame(Translation(img, root, v).value) == Frame(Translation(img, root, vpn).value) {
      NoFrameMappedTwice(img, own, root, vpn, root, v);
    }
  }
}
