/** The entry list of vm/vm_map.c: entries, their order, and the circular doubly-linked ring. */
module VmList {
  import opened Words
  import opened Zalloc

  const LOWER_END: nat := 0x8000_0000_0000   // first address above the lower half

  predicate Writable(prot: nat) { prot / 2 % 2 == 1 }

  predicate Executable(prot: nat) { prot / 4 % 2 == 1 }

  predicate Wired(flags: nat) { flags % 2 == 1 }

  /** prot_to_pte: PTE_W when writable, PTE_NX when not executable. */
  function ProtToPte(prot: nat): Word
  {
    (if Writable(prot) then 2 else 0) + (if Executable(prot) then 0 else 0x8000_0000_0000_0000)
  }

  /** The contents of an entry, as the list is seen from outside. */
  datatype Info = Info(start: Word, end: Word, prot: nat, maxProt: nat, flags: nat)
  {
    predicate Covers(addr: nat) { start <= addr < end }
    predicate Overlaps(lo: nat, hi: nat) { lo < end && hi > start }
  }

  /** vm_map_entry; `slot` is the address of the zone element that holds it. */
  class Entry {
    const start: Word
    const end: Word
    const prot: nat
    const max_prot: nat
    const flags: nat
    const slot: nat
    var prev: Entry?
    var next: Entry?

    constructor (start: Word, end: Word, prot: nat, max_prot: nat, flags: nat, slot: nat)
      ensures this.start == start && this.end == end && this.prot == prot
      ensures this.max_prot == max_prot && this.flags == flags && this.slot == slot
    {
      this.start, this.end, this.prot, this.max_prot, this.flags, this.slot := start, end, prot, max_prot, flags, slot;
      prev, next := null, null;
    }

    function Contents(): Info { Info(start, end, prot, max_prot, flags) }
  }

  function Infos(nodes: seq<Entry>): (r: seq<Info>)
    ensures |r| == |nodes| && forall i :: 0 <= i < |nodes| ==> r[i] == nodes[i].Contents()
  {
    seq(|nodes|, i requires 0 <= i < |nodes| => nodes[i].Contents())
  }

  /** Entries are non-empty, inside the map, in order and do not overlap. */
  ghost predicate Sorted(infos: seq<Info>, lo: nat, hi: nat)
  {
    && (forall i :: 0 <= i < |infos| ==> lo <= infos[i].start < infos[i].end <= hi)
    && (forall i, j :: 0 <= i < j < |infos| ==> infos[i].end <= infos[j].start)
  }

  ghost predicate PageAligned(infos: seq<Info>)
  {
    forall i :: 0 <= i < |infos| ==> infos[i].start % 4096 == 0 && infos[i].end % 4096 == 0
  }

  ghost predicate CoveredBy(infos: seq<Info>, vpn: nat)
  {
    exists i :: 0 <= i < |infos| && infos[i].Covers(vpn * 4096)
  }

  function Elements(nodes: seq<Entry>): set<Entry> { set n | n in nodes }

  /** The list nodes in order, with the header before and after them. */
  function NodeAt(header: Entry, nodes: seq<Entry>, i: nat): Entry
  {
    if 1 <= i <= |nodes| then nodes[i - 1] else header
  }

  ghost predicate Ring(header: Entry, nodes: seq<Entry>)
    reads header, nodes
  {
    && header !in nodes
    && (forall i, j :: 0 <= i < j < |nodes| ==> nodes[i] != nodes[j])
    && (forall i {:trigger NodeAt(header, nodes, i)} :: 0 <= i <= |nodes| ==>
          && NodeAt(header, nodes, i).next == NodeAt(header, nodes, i + 1)
          && NodeAt(header, nodes, i + 1).prev == NodeAt(header, nodes, i))
  }

  lemma InsertedAt(header: Entry, nodes: seq<Entry>, k: nat, ne: Entry)
    requires k <= |nodes| && ne != header && ne !in nodes
    ensures forall i :: 0 <= i <= |nodes| + 2 ==>
              NodeAt(header, nodes[..k] + [ne] + nodes[k..], i) ==
              if i <= k then NodeAt(header, nodes, i) else if i == k + 1 then ne else NodeAt(header, nodes, i - 1)
  {}

  lemma InsertKeepsDistinct(header: Entry, nodes: seq<Entry>, k: nat, ne: Entry)
    requires k <= |nodes| && ne != header && ne !in nodes && header !in nodes
    requires forall i, j :: 0 <= i < j < |nodes| ==> nodes[i] != nodes[j]
    ensures var nodes' := nodes[..k] + [ne] + nodes[k..];
            header !in nodes' && forall i, j :: 0 <= i < j < |nodes'| ==> nodes'[i] != nodes'[j]
  {}

  /** Splicing a node in after position `k` of the ring. */
  method ListInsertAfter(header: Entry, ghost nodes: seq<Entry>, ghost k: nat, pos: Entry, ne: Entry)
    returns (ghost nodes': seq<Entry>)
    requires Ring(header, nodes) && k <= |nodes| && pos == NodeAt(header, nodes, k)
    requires ne != header && ne !in nodes
    modifies header, Elements(nodes), ne
    ensures nodes' == nodes[..k] + [ne] + nodes[k..] && Ring(header, nodes')
  {
    assert pos.next == NodeAt(header, nodes, k + 1);
    InsertedAt(header, nodes, k, ne);
    InsertKeepsDistinct(header, nodes, k, ne);
    ne.prev := pos;
    ne.next := pos.next;
    pos.next.prev := ne;
    pos.next := ne;
    nodes' := nodes[..k] + [ne] + nodes[k..];
    hide NodeAt;
    forall i | 0 <= i <= |nodes'|
      ensures NodeAt(header, nodes', i).next == NodeAt(header, nodes', i + 1)
      ensures NodeAt(header, nodes', i + 1).prev == NodeAt(header, nodes', i)
    {
      if i < k {
        assert old(NodeAt(header, nodes, i).next) == NodeAt(header, nodes, i + 1);
        RingDiffers(header, nodes, i, k);
      } else if i > k + 1 {
        assert old(NodeAt(header, nodes, i - 1).next) == NodeAt(header, nodes, i);
        RingDiffers(header, nodes, i - 1, k);
      }
    }
  }

  /** Positions 0..|nodes| of the ring are pairwise different nodes, as are 1..|nodes|+1. */
  lemma RingDiffers(header: Entry, nodes: seq<Entry>, i: nat, k: nat)
    requires header !in nodes && i <= |nodes| && k <= |nodes| && i != k
    requires forall i, j :: 0 <= i < j < |nodes| ==> nodes[i] != nodes[j]
    ensures NodeAt(header, nodes, i) != NodeAt(header, nodes, k)
    ensures NodeAt(header, nodes, i + 1) != NodeAt(header, nodes, k + 1)
  {}

  lemma RemovedAt(header: Entry, nodes: seq<Entry>, k: nat)
    requires k < |nodes|
    ensures forall i :: 0 <= i <= |nodes| ==>
              NodeAt(header, nodes[..k] + nodes[k + 1..], i) ==
              if i <= k then NodeAt(header, nodes, i) else NodeAt(header, nodes, i + 1)
  {
    var nodes' := nodes[..k] + nodes[k + 1..];
    forall i | 0 <= i <= |nodes|
      ensures NodeAt(header, nodes', i) == if i <= k then NodeAt(header, nodes, i) else NodeAt(header, nodes, i + 1)
    {
      if 1 <= i <= |nodes'| { assert nodes'[i - 1] == if i <= k then nodes[i - 1] else nodes[i]; }
    }
  }

  lemma RemoveKeepsDistinct(header: Entry, nodes: seq<Entry>, k: nat)
    requires k < |nodes| && header !in nodes
    requires forall i, j :: 0 <= i < j < |nodes| ==> nodes[i] != nodes[j]
    ensures var nodes' := nodes[..k] + nodes[k + 1..];
            header !in nodes' && forall i, j :: 0 <= i < j < |nodes'| ==> nodes'[i] != nodes'[j]
  {}

  /** Unlinking the node at index `k`. */
  method ListRemove(header: Entry, ghost nodes: seq<Entry>, ghost k: nat, e: Entry)
    returns (ghost nodes': seq<Entry>)
    requires Ring(header, nodes) && k < |nodes| && e == nodes[k]
    modifies header, Elements(nodes)
    ensures nodes' == nodes[..k] + nodes[k + 1..] && Ring(header, nodes')
    ensures e.next == old(e.next)
  {
    assert e == NodeAt(header, nodes, k + 1);
    assert NodeAt(header, nodes, k).next == e && NodeAt(header, nodes, k + 2).prev == e;
    RemovedAt(header, nodes, k);
    RemoveKeepsDistinct(header, nodes, k);
    RingDiffers(header, nodes, k, k + 1);
    e.prev.next := e.next;
    e.next.prev := e.prev;
    nodes' := nodes[..k] + nodes[k + 1..];
    hide NodeAt;
    forall i | 0 <= i <= |nodes'|
      ensures NodeAt(header, nodes', i).next == NodeAt(header, nodes', i + 1)
      ensures NodeAt(header, nodes', i + 1).prev == NodeAt(header, nodes', i)
    {
      if i < k {
        assert old(NodeAt(header, nodes, i).next) == NodeAt(header, nodes, i + 1);
        RingDiffers(header, nodes, i, k);
        RingDiffers(header, nodes, i, k + 1);
      } else if i > k {
        assert old(NodeAt(header, nodes, i + 1).next) == NodeAt(header, nodes, i + 2);
        RingDiffers(header, nodes, i + 1, k);
        RingDiffers(header, nodes, i + 1, k + 1);
      }
    }
  }

  // ---- overlap, in terms of addresses ----------------------------------------------------------

  predicate Inside(addr: nat, lo: nat, hi: nat) { lo <= addr < hi }

  /** Some address lies in both ranges. */
  ghost predicate Share(lo: nat, hi: nat, lo': nat, hi': nat)
  {
    exists a: nat :: Inside(a, lo, hi) && Inside(a, lo', hi')
  }

  lemma OverlapIsSharing(e: Info, lo: nat, hi: nat)
    requires e.start < e.end && lo < hi
    ensures e.Overlaps(lo, hi) <==> Share(e.start, e.end, lo, hi)
  {
    if e.Overlaps(lo, hi) {
      var a: nat := if e.start < lo then lo else e.start;
      assert Inside(a, e.start, e.end) && Inside(a, lo, hi);
    }
  }

  /** Some entry shares an address with [lo, hi). */
  ghost predicate Taken(infos: seq<Info>, lo: nat, hi: nat)
  {
    exists i :: 0 <= i < |infos| && Share(infos[i].start, infos[i].end, lo, hi)
  }

  lemma OverlappingIsTaken(infos: seq<Info>, from: nat, to: nat, lo: nat, hi: nat)
    requires Sorted(infos, from, to) && lo < hi
    ensures Overlapping(infos, lo, hi) <==> Taken(infos, lo, hi)
  {
    forall i | 0 <= i < |infos| ensures infos[i].Overlaps(lo, hi) <==> Share(infos[i].start, infos[i].end, lo, hi) {
      OverlapIsSharing(infos[i], lo, hi);
    }
  }

  /** Which entries vm_map_remove drops: for a range that is not empty, those that share an address with it;
      an empty range inside an entry drops that entry too. */
  lemma DroppedNodes(nodes: seq<Entry>, from: nat, to: nat, lo: nat, hi: nat)
    requires Sorted(Infos(nodes), from, to)
    ensures forall e :: e in nodes ==> (e !in KeepNodes(nodes, lo, hi) <==> lo < e.end && e.start < hi)
    ensures lo < hi ==> forall e :: e in nodes ==> (e !in KeepNodes(nodes, lo, hi) <==> Share(e.start, e.end, lo, hi))
  {
    KeepNodesSpec(nodes, lo, hi);
    if lo < hi {
      forall e | e in nodes ensures e !in KeepNodes(nodes, lo, hi) <==> Share(e.start, e.end, lo, hi) {
        var i :| 0 <= i < |nodes| && nodes[i] == e;
        assert Infos(nodes)[i] == e.Contents();
        OverlapIsSharing(e.Contents(), lo, hi);
      }
    }
  }

  // ---- vm_map_remove, as a function of the list ----------------------------------------------

  /** The nodes that do not overlap [lo, hi), in order. */
  ghost function KeepNodes(nodes: seq<Entry>, lo: nat, hi: nat): seq<Entry>
  {
    if nodes == [] then []
    else KeepNodes(nodes[..|nodes| - 1], lo, hi)
         + (if nodes[|nodes| - 1].Contents().Overlaps(lo, hi) then [] else [nodes[|nodes| - 1]])
  }

  /** The kept nodes are exactly the old ones that do not overlap, each once and in order. */
  lemma {:induction false} KeepNodesSpec(nodes: seq<Entry>, lo: nat, hi: nat)
    ensures forall e :: e in KeepNodes(nodes, lo, hi) ==> e in nodes && !e.Contents().Overlaps(lo, hi)
    ensures forall e :: e in nodes && !e.Contents().Overlaps(lo, hi) ==> e in KeepNodes(nodes, lo, hi)
    ensures (forall e :: e in nodes ==> !e.Contents().Overlaps(lo, hi)) ==> KeepNodes(nodes, lo, hi) == nodes
  {
    if nodes != [] {
      KeepNodesSpec(nodes[..|nodes| - 1], lo, hi);
      assert nodes == nodes[..|nodes| - 1] + [nodes[|nodes| - 1]];
    }
  }

  lemma {:induction false} KeepNodesConcat(a: seq<Entry>, b: seq<Entry>, lo: nat, hi: nat)
    ensures KeepNodes(a + b, lo, hi) == KeepNodes(a, lo, hi) + KeepNodes(b, lo, hi)
  {
    if b == [] {
      assert a + b == a;
    } else {
      KeepNodesConcat(a, b[..|b| - 1], lo, hi);
      assert (a + b)[..|a + b| - 1] == a + b[..|b| - 1];
    }
  }

  /** The entries' zone elements are live and pairwise different. */
  ghost predicate SlotsLive(nodes: seq<Entry>, hhdm: nat, live: set<nat>)
  {
    && (forall e :: e in nodes ==> LiveElement(hhdm, live, e.slot))
    && (forall i, j :: 0 <= i < j < |nodes| ==> nodes[i].slot != nodes[j].slot)
  }

  /** The zone slots the entries sit in. */
  ghost function SlotSet(nodes: seq<Entry>, hhdm: nat): set<nat>
  {
    set e | e in nodes && e.slot >= hhdm :: (e.slot - hhdm) / 8
  }

  lemma SlotsStillLive(nodes: seq<Entry>, hhdm: nat, live: set<nat>, live': set<nat>)
    requires SlotsLive(nodes, hhdm, live) && SlotSet(nodes, hhdm) <= live'
    ensures SlotsLive(nodes, hhdm, live')
  {
    forall e | e in nodes ensures LiveElement(hhdm, live', e.slot) {
      assert LiveElement(hhdm, live, e.slot);
      assert (e.slot - hhdm) / 8 in SlotSet(nodes, hhdm);
    }
  }

  /** Two elements at different addresses sit in different slots. */
  lemma OtherSlot(hhdm: nat, live: set<nat>, a: nat, b: nat)
    requires LiveElement(hhdm, live, a) && LiveElement(hhdm, live, b)
    ensures a >= hhdm && b >= hhdm
    ensures a != b ==> (a - hhdm) / 8 != (b - hhdm) / 8 && LiveElement(hhdm, live - {(b - hhdm) / 8}, a)
  {}

  /** The nodes without the k-th. */
  lemma NodesWithout(nodes: seq<Entry>, k: nat)
    requires k < |nodes|
    ensures var nodes' := nodes[..k] + nodes[k + 1..];
            && (forall i :: 0 <= i < |nodes'| ==> nodes'[i] == nodes[if i < k then i else i + 1])
            && (forall e :: e in nodes <==> e == nodes[k] || e in nodes')
  {
    var nodes' := nodes[..k] + nodes[k + 1..];
    forall e | e in nodes ensures e == nodes[k] || e in nodes' {
      var i :| 0 <= i < |nodes| && nodes[i] == e;
      if i != k { assert nodes'[if i < k then i else i - 1] == e; }
    }
  }

  lemma SlotsWithout(nodes: seq<Entry>, hhdm: nat, live: set<nat>, k: nat)
    requires SlotsLive(nodes, hhdm, live) && k < |nodes|
    ensures LiveElement(hhdm, live, nodes[k].slot)
    ensures SlotsLive(nodes[..k] + nodes[k + 1..], hhdm, live - {(nodes[k].slot - hhdm) / 8})
    ensures SlotSet(nodes[..k] + nodes[k + 1..], hhdm) == SlotSet(nodes, hhdm) - {(nodes[k].slot - hhdm) / 8}
    ensures (nodes[k].slot - hhdm) / 8 in SlotSet(nodes, hhdm)
  {
    hide LiveElement;
    var nodes' := nodes[..k] + nodes[k + 1..];
    NodesWithout(nodes, k);
    OtherSlot(hhdm, live, nodes[k].slot, nodes[k].slot);
    forall e | e in nodes'
      ensures e.slot >= hhdm && (e.slot - hhdm) / 8 != (nodes[k].slot - hhdm) / 8
      ensures LiveElement(hhdm, live - {(nodes[k].slot - hhdm) / 8}, e.slot)
    {
      var i :| 0 <= i < |nodes'| && nodes'[i] == e;
      assert e == nodes[if i < k then i else i + 1];
      OtherSlot(hhdm, live, e.slot, nodes[k].slot);
    }
  }

  /** Dropping a node keeps the list sorted and aligned. */
  lemma WithoutNode(nodes: seq<Entry>, k: nat, lo: nat, hi: nat)
    requires k < |nodes| && Sorted(Infos(nodes), lo, hi) && PageAligned(Infos(nodes))
    ensures Sorted(Infos(nodes[..k] + nodes[k + 1..]), lo, hi) && PageAligned(Infos(nodes[..k] + nodes[k + 1..]))
    ensures (|nodes| % U32 + U32 - 1) % U32 == |nodes[..k] + nodes[k + 1..]| % U32
  {
    var nodes' := nodes[..k] + nodes[k + 1..];
    forall i | 0 <= i < |nodes'| ensures nodes'[i] == nodes[if i < k then i else i + 1] {}
  }

  lemma OneMore(all: seq<Entry>, i: nat, lo: nat, hi: nat)
    requires i < |all|
    ensures all[i..] == [all[i]] + all[i + 1..] && all[..i + 1] == all[..i] + [all[i]]
    ensures Infos(all[..i + 1]) == Infos(all[..i]) + [all[i].Contents()]
    ensures KeepNodes(all[..i + 1], lo, hi) ==
            KeepNodes(all[..i], lo, hi) + (if all[i].Contents().Overlaps(lo, hi) then [] else [all[i]])
  {
    assert all[..i + 1][..i] == all[..i];
  }

  /** One turn of the removal loop, on the list alone. */
  lemma KeepStep(all: seq<Entry>, i: nat, nodes: seq<Entry>, lo: nat, hi: nat)
    requires i < |all| && nodes == KeepNodes(all[..i], lo, hi) + all[i..]
    ensures var k := |KeepNodes(all[..i], lo, hi)|;
            && k < |nodes| && nodes[k] == all[i]
            && (if all[i].Contents().Overlaps(lo, hi)
                then nodes[..k] + nodes[k + 1..] == KeepNodes(all[..i + 1], lo, hi) + all[i + 1..]
                     && |KeepNodes(all[..i + 1], lo, hi)| == k
                else nodes == KeepNodes(all[..i + 1], lo, hi) + all[i + 1..]
                     && |KeepNodes(all[..i + 1], lo, hi)| == k + 1)
  {
    OneMore(all, i, lo, hi);
  }

  lemma StillCovered(all: seq<Entry>, lo: nat, hi: nat, i: nat, vpn: nat)
    requires i < |all| && all[i].Contents().Covers(vpn * 4096) && !all[i].Contents().Overlaps(lo, hi)
    ensures CoveredBy(Infos(KeepNodes(all, lo, hi)), vpn)
  {
    KeepNodesSpec(all, lo, hi);
    assert all[i] in KeepNodes(all, lo, hi);
    var j :| 0 <= j < |KeepNodes(all, lo, hi)| && KeepNodes(all, lo, hi)[j] == all[i];
    assert Infos(KeepNodes(all, lo, hi))[j].Covers(vpn * 4096);
  }

  lemma NoLongerCovered(all: seq<Entry>, lo: nat, hi: nat, i: nat, vpn: nat)
    requires Sorted(Infos(all), 0, U64)
    requires i < |all| && all[i].Contents().Covers(vpn * 4096) && all[i].Contents().Overlaps(lo, hi)
    ensures !CoveredBy(Infos(KeepNodes(all, lo, hi)), vpn)
  {
    hide KeepNodes;
    var kept := KeepNodes(all, lo, hi);
    KeepNodesSpec(all, lo, hi);
    forall j | 0 <= j < |kept| ensures !Infos(kept)[j].Covers(vpn * 4096) {
      assert kept[j] in kept && kept[j] in all;
      var m :| 0 <= m < |all| && all[m] == kept[j];
      assert Infos(all)[m] == kept[j].Contents() && Infos(all)[i] == all[i].Contents();
    }
  }

  ghost predicate Overlapping(infos: seq<Info>, lo: nat, hi: nat)
  {
    exists i :: 0 <= i < |infos| && infos[i].Overlaps(lo, hi)
  }

  /** A 64-bit sum that did not come out below its operand did not wrap. */
  lemma EndIsSum(start: Word, size: Word)
    requires size != 0 && start % 4096 == 0 && size % 4096 == 0 && (start + size) % U64 >= start
    ensures (start + size) % U64 == start + size && start + size > start && (start + size) % 4096 == 0
  {}

  lemma SortedWithin(infos: seq<Info>, lo: nat, hi: Word)
    requires Sorted(infos, lo, hi)
    ensures Sorted(infos, 0, U64)
  {}

  lemma RingEnds(header: Entry, nodes: seq<Entry>)
    requires Ring(header, nodes)
    ensures header.next == NodeAt(header, nodes, 1)
    ensures NodeAt(header, nodes, 0) == header
    ensures forall i {:trigger NodeAt(header, nodes, i)} :: 1 <= i <= |nodes| ==>
              NodeAt(header, nodes, i) == nodes[i - 1] && NodeAt(header, nodes, i) != header
    ensures NodeAt(header, nodes, |nodes| + 1) == header
  {
    assert NodeAt(header, nodes, 0).next == NodeAt(header, nodes, 1);
  }

  lemma SortedInsert(infos: seq<Info>, k: nat, x: Info, lo: nat, hi: nat)
    requires k <= |infos| && Sorted(infos, lo, hi) && lo <= x.start < x.end <= hi
    requires forall i :: 0 <= i < k ==> infos[i].end <= x.start
    requires forall i :: k <= i < |infos| ==> x.end <= infos[i].start
    ensures Sorted(infos[..k] + [x] + infos[k..], lo, hi)
  {}

  lemma AlignedInsert(infos: seq<Info>, k: nat, x: Info)
    requires k <= |infos| && PageAligned(infos) && x.start % 4096 == 0 && x.end % 4096 == 0
    ensures PageAligned(infos[..k] + [x] + infos[k..])
  {}

  lemma InfosInsert(nodes: seq<Entry>, k: nat, ne: Entry)
    requires k <= |nodes|
    ensures Infos(nodes[..k] + [ne] + nodes[k..]) == Infos(nodes)[..k] + [ne.Contents()] + Infos(nodes)[k..]
  {}

  /** An entry that does not overlap the new range lies on one side of it, by its start. */
  lemma Sides(infos: seq<Info>, k: nat, x: Info, lo: nat, hi: nat)
    requires k <= |infos| && Sorted(infos, lo, hi) && x.start < x.end
    requires forall i :: 0 <= i < |infos| ==> !infos[i].Overlaps(x.start, x.end)
    requires forall i :: 0 <= i < k ==> infos[i].start < x.start
    requires k < |infos| ==> infos[k].start >= x.start
    ensures forall i :: 0 <= i < k ==> infos[i].end <= x.start
    ensures forall i :: k <= i < |infos| ==> x.end <= infos[i].start
  {
    forall i | k <= i < |infos| ensures x.end <= infos[i].start {
      if k < i { assert infos[k].end <= infos[i].start && infos[k].start < infos[k].end; }
    }
  }

  /** Adding a range that overlaps no entry at its place in the order. */
  lemma WithNode(nodes: seq<Entry>, k: nat, ne: Entry, lo: nat, hi: nat)
    requires k <= |nodes| && Sorted(Infos(nodes), lo, hi) && PageAligned(Infos(nodes))
    requires lo <= ne.start < ne.end <= hi && ne.start % 4096 == 0 && ne.end % 4096 == 0
    requires forall i :: 0 <= i < |nodes| ==> !nodes[i].Contents().Overlaps(ne.start, ne.end)
    requires forall i :: 0 <= i < k ==> nodes[i].start < ne.start
    requires k < |nodes| ==> nodes[k].start >= ne.start
    ensures Sorted(Infos(nodes[..k] + [ne] + nodes[k..]), lo, hi)
    ensures PageAligned(Infos(nodes[..k] + [ne] + nodes[k..]))
    ensures (|nodes| % U32 + 1) % U32 == |nodes[..k] + [ne] + nodes[k..]| % U32
  {
    hide Sorted, PageAligned;
    InfosInsert(nodes, k, ne);
    Sides(Infos(nodes), k, ne.Contents(), lo, hi);
    SortedInsert(Infos(nodes), k, ne.Contents(), lo, hi);
    AlignedInsert(Infos(nodes), k, ne.Contents());
  }

  lemma SlotsWith(nodes: seq<Entry>, hhdm: nat, live: set<nat>, k: nat, ne: Entry, a: nat)
    requires SlotsLive(nodes, hhdm, live) && k <= |nodes|
    requires a !in live && LiveElement(hhdm, live + {a}, ne.slot) && (ne.slot - hhdm) / 8 == a
    ensures SlotsLive(nodes[..k] + [ne] + nodes[k..], hhdm, live + {a})
    ensures SlotSet(nodes[..k] + [ne] + nodes[k..], hhdm) == SlotSet(nodes, hhdm) + {a}
  {
    var nodes' := nodes[..k] + [ne] + nodes[k..];
    assert ne == nodes'[k];
    forall e ensures e in nodes' <==> e in nodes || e == ne {}
    forall i | 0 <= i < |nodes'|
      ensures nodes'[i] == if i < k then nodes[i] else if i == k then ne else nodes[i - 1]
    {}
    forall e | e in nodes' ensures LiveElement(hhdm, live + {a}, e.slot) {
      if e != ne { assert e in nodes; }
    }
    forall e | e in nodes ensures e.slot != ne.slot {
      assert LiveElement(hhdm, live, e.slot);
    }
  }

  /** Removing exactly the range of a just inserted entry gives the old list back. */
  lemma InsertThenKeep(nodes: seq<Entry>, k: nat, ne: Entry)
    requires k <= |nodes| && ne.start < ne.end
    requires forall i :: 0 <= i < |nodes| ==> !nodes[i].Contents().Overlaps(ne.start, ne.end)
    ensures KeepNodes(nodes[..k] + [ne] + nodes[k..], ne.start, ne.end) == nodes
  {
    var lo, hi := ne.start as nat, ne.end as nat;
    var front, back := nodes[..k], nodes[k..];
    KeepAll(front, lo, hi);
    KeepAll(back, lo, hi);
    KeepNone(ne);
    KeepNodesConcat(front + [ne], back, lo, hi);
    KeepNodesConcat(front, [ne], lo, hi);
    assert front + [] + back == nodes;
  }

  lemma KeepAll(nodes: seq<Entry>, lo: nat, hi: nat)
    requires forall i :: 0 <= i < |nodes| ==> !nodes[i].Contents().Overlaps(lo, hi)
    ensures KeepNodes(nodes, lo, hi) == nodes
  {
    KeepNodesSpec(nodes, lo, hi);
  }

  lemma KeepNone(ne: Entry)
    requires ne.start < ne.end
    ensures KeepNodes([ne], ne.start, ne.end) == []
  {
    assert [ne][..0] == [];
  }

  /** Among the entries after an insertion only the new one overlaps its own range. */
  lemma OnlyNewOverlaps(nodes: seq<Entry>, k: nat, ne: Entry)
    requires k <= |nodes| && ne.start < ne.end
    requires forall i :: 0 <= i < |nodes| ==> !nodes[i].Contents().Overlaps(ne.start, ne.end)
    ensures var infos := Infos(nodes[..k] + [ne] + nodes[k..]);
            && k < |infos| && infos[k] == ne.Contents()
            && forall i :: 0 <= i < |infos| && i != k ==> !infos[i].Overlaps(ne.start, ne.end)
  {
    InfosInsert(nodes, k, ne);
  }
}
