/** Physical memory: frames of 512 words, seen by every layer through the direct map, and the
    ledger that names the one owner of each frame. */
module PhysMem {
  import opened Words

  const PAGE_SIZE: nat := 4096
  const ZERO_PAGE: seq<Word> := seq(512, _ => 0)
  type Page = p: seq<Word> | |p| == 512 witness ZERO_PAGE
  type Image = seq<Page>

  predicate IsZero(page: Page) { forall i :: 0 <= i < 512 ==> page[i] == 0 }

  /** Who holds a frame.  A page-table tree is named by its PML4 frame `root`; `Table` gives the
      level of a table page (4 = PML4 .. 1 = PT) and the base-512 number of the path leading to it;
      `Kernel` does so for the tables of the kernel, to which the upper half of every PML4 leads;
      `Data` gives the virtual page number at which a frame is mapped. */
  datatype Owner =
    | Reserved
    | Free
    | Held
    | Table(root: nat, level: nat, idx: nat)
    | Kernel(level: nat, idx: nat)
    | Data(root: nat, vpn: nat)
    | ZonePage(zone: nat)

  type Ledger = seq<Owner>

  function WithWord(img: Image, p: nat, i: nat, w: Word): (r: Image)
    requires p < |img| && i < 512
    ensures |r| == |img| && r[p][i] == w
    ensures forall q :: 0 <= q < |img| && q != p ==> r[q] == img[q]
    ensures forall j :: 0 <= j < 512 && j != i ==> r[p][j] == img[p][j]
  {
    img[p := img[p][i := w]]
  }

  /** The RAM frames behind PHYS_TO_VIRT; `hhdm` is the direct-map offset, which does not wrap. */
  class Memory {
    const frame: array<Page>
    const hhdm: Word

    constructor (frame: array<Page>, hhdm: Word)
      ensures this.frame == frame && this.hhdm == hhdm
    {
      this.frame, this.hhdm := frame, hhdm;
    }

    ghost function Image(): Image
      reads frame
    {
      frame[..]
    }

    function Load(p: nat, i: nat): Word
      requires p < frame.Length && i < 512
      reads frame
    {
      frame[p][i]
    }

    method Store(p: nat, i: nat, w: Word)
      requires p < frame.Length && i < 512
      modifies frame
      ensures Image() == WithWord(old(Image()), p, i, w)
    {
      frame[p] := frame[p][i := w];
    }

    /** kmemset(page, c, PMM_PAGE_SIZE) with every byte of `w` equal to `c`. */
    method Fill(p: nat, w: Word)
      requires p < frame.Length
      modifies frame
      ensures Image() == old(Image())[p := seq(512, _ => w)]
    {
      frame[p] := seq(512, _ => w);
    }
  }
}
