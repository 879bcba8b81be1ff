/** 64-bit machine words as natural numbers, and the C bit operators used on them.

    Single-bit operations are defined by structural recursion on the bit index, so every fact
    about them is a short induction.  The masks of hal/x86_64/pmap.h are read as quotients and
    remainders; the `bv64` lemmas at the end of the module justify that reading bit by bit. */
module Words {
  import opened Arith

  const U32: nat := 0x1_0000_0000
  const U64: nat := 0x1_0000_0000_0000_0000
  type Word = w: nat | w < U64
  type Byte = b: nat | b < 256
  type Bytes = seq<Byte>

  datatype Option<+T> = None | Some(value: T)

  function Pow2(k: nat): (r: nat)
    ensures r >= 1
  {
    if k == 0 then 1 else 2 * Pow2(k - 1)
  }

  /** `(w >> b) & 1` */
  predicate TestBit(w: nat, b: nat)
  {
    if b == 0 then w % 2 == 1 else TestBit(w / 2, b - 1)
  }

  /** `w | (1 << b)` */
  function SetBit(w: nat, b: nat): nat
  {
    if b == 0 then w / 2 * 2 + 1 else 2 * SetBit(w / 2, b - 1) + w % 2
  }

  /** `w & ~(1 << b)` */
  function ClearBit(w: nat, b: nat): nat
  {
    if b == 0 then w / 2 * 2 else 2 * ClearBit(w / 2, b - 1) + w % 2
  }

  /** `__builtin_ctzll(~w)`: the index of the lowest clear bit. */
  function LowestClear(w: nat): (b: nat)
    ensures !TestBit(w, b)
    ensures forall c :: 0 <= c < b ==> TestBit(w, c)
  {
    if w % 2 == 0 then 0 else
      var b := 1 + LowestClear(w / 2);
      assert forall c :: 0 < c < b ==> TestBit(w, c) == TestBit(w / 2, c - 1);
      b
  }

  /** Testing bit `b` is looking at the parity of the quotient by its worth. */
  lemma {:induction false} TestBitIs(w: nat, b: nat)
    ensures TestBit(w, b) <==> w / Pow2(b) % 2 == 1
  {
    if b > 0 {
      TestBitIs(w / 2, b - 1);
      HalfFirst(w, Pow2(b - 1));
    }
  }

  lemma HalfFirst(w: nat, p: nat)
    requires p > 0
    ensures w / (2 * p) == w / 2 / p
  {
    var k, s := w / 2 / p, w / 2 % p;
    assert w == k * (2 * p) + (2 * s + w % 2) by { assert w / 2 == k * p + s; }
    DivIs(w, 2 * p, k, 2 * s + w % 2);
  }

  lemma {:induction false} SetBitTest(w: nat, b: nat, c: nat)
    ensures TestBit(SetBit(w, b), c) == (c == b || TestBit(w, c))
  {
    if b > 0 && c > 0 { SetBitTest(w / 2, b - 1, c - 1); }
  }

  lemma {:induction false} ClearBitTest(w: nat, b: nat, c: nat)
    ensures TestBit(ClearBit(w, b), c) == (c != b && TestBit(w, c))
  {
    if b > 0 && c > 0 { ClearBitTest(w / 2, b - 1, c - 1); }
  }

  lemma {:induction false} BitOpsFit(w: nat, b: nat, k: nat)
    requires b < k && w < Pow2(k)
    ensures SetBit(w, b) < Pow2(k) && ClearBit(w, b) < Pow2(k)
  {
    var h := Pow2(k - 1);
    assert Pow2(k) == 2 * h;
    HalfFits(w, h);
    if b > 0 {
      BitOpsFit(w / 2, b - 1, k - 1);
      assert SetBit(w, b) == 2 * SetBit(w / 2, b - 1) + w % 2;
      assert ClearBit(w, b) == 2 * ClearBit(w / 2, b - 1) + w % 2;
    } else {
      assert SetBit(w, b) == w / 2 * 2 + 1 && ClearBit(w, b) == w / 2 * 2;
    }
  }

  lemma HalfFits(w: nat, h: nat)
    requires w < 2 * h
    ensures w / 2 < h && w % 2 < 2
  {}

  /** Only the all-ones word has no clear bit among its low `k`. */
  lemma {:induction false} ClearBitExists(w: nat, k: nat)
    requires w < Pow2(k)
    ensures w < Pow2(k) - 1 ==> LowestClear(w) < k
    ensures w == Pow2(k) - 1 ==> forall b :: 0 <= b < k ==> TestBit(w, b)
  {
    if k > 0 {
      ClearBitExists(w / 2, k - 1);
      forall b | 0 <= b < k && w == Pow2(k) - 1 ensures TestBit(w, b) {
        if b > 0 { assert TestBit(w / 2, b - 1); }
      }
    }
  }

  lemma WordWidth()
    ensures Pow2(64) == U64
  {
    assert Pow2(8) == 256;
    assert Pow2(16) == 256 * Pow2(8);
    assert Pow2(24) == 256 * Pow2(16);
    assert Pow2(32) == 256 * Pow2(24);
    assert Pow2(40) == 256 * Pow2(32);
    assert Pow2(48) == 256 * Pow2(40);
    assert Pow2(56) == 256 * Pow2(48);
    assert Pow2(64) == 256 * Pow2(56);
  }

  // ---- page-table entry fields ---------------------------------------------------------------

  /** `w & PTE_P` */
  predicate Present(w: nat) { w % 2 == 1 }

  /** `w & PTE_PS` */
  predicate Huge(w: nat) { w / 128 % 2 == 1 }

  /** The page number selected by `w & PTE_ADDR_MASK`. */
  function Frame(w: nat): nat { w / 4096 % 0x100_0000_0000 }

  /** A word put together from its low twelve bits, its page number and its high twelve bits. */
  function Join(high: nat, mid: nat, low: nat): (w: Word)
    requires high < 4096 && mid < 0x100_0000_0000 && low < 4096
    ensures w % 4096 == low && Frame(w) == mid && w / 0x10_0000_0000_0000 == high
  {
    var q := high * 0x100_0000_0000 + mid;
    assert q % 0x100_0000_0000 == mid && q / 0x100_0000_0000 == high;
    var w := q * 4096 + low;
    assert w / 4096 == q && w % 4096 == low;
    assert w / 0x10_0000_0000_0000 == high;
    w
  }

  /** The low twelve bits of `flags | PTE_P`. */
  function PresentLow(flags: nat): (low: nat)
    ensures low < 4096 && low % 2 == 1 && low == flags % 4096 - flags % 2 + 1
  {
    LowParity(flags);
    flags % 4096 - flags % 2 + 1
  }

  lemma LowParity(w: nat)
    ensures w % 4096 % 2 == w % 2
  {
    assert w == 2 * (2048 * (w / 4096)) + w % 4096;
  }

  lemma HighField(w: Word)
    ensures w / 0x10_0000_0000_0000 < 4096
  {}

  /** The word `(paddr & PTE_ADDR_MASK) | (flags & ~PTE_ADDR_MASK) | PTE_P`. */
  function EntryWord(paddr: Word, flags: Word): (w: Word)
    ensures Present(w) && Frame(w) == Frame(paddr)
    ensures w / 0x10_0000_0000_0000 == flags / 0x10_0000_0000_0000
    ensures w % 4096 == flags % 4096 - flags % 2 + 1
  {
    HighField(flags);
    var low := PresentLow(flags);
    var w := Join(flags / 0x10_0000_0000_0000, Frame(paddr), low);
    LowParity(w);
    w
  }

  // ---- the same fields read off the bits -----------------------------------------------------

  const PTE_ADDR_MASK: bv64 := 0x000f_ffff_ffff_f000

  /** Masking with PTE_ADDR_MASK is taking the 40-bit page number times the page size. */
  lemma AddrMaskIsFrame(w: bv64)
    ensures w & PTE_ADDR_MASK == ((w / 4096) % 0x100_0000_0000) * 4096
    ensures w & 1 == w % 2
  {}

  /** The entry pmap_map writes has exactly the fields `EntryWord` is specified by. */
  lemma EntryBits(paddr: bv64, flags: bv64)
    ensures var w := (paddr & PTE_ADDR_MASK) | (flags & !PTE_ADDR_MASK) | 1;
            && w % 2 == 1
            && (w / 4096) % 0x100_0000_0000 == (paddr / 4096) % 0x100_0000_0000
            && w / 0x10_0000_0000_0000 == flags / 0x10_0000_0000_0000
            && w % 4096 == flags % 4096 - flags % 2 + 1
  {}

  /** The flag bits by number: P, W, U and PS are worth 1, 2, 4 and 128, NX is the top bit. */
  lemma FlagBits(w: bv64)
    ensures (w & (1 << 0) != 0) <==> w % 2 == 1
    ensures (w & (1 << 1) != 0) <==> w / 2 % 2 == 1
    ensures (w & (1 << 2) != 0) <==> w / 4 % 2 == 1
    ensures (w & (1 << 7) != 0) <==> w / 128 % 2 == 1
    ensures (w & (1 << 63) != 0) <==> w / 0x8000_0000_0000_0000 == 1
  {}

  /** Linking a table: `pa | PTE_P | PTE_W | PTE_U` adds seven to a page-aligned address. */
  lemma LinkBits(pa: bv64)
    requires pa % 4096 == 0
    ensures pa | 1 | 2 | 4 == pa + 7
  {}

  /** The four index macros are base-512 digits of the page number. */
  lemma IndexBits(va: bv64)
    ensures (va >> 39) & 0x1ff == (va / 4096) / 0x800_0000 % 512
    ensures (va >> 30) & 0x1ff == (va / 4096) / 0x4_0000 % 512
    ensures (va >> 21) & 0x1ff == (va / 4096) / 0x200 % 512
    ensures (va >> 12) & 0x1ff == (va / 4096) % 512
  {}
}
