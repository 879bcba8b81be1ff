/** lba2chs of limine/limine.c: the CHS fields of a legacy MBR partition record. */
module Chs {
  import opened Words
  import opened Arith

  const SECTORS: nat := 63
  const HEADS: nat := 255
  const CYLINDERS: nat := 1024

  datatype Chs = Chs(head: Byte, high: Byte, low: Byte)

  /** `((cylinder >> 2) & 0xc0) | (sector & 0x3f)`, truncated to a byte. */
  function HighByte(cylinder: nat, sector: nat): Byte
    requires cylinder < CYLINDERS && sector < 64
  {
    cylinder / 256 * 64 + sector
  }

  lemma HighByteBits(cylinder: bv16, sector: bv16)
    requires cylinder < 1024 && sector < 64
    ensures (((cylinder >> 2) & 0xc0) | (sector & 0x3f)) == ((cylinder >> 8) << 6) + sector
  {}

  /** The fields name the sector `lba` of a disk of 1024 cylinders with 255 heads and 63 sectors, or
      its last sector, number 16450559. */
  method Lba2Chs(lba: Word) returns (chs: Chs)
    ensures chs == Encode(lba)
    ensures var cylinder, sector := chs.high / 64 * 256 + chs.low, chs.high % 64;
            && cylinder < 1024 && chs.head < 255 && 1 <= sector <= 63
            && (cylinder * 255 + chs.head) * 63 + sector - 1 == if lba < 16450560 then lba else 16450559
  {
    DecodeEncode(lba);
    if lba > SECTORS * HEADS * CYLINDERS {
      return Chs(0xfe, 0xff, 0xff);
    }
    var cylinder := lba / (HEADS * SECTORS);
    if cylinder >= CYLINDERS {
      return Chs(0xfe, 0xff, 0xff);
    }
    var head := lba / SECTORS % HEADS;
    var sector := lba % SECTORS + 1;
    chs := Chs(head, HighByte(cylinder, sector), cylinder % 256);
  }

  /** The largest sector number the three fields can name. */
  const LAST: nat := CYLINDERS * HEADS * SECTORS - 1

  function Encode(lba: nat): Chs
  {
    var n := if lba <= LAST then lba else LAST;
    Chs(n / SECTORS % HEADS, HighByte(n / (HEADS * SECTORS), n % SECTORS + 1), n / (HEADS * SECTORS) % 256)
  }

  function Cylinder(chs: Chs): nat { chs.high / 64 * 256 + chs.low }
  function Sector(chs: Chs): nat { chs.high % 64 }

  predicate Valid(chs: Chs) { chs.head < HEADS && 1 <= Sector(chs) <= SECTORS }

  /** The sector number three valid fields name. */
  function Decode(chs: Chs): nat
    requires Valid(chs)
  {
    (Cylinder(chs) * HEADS + chs.head) * SECTORS + Sector(chs) - 1
  }

  /** The encoding saturates: decoding gives the sector number back, or the largest one. */
  lemma DecodeEncode(lba: nat)
    ensures Valid(Encode(lba)) && Cylinder(Encode(lba)) < CYLINDERS
    ensures Decode(Encode(lba)) == if lba <= LAST then lba else LAST
  {
    var n := if lba <= LAST then lba else LAST;
    Fields(n);
    HighByteParts(n / (HEADS * SECTORS), n % SECTORS + 1);
  }

  /** The three digits of a sector number. */
  lemma Fields(n: nat)
    requires n <= LAST
    ensures n / (HEADS * SECTORS) < CYLINDERS
    ensures n == (n / (HEADS * SECTORS) * HEADS + n / SECTORS % HEADS) * SECTORS + n % SECTORS
  {
    var s, r := n / SECTORS, n % SECTORS;
    var c, h := s / HEADS, s % HEADS;
    assert n == s * SECTORS + r && s == c * HEADS + h;
    DivIs(n, HEADS * SECTORS, c, h * SECTORS + r);
  }

  lemma HighByteParts(cylinder: nat, sector: nat)
    requires cylinder < CYLINDERS && sector < 64
    ensures HighByte(cylinder, sector) / 64 == cylinder / 256 && HighByte(cylinder, sector) % 64 == sector
    ensures cylinder / 256 * 256 + cylinder % 256 == cylinder
  {
    DivIs(HighByte(cylinder, sector), 64, cylinder / 256, sector);
  }

  /** Every valid triple is the encoding of the sector it names. */
  lemma EncodeDecode(chs: Chs)
    requires Valid(chs)
    ensures Decode(chs) <= LAST && Encode(Decode(chs)) == chs
  {
    var n := Decode(chs);
    assert n / SECTORS == Cylinder(chs) * HEADS + chs.head && n % SECTORS == Sector(chs) - 1;
    assert n / (HEADS * SECTORS) == n / SECTORS / HEADS == Cylinder(chs);
  }
}
