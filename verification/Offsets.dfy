/** The 64-bit offset helpers of limine/limine.c. */
module Offsets {
  import opened Words
  import opened Arith

  /** add_u64_overflow: the wrapped sum, and the overflow test. */
  function Add(a: Word, b: Word): (Word, bool)
  {
    ((a + b) % U64, a > U64 - 1 - b)
  }

  /** mul_u64_overflow: the wrapped product, and the overflow test. */
  function Mul(a: Word, b: Word): (Word, bool)
  {
    (a * b % U64, a != 0 && b > (U64 - 1) / a)
  }

  /** The tests are exact: when they say no, the result is the true sum or product. */
  lemma OverflowIsExact(a: Word, b: Word)
    ensures !Add(a, b).1 <==> Add(a, b).0 == a + b
    ensures !Mul(a, b).1 <==> Mul(a, b).0 == a * b
  {
    Wraps(a + b);
    Wraps(a * b);
    if a != 0 {
      var q := (U64 - 1) / a;
      assert q * a <= U64 - 1 < (q + 1) * a;
      assert a * b == b * a;
      if b <= q { MulMonotone(b, q, a); } else { MulMonotone(q + 1, b, a); }
    }
  }

  lemma Wraps(x: nat)
    ensures x % U64 == x <==> x < U64
  {}

  /** set_pos on a host whose `long` is too short for the offset: seeking in jumps and then by the
      remainder ends at the offset asked for, and no single jump is longer than `long` allows. */
  method SetPos(pos: Word, long_max: nat) returns (at: nat)
    requires long_max > 0
    ensures at == pos
  {
    var jump_size := long_max / 2 + 1;
    var last_jump, jumps := pos % jump_size, pos / jump_size;
    at := 0;
    var i := 0;
    while i < jumps
      invariant 0 <= i <= jumps && at == i * jump_size
    {
      at := Seek(at, jump_size, long_max);
      i := i + 1;
    }
    at := Seek(at, last_jump, long_max);
  }

  /** fseek relative to the current position. */
  method Seek(at: nat, jump: nat, long_max: nat) returns (at': nat)
    requires jump <= long_max
    ensures at' == at + jump
  {
    at' := at + jump;
  }
}
