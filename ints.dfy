/**
 * Fixed-width integers of the Swift runtime, and the few bit operations the
 * binary writer uses, written out on unbounded naturals.
 */
module Ints {

  type uint8 = x: int | 0 <= x < 0x100
  type uint32 = x: int | 0 <= x < 0x1_0000_0000
  type uint64 = x: int | 0 <= x < 0x1_0000_0000_0000_0000
  /** Swift's `Int64`; it also holds every `Int`, which is 32 or 64 bits wide. */
  type int64 = x: int | -0x8000_0000_0000_0000 <= x < 0x8000_0000_0000_0000

  const UINT64_MAX: uint64 := 0xFFFF_FFFF_FFFF_FFFF
  const INT64_MAX: int64 := 0x7FFF_FFFF_FFFF_FFFF

  /** `v >> bits` on an unsigned value: drop the low bit `bits` times. */
  function Shr(v: nat, bits: nat): (r: nat)
    ensures r <= v
  {
    if bits == 0 then v else Shr(v / 2, bits - 1)
  }

  /** Shifting by `a + b` is shifting by `a` and then by `b`. */
  lemma {:induction false} ShrAdd(v: nat, a: nat, b: nat)
    ensures Shr(Shr(v, a), b) == Shr(v, a + b)
  {
    if a != 0 {
      ShrAdd(v / 2, a - 1, b);
    }
  }

  /** `v >> bits` is division by 2^bits, rounding down. */
  lemma {:induction false} ShrIsDivision(v: nat, bits: nat)
    ensures Shr(v, bits) == v / Pow2(bits)
  {
    if bits != 0 {
      ShrIsDivision(v / 2, bits - 1);
      HalveThenDivide(v, Pow2(bits - 1));
    }
  }

  lemma HalveThenDivide(v: nat, m: nat)
    requires m >= 1
    ensures v / 2 / m == v / (2 * m)
  {
    var q, r := v / (2 * m), v % (2 * m);
    var mq := m * q;
    assert v == 2 * mq + r by {
      assert 2 * m * q == 2 * mq;
    }
    var h := r / 2;
    assert r == 2 * h + r % 2;
    assert v == 2 * (mq + h) + r % 2;
    DivUnique(v, 2, mq + h, r % 2);
    assert h < m;
    DivUnique(mq + h, m, q, h);
  }

  /** The quotient is the one `q` with `v == d * q + r` and `0 <= r < d`. */
  lemma DivUnique(v: nat, d: nat, q: nat, r: nat)
    requires 0 <= r < d && v == d * q + r
    ensures v / d == q
  {
    var k: int := v / d - q;
    assert d * k == r - v % d;
    MulAwayFromZero(d, k);
  }

  lemma MulAwayFromZero(d: nat, k: int)
    ensures k >= 1 ==> d * k >= d
    ensures k <= -1 ==> d * k + d <= 0
  {
    if k >= 1 {
      assert d * k == d + d * (k - 1);
    } else if k <= -1 {
      assert d * k == d * (k + 1) - d;
    }
  }

  lemma ShrSeven(v: nat)
    ensures Shr(v, 7) == v / 0x80
  {
    calc {
      Shr(v, 7);
      Shr(v / 2, 6);
      Shr(v / 2 / 2, 5);
      Shr(v / 2 / 2 / 2, 4);
      Shr(v / 2 / 2 / 2 / 2, 3);
      Shr(v / 2 / 2 / 2 / 2 / 2, 2);
      Shr(v / 2 / 2 / 2 / 2 / 2 / 2, 1);
      v / 2 / 2 / 2 / 2 / 2 / 2 / 2;
    }
  }

  lemma ShrEight(v: nat)
    ensures Shr(v, 8) == v / 0x100
  {
    ShrSeven(v);
    ShrAdd(v, 7, 1);
  }

  /** 2 to the power `k`. */
  function Pow2(k: nat): (r: nat)
    ensures r >= 1
  {
    if k == 0 then 1 else 2 * Pow2(k - 1)
  }

  lemma {:induction false} Pow2Add(a: nat, b: nat)
    ensures Pow2(a + b) == Pow2(a) * Pow2(b)
  {
    if a != 0 {
      Pow2Add(a - 1, b);
      calc {
        Pow2(a + b);
        2 * Pow2(a - 1 + b);
        2 * (Pow2(a - 1) * Pow2(b));
        (2 * Pow2(a - 1)) * Pow2(b);
      }
    }
  }

  lemma Pow2ThirtyTwo()
    ensures Pow2(32) == 0x1_0000_0000
    ensures Pow2(64) == 0x1_0000_0000_0000_0000
  {
    assert Pow2(8) == 0x100;
    Pow2Add(8, 8);
    assert Pow2(16) == 0x100 * 0x100;
    Pow2Add(16, 16);
    assert Pow2(32) == 0x1_0000 * 0x1_0000;
    Pow2Add(32, 32);
    assert Pow2(64) == 0x1_0000_0000 * 0x1_0000_0000;
  }

  /** A value below 2^bits has nothing left after `>> bits`. */
  lemma {:induction false} ShrOfSmall(v: nat, bits: nat)
    requires v < Pow2(bits)
    ensures Shr(v, bits) == 0
  {
    if bits != 0 {
      ShrOfSmall(v / 2, bits - 1);
    }
  }

  /** `x | 0x80` on a natural: sets bit 7, adding 128 exactly when it was clear. */
  function OrHighBit(x: nat): (r: nat)
    ensures r % 0x100 >= 0x80
    ensures r % 0x80 == x % 0x80
    ensures r / 0x100 == x / 0x100
  {
    if (x / 0x80) % 2 == 1 then x else x + 0x80
  }

  /** `UInt8(truncatingIfNeeded: x)`: keep the low eight bits. */
  function TruncateToUInt8(x: nat): (r: uint8)
    ensures x == 0x100 * (x / 0x100) + r
  {
    x % 0x100
  }

  /** The byte stored for every non-final group of a varint: the low seven bits with the high bit set. */
  lemma ContinuationByte(x: nat)
    ensures TruncateToUInt8(OrHighBit(x)) == x % 0x80 + 0x80
  {
  }

  /** `UInt64(bitPattern: v)`: the two's-complement bits of `v` read as unsigned. */
  function BitPattern64(v: int64): (u: uint64)
    ensures v >= 0 ==> u == v
    ensures v < 0 ==> u >= 0x8000_0000_0000_0000
    ensures (u - v) % 0x1_0000_0000_0000_0000 == 0
  {
    if v < 0 then v + 0x1_0000_0000_0000_0000 else v
  }

  /** `Int64(bitPattern: u)`, the inverse of `BitPattern64`. */
  function Int64FromBitPattern(u: uint64): int64 {
    if u >= 0x8000_0000_0000_0000 then u - 0x1_0000_0000_0000_0000 else u
  }

  lemma BitPatternRoundTrip(v: int64, u: uint64)
    ensures Int64FromBitPattern(BitPattern64(v)) == v
    ensures BitPattern64(Int64FromBitPattern(u)) == u
  {
  }
}
