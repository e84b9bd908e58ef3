/**
 * ZigZag, the signed-to-unsigned mapping used for sint32 and sint64 fields:
 * small magnitudes of either sign become small unsigned values, so that their
 * varints stay short.
 */
module ZigZag {
  import opened Ints

  /**
   * `ZigZag.encoded(n)` = `UInt64(bitPattern: (n << 1) ^ (n >> 63))`.
   * `n << 1` keeps the low 64 bits of the doubled bit pattern; `n >> 63` is
   * all ones for a negative `n` and zero otherwise, so the exclusive or is a
   * complement or nothing.
   */
  function Encoded(n: int64): (u: uint64)
    ensures u % 2 == (if n < 0 then 1 else 0)
    ensures u / 2 == (if n < 0 then -(n as int) - 1 else n as int)
  {
    var shifted := (BitPattern64(n) * 2) % 0x1_0000_0000_0000_0000;
    if n < 0 then UINT64_MAX - shifted else shifted
  }

  /** The decoder's inverse, `(u >> 1) ^ -(u & 1)`: halve, and complement when the low bit is set. */
  function Decoded(u: uint64): (n: int64)
    ensures (n < 0) == (u % 2 == 1)
  {
    if u % 2 == 0 then u / 2 else -(u / 2) - 1
  }

  /** ZigZag is a bijection between int64 and uint64. */
  lemma RoundTrip(n: int64, u: uint64)
    ensures Decoded(Encoded(n)) == n
    ensures Encoded(Decoded(u)) == u
  {
  }

  /** Magnitude `m` becomes at most `2m`: a value in int32 range encodes below 2^32. */
  lemma Int32RangeFits(n: int64)
    requires -0x8000_0000 <= n < 0x8000_0000
    ensures Encoded(n) < 0x1_0000_0000
  {
  }
}
