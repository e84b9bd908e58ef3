/**
 * Base-128 varints of the protobuf binary wire format: an unsigned value is
 * cut into seven-bit groups, least significant group first; every byte but
 * the last carries the continuation bit 0x80.
 */
module Varint {
  import opened Ints
  import opened Wrappers

  /**
   * `Varint.encodedSize(of:)`: the number of bytes of the minimal encoding,
   * found by comparing against the powers 2^7, 2^14, ..., 2^63.
   */
  function EncodedSize(v: uint64): (n: nat)
    ensures 1 <= n <= 10
  {
    if v < 0x80 then 1
    else if v < 0x4000 then 2
    else if v < 0x20_0000 then 3
    else if v < 0x1000_0000 then 4
    else if v < 0x8_0000_0000 then 5
    else if v < 0x400_0000_0000 then 6
    else if v < 0x2_0000_0000_0000 then 7
    else if v < 0x100_0000_0000_0000 then 8
    else if v < 0x8000_0000_0000_0000 then 9
    else 10
  }

  /** The canonical encoding of `v`, one byte per seven-bit group. */
  function Encode(v: nat): (r: seq<uint8>)
    ensures 1 <= |r|
    ensures (|r| == 1) == (v < 0x80)
  {
    if v < 0x80 then [v] else [v % 0x80 + 0x80] + Encode(v / 0x80)
  }

  /** The seven-bit groups of `bytes` put back together, least significant first. */
  function Decode(bytes: seq<uint8>): nat {
    if bytes == [] then 0 else bytes[0] % 0x80 + 0x80 * Decode(bytes[1..])
  }

  /** A well-formed varint: the continuation bit is set on every byte but the last. */
  ghost predicate IsVarint(bytes: seq<uint8>) {
    && |bytes| >= 1
    && (forall k | 0 <= k < |bytes| - 1 :: bytes[k] >= 0x80)
    && bytes[|bytes| - 1] < 0x80
  }

  /** A minimal varint: well-formed, and its last group is not a padding zero. */
  ghost predicate IsCanonical(bytes: seq<uint8>) {
    IsVarint(bytes) && (|bytes| > 1 ==> bytes[|bytes| - 1] != 0)
  }

  lemma {:induction false} EncodeIsCanonical(v: nat)
    ensures IsCanonical(Encode(v))
  {
    if v >= 0x80 {
      EncodeIsCanonical(v / 0x80);
      var e := Encode(v);
      assert e[1..] == Encode(v / 0x80);
      forall k | 0 <= k < |e| - 1 ensures e[k] >= 0x80 {
        if k > 0 {
          assert e[k] == Encode(v / 0x80)[k - 1];
        }
      }
    }
  }

  /** Reading the groups back yields the value: the encoding loses nothing. */
  lemma {:induction false} DecodeEncode(v: nat)
    ensures Decode(Encode(v)) == v
  {
    if v >= 0x80 {
      var e := Encode(v);
      assert e[1..] == Encode(v / 0x80);
      DecodeEncode(v / 0x80);
    }
  }

  lemma {:induction false} DecodePositive(bytes: seq<uint8>)
    requires IsCanonical(bytes)
    ensures Decode(bytes) > 0 || bytes == [0]
  {
    if |bytes| > 1 {
      assert IsCanonical(bytes[1..]);
      DecodePositive(bytes[1..]);
    }
  }

  /** A minimal varint is the encoding of the value it decodes to: the encoding is the only canonical one. */
  lemma {:induction false} EncodeDecode(bytes: seq<uint8>)
    requires IsCanonical(bytes)
    ensures Encode(Decode(bytes)) == bytes
  {
    if |bytes| > 1 {
      var rest := bytes[1..];
      CanonicalTail(bytes);
      EncodeDecode(rest);
      DecodePositive(rest);
      var low, high := bytes[0] - 0x80, Decode(rest);
      DecodeCons(bytes);
      EncodeGroups(low, high);
      assert Encode(Decode(bytes)) == [bytes[0]] + rest;
      assert [bytes[0]] + rest == bytes;
    }
  }

  /** A first byte with the continuation bit contributes its low seven bits. */
  lemma DecodeCons(bytes: seq<uint8>)
    requires |bytes| >= 1 && bytes[0] >= 0x80
    ensures Decode(bytes) == bytes[0] - 0x80 + 0x80 * Decode(bytes[1..])
  {
  }

  /** Behind the first byte of a canonical varint of several bytes is a canonical varint. */
  lemma CanonicalTail(bytes: seq<uint8>)
    requires IsCanonical(bytes) && |bytes| > 1
    ensures bytes[0] >= 0x80 && IsCanonical(bytes[1..])
  {
    assert bytes[1..][|bytes| - 2] == bytes[|bytes| - 1];
  }

  /** A value of more than one group encodes as its low group with the continuation bit, then the rest. */
  lemma EncodeGroups(low: nat, high: nat)
    requires low < 0x80 && high >= 1
    ensures Encode(low + 0x80 * high) == [low + 0x80] + Encode(high)
  {
    var v := low + 0x80 * high;
    assert v / 0x80 == high && v % 0x80 == low;
  }

  /** `Varint.encodedSize(of:)` counts exactly the bytes of the encoding. */
  lemma {:induction false} EncodedLength(v: uint64)
    ensures |Encode(v)| == EncodedSize(v)
  {
    if v >= 0x80 {
      EncodedLength(v / 0x80);
    }
  }

  /** The encoding has the least number of groups that holds `v`: `v >> 7n` is zero, `v >> 7(n-1)` is not. */
  lemma {:induction false} EncodedLengthIsMinimal(v: nat)
    ensures Shr(v, 7 * |Encode(v)|) == 0
    ensures |Encode(v)| > 1 ==> Shr(v, 7 * (|Encode(v)| - 1)) != 0
  {
    var n := |Encode(v)|;
    ShrSeven(v);
    if v >= 0x80 {
      EncodedLengthIsMinimal(v / 0x80);
      ShrAdd(v, 7, 7 * (n - 1));
      if n > 2 {
        ShrAdd(v, 7, 7 * (n - 2));
      }
    }
  }

  /**
   * Byte `k` of the encoding, as the writer's jump table stores it:
   * `UInt8(truncatingIfNeeded: (v >> 7k) | 0x80)` before the last byte,
   * `UInt8(truncatingIfNeeded: v >> 7k)` for the last, whose high bit is clear.
   */
  lemma {:induction false} EncodeByteAt(v: nat, k: nat)
    requires k < |Encode(v)|
    ensures k < |Encode(v)| - 1 ==> Encode(v)[k] == TruncateToUInt8(OrHighBit(Shr(v, 7 * k)))
    ensures k == |Encode(v)| - 1 ==> Encode(v)[k] == TruncateToUInt8(Shr(v, 7 * k)) && Shr(v, 7 * k) < 0x80
  {
    if k == 0 {
      ContinuationByte(v);
    } else {
      EncodeByteAt(v / 0x80, k - 1);
      ShrSeven(v);
      ShrAdd(v, 7, 7 * (k - 1));
    }
  }

  /**
   * Reads one varint from the front of `bytes` as a decoder does: at most
   * ten bytes, stopping at the first byte without the continuation bit.
   * Gives the value and the number of bytes consumed; None when the input
   * ends early or runs past ten bytes.
   */
  function ReadVarint(bytes: seq<uint8>): (r: Option<(nat, nat)>)
    ensures r.Some? ==> 1 <= r.value.1 <= |bytes| && r.value.1 <= 10
    ensures r.Some? ==> IsVarint(bytes[..r.value.1]) && r.value.0 == Decode(bytes[..r.value.1])
  {
    ReadGroups(bytes, 10)
  }

  function ReadGroups(bytes: seq<uint8>, budget: nat): (r: Option<(nat, nat)>)
    ensures r.Some? ==> 1 <= r.value.1 <= |bytes| && r.value.1 <= budget
    ensures r.Some? ==> IsVarint(bytes[..r.value.1]) && r.value.0 == Decode(bytes[..r.value.1])
  {
    if budget == 0 || bytes == [] then None
    else if bytes[0] < 0x80 then Some((bytes[0] as nat, 1))
    else
      match ReadGroups(bytes[1..], budget - 1)
      case None => None
      case Some((v, n)) =>
        assert bytes[..n + 1][1..] == bytes[1..][..n];
        Some((bytes[0] - 0x80 + 0x80 * v, n + 1))
  }

  /** Whatever follows it, an encoded value of at most ten bytes reads back whole. */
  lemma {:induction false} ReadEncoded(v: nat, rest: seq<uint8>)
    requires |Encode(v)| <= 10
    ensures ReadVarint(Encode(v) + rest) == Some((v, |Encode(v)|))
  {
    ReadGroupsEncoded(v, rest, 10);
  }

  lemma {:induction false} ReadGroupsEncoded(v: nat, rest: seq<uint8>, budget: nat)
    requires |Encode(v)| <= budget
    ensures ReadGroups(Encode(v) + rest, budget) == Some((v, |Encode(v)|))
  {
    var b := Encode(v) + rest;
    if v >= 0x80 {
      assert b[1..] == Encode(v / 0x80) + rest;
      ReadGroupsEncoded(v / 0x80, rest, budget - 1);
    }
  }

  /** Every unsigned 64-bit value fits the ten-byte limit. */
  lemma Uint64FitsTenBytes(v: uint64)
    ensures |Encode(v)| <= 10
  {
    EncodedLength(v);
  }
}
