/**
 * `BinaryEncoder`: the writer of the protobuf binary format. It is a cursor
 * over an output buffer whose size the caller computed beforehand; every
 * `put*` call stores bytes at the cursor and moves the cursor past them.
 * Running out of room is a programming error in the source, so here every
 * write requires the room it needs.
 */
module BinaryEncoding {
  import opened Ints
  import Varint
  import ZigZag
  import opened WireFormats

  class BinaryEncoder {
    /** The caller-provided output region. */
    const buffer: array<uint8>
    /** The cursor: how far the source's `pointer` is from the start of `buffer`. */
    var pointer: nat

    ghost predicate Valid()
      reads this
    {
      pointer <= buffer.Length
    }

    /** The bytes written so far. */
    ghost function Written(): seq<uint8>
      reads this, buffer
      requires Valid()
    {
      buffer[..pointer]
    }

    /**
     * The encoder's output is `before` followed by `bytes`, and the buffer
     * past the cursor still holds what `image` held there: the state after
     * writing `bytes` to an encoder that had written `before` into a buffer
     * whose contents were `image`.
     */
    ghost predicate Appended(before: seq<uint8>, image: seq<uint8>, bytes: seq<uint8>)
      reads this, buffer
    {
      && Valid()
      && Written() == before + bytes
      && |image| == buffer.Length
      && buffer[pointer..] == image[pointer..]
    }

    /** `init(forWritingInto:)`: the cursor starts at the beginning of the buffer. */
    constructor (buffer: array<uint8>)
      ensures Valid() && this.buffer == buffer && Written() == []
    {
      this.buffer := buffer;
      pointer := 0;
    }

    /** `used`: the number of bytes written. */
    function Used(): (n: nat)
      reads this, buffer
      requires Valid()
      ensures n == |Written()| && n <= buffer.Length
    {
      pointer
    }

    /** `remainder`: the region from the cursor to the end of the buffer. */
    function Remainder(): (r: seq<uint8>)
      reads this, buffer
      requires Valid()
      ensures |r| == buffer.Length - Used()
      ensures Written() + r == buffer[..]
    {
      buffer[pointer..]
    }

    /** `advance(_:)`: the first `bytes` of the remainder, filled in by the caller, become output. */
    method Advance(bytes: nat)
      requires Valid() && pointer + bytes <= buffer.Length
      modifies this
      ensures Appended(old(Written()), buffer[..], old(Remainder()[..bytes]))
      ensures pointer == old(pointer) + bytes
    {
      pointer := pointer + bytes;
    }

    /** `append(_ byte:)` */
    method AppendByte(byte: uint8)
      requires Valid() && pointer + 1 <= buffer.Length
      modifies this, buffer
      ensures Appended(old(Written()), old(buffer[..]), [byte])
    {
      buffer[pointer] := byte;
      pointer := pointer + 1;
    }

    /** `copyMemory(from:byteCount:)` at the cursor; the cursor stays where it is. */
    method CopyMemory(bytes: seq<uint8>)
      requires Valid() && pointer + |bytes| <= buffer.Length
      modifies buffer
      ensures buffer[..] == old(buffer[..pointer]) + bytes + old(buffer[pointer + |bytes|..])
    {
      forall i | 0 <= i < |bytes| {
        buffer[pointer + i] := bytes[i];
      }
    }

    /** `append(contentsOf:)` for contiguous bytes: an empty input writes nothing and leaves the cursor. */
    method AppendContents(bytes: seq<uint8>)
      requires Valid() && pointer + |bytes| <= buffer.Length
      modifies this, buffer
      ensures Appended(old(Written()), old(buffer[..]), bytes)
    {
      if |bytes| > 0 {
        CopyMemory(bytes);
        Advance(|bytes|);
      }
    }

    /** `append(contentsOf:) -> Int` for a raw buffer: copies, advances and reports the count. */
    method AppendBuffer(bytes: seq<uint8>) returns (count: nat)
      requires Valid() && pointer + |bytes| <= buffer.Length
      modifies this, buffer
      ensures Appended(old(Written()), old(buffer[..]), bytes)
      ensures count == |bytes|
    {
      count := |bytes|;
      if count > 0 {
        CopyMemory(bytes);
      }
      pointer := pointer + count;
    }

    /** `appendUnknown(data:)`: previously captured field bytes go out unchanged. */
    method AppendUnknown(data: seq<uint8>)
      requires Valid() && pointer + |data| <= buffer.Length
      modifies this, buffer
      ensures Appended(old(Written()), old(buffer[..]), data)
    {
      AppendContents(data);
    }

    /** `startField(fieldNumber:wireFormat:)` */
    method StartField(fieldNumber: FieldNumber, wireFormat: WireFormat)
      requires Valid() && pointer + Varint.EncodedSize(FieldTag(fieldNumber, wireFormat).RawValue()) <= buffer.Length
      modifies this, buffer
      ensures Appended(old(Written()), old(buffer[..]), FieldKey(FieldTag(fieldNumber, wireFormat)))
    {
      StartFieldTag(FieldTag(fieldNumber, wireFormat));
    }

    /** `startField(tag:)`: the tag's raw value as a varint. */
    method StartFieldTag(tag: FieldTag)
      requires Valid() && pointer + Varint.EncodedSize(tag.RawValue()) <= buffer.Length
      modifies this, buffer
      ensures Appended(old(Written()), old(buffer[..]), FieldKey(tag))
    {
      PutVarInt(tag.RawValue());
    }

    /**
     * `putVarInt(largeValue:)`: the switch on `10 - numBytes` enters at the
     * store for the highest continuation byte and falls through every lower
     * one (`FallThrough`); its default case stores the last byte and
     * moves the cursor past the whole varint.
     */
    method PutVarIntLarge(value: uint64)
      requires Valid() && pointer + Varint.EncodedSize(value) <= buffer.Length
      modifies this, buffer
      ensures Appended(old(Written()), old(buffer[..]), Varint.Encode(value))
      ensures pointer == old(pointer) + Varint.EncodedSize(value)
    {
      ghost var start, image, before := pointer, buffer[..], Written();
      assert before == image[..start];
      ghost var e := Varint.Encode(value);
      Varint.EncodedLength(value);
      var numBytes := Varint.EncodedSize(value);
      var entry := 10 - numBytes;
      NothingStored(image, start, e);
      FallThrough(value, entry, image);
      var continuations := numBytes - 1;
      Varint.EncodeByteAt(value, continuations);
      StoreBytes(TruncateToUInt8(Shr(value, 7 * continuations)), continuations);
      ghost var full := buffer[..];
      assert full == WithContinuations(image, 0, start, e)[start + |e| - 1 := e[|e| - 1]];
      pointer := pointer + numBytes;
      LastByteStored(image, start, e);
      assert full[..pointer] == before + e;
      assert buffer[..pointer] == full[..pointer];
      assert buffer[pointer..] == full[pointer..];
    }

    /**
     * The jump table from case `entry` on: case `c` (for `c` up to 8) stores
     * the continuation byte at offset `8 - c` and falls through to case
     * `c + 1`; case 9 is the default, handled by the caller. Entered at
     * `10 - numBytes`, it stores every continuation byte of the varint, the
     * highest first, and nothing else in the buffer changes.
     */
    method FallThrough(value: uint64, entry: nat, ghost image: seq<uint8>)
      requires Valid() && pointer + |Varint.Encode(value)| <= buffer.Length == |image|
      requires 10 - |Varint.Encode(value)| <= entry <= 9
      requires buffer[..] == WithContinuations(image, 9 - entry, pointer, Varint.Encode(value))
      modifies buffer
      ensures buffer[..] == WithContinuations(image, 0, pointer, Varint.Encode(value))
      decreases 9 - entry
    {
      if entry <= 8 {
        StoreContinuation(value, 8 - entry, image);
        FallThrough(value, entry + 1, image);
      }
    }

    /** `pointer.storeBytes(of:toByteOffset:as:)`: one byte at an offset from the cursor, which does not move. */
    method StoreBytes(byte: uint8, offset: nat)
      requires Valid() && pointer + offset < buffer.Length
      modifies buffer
      ensures buffer[..] == old(buffer[..])[pointer + offset := byte]
    {
      buffer[pointer + offset] := byte;
    }

    /**
     * One store of the jump table: byte `offset` from the cursor becomes
     * `UInt8(truncatingIfNeeded: value >> (7 * offset) | 0x80)`, the
     * continuation byte of that seven-bit group. Starting from `image` with
     * the groups above `offset` stored, it leaves the groups from `offset` up
     * stored.
     */
    method StoreContinuation(value: uint64, offset: nat, ghost image: seq<uint8>)
      requires Valid() && pointer + |Varint.Encode(value)| <= buffer.Length == |image|
      requires offset < |Varint.Encode(value)| - 1
      requires buffer[..] == WithContinuations(image, offset + 1, pointer, Varint.Encode(value))
      modifies buffer
      ensures buffer[..] == WithContinuations(image, offset, pointer, Varint.Encode(value))
    {
      Varint.EncodedLength(value);
      Varint.EncodeByteAt(value, offset);
      ContinuationStep(image, offset, pointer, Varint.Encode(value));
      StoreBytes(TruncateToUInt8(OrHighBit(Shr(value, 7 * offset))), offset);
    }

    /** `putVarInt(value: UInt64)`: one byte for values below 128, the jump table otherwise. */
    method PutVarInt(value: uint64)
      requires Valid() && pointer + Varint.EncodedSize(value) <= buffer.Length
      modifies this, buffer
      ensures Appended(old(Written()), old(buffer[..]), Varint.Encode(value))
      ensures pointer == old(pointer) + Varint.EncodedSize(value)
      ensures value < 0x80 ==> Written() == old(Written()) + [value] && pointer == old(pointer) + 1
    {
      if value < 0x80 {
        AppendByte(value);
      } else {
        PutVarIntLarge(value);
      }
    }

    /** `putVarInt(value: Int64)`: the two's-complement bit pattern, so a negative value takes ten bytes. */
    method PutVarInt64(value: int64)
      requires Valid() && pointer + Varint.EncodedSize(BitPattern64(value)) <= buffer.Length
      modifies this, buffer
      ensures Appended(old(Written()), old(buffer[..]), Varint.Encode(BitPattern64(value)))
    {
      PutVarInt(BitPattern64(value));
    }

    /** `putVarInt(value: Int)`: `Int64(value)` only widens, so an `int64` covers `Int` on 32-bit and 64-bit platforms. */
    method PutVarIntInt(value: int64)
      requires Valid() && pointer + Varint.EncodedSize(BitPattern64(value)) <= buffer.Length
      modifies this, buffer
      ensures Appended(old(Written()), old(buffer[..]), Varint.Encode(BitPattern64(value)))
    {
      PutVarInt64(value);
    }

    /** `putZigZagVarInt(value:)` for sint32 and sint64 fields. */
    method PutZigZagVarInt(value: int64)
      requires Valid() && pointer + Varint.EncodedSize(ZigZag.Encoded(value)) <= buffer.Length
      modifies this, buffer
      ensures Appended(old(Written()), old(buffer[..]), Varint.Encode(ZigZag.Encoded(value)))
    {
      var coded := ZigZag.Encoded(value);
      PutVarInt(coded);
    }

    /** `putBoolValue(value:)` */
    method PutBoolValue(value: bool)
      requires Valid() && pointer + 1 <= buffer.Length
      modifies this, buffer
      ensures Appended(old(Written()), old(buffer[..]), [if value then 1 else 0])
    {
      AppendByte(if value then 1 else 0);
    }

    /** `putFixedUInt64(value:)`: the eight bytes of `value.littleEndian`. */
    method PutFixedUInt64(value: uint64)
      requires Valid() && pointer + 8 <= buffer.Length
      modifies this, buffer
      ensures Appended(old(Written()), old(buffer[..]), LittleEndian(value, 8))
    {
      var v := LittleEndian(value, 8);
      var n := 8;
      CopyMemory(v);
      pointer := pointer + n;
    }

    /** `putFixedUInt32(value:)`: the four bytes of `value.littleEndian`. */
    method PutFixedUInt32(value: uint32)
      requires Valid() && pointer + 4 <= buffer.Length
      modifies this, buffer
      ensures Appended(old(Written()), old(buffer[..]), LittleEndian(value, 4))
    {
      var v := LittleEndian(value, 4);
      var n := 4;
      CopyMemory(v);
      pointer := pointer + n;
    }

    /**
     * `putFloatValue(value:)`, given `value.bitPattern`: the IEEE 754 single
     * precision bits, least significant byte first, as for fixed32.
     */
    method PutFloatValue(bitPattern: uint32)
      requires Valid() && pointer + 4 <= buffer.Length
      modifies this, buffer
      ensures Appended(old(Written()), old(buffer[..]), LittleEndian(bitPattern, 4))
    {
      var n := 4;
      var v := LittleEndian(bitPattern, n);
      CopyMemory(v);
      pointer := pointer + n;
    }

    /**
     * `putDoubleValue(value:)`, given `value.bitPattern`: the IEEE 754 double
     * precision bits, least significant byte first, as for fixed64.
     */
    method PutDoubleValue(bitPattern: uint64)
      requires Valid() && pointer + 8 <= buffer.Length
      modifies this, buffer
      ensures Appended(old(Written()), old(buffer[..]), LittleEndian(bitPattern, 8))
    {
      var n := 8;
      var v := LittleEndian(bitPattern, n);
      CopyMemory(v);
      pointer := pointer + n;
    }

    /**
     * `putStringValue(value:)`, given the string's UTF-8 view. When the view
     * has contiguous storage it is copied in one block; otherwise it is stored
     * byte by byte. Either way the output is the byte count as a varint, then
     * the bytes.
     */
    method PutStringValue(utf8: seq<uint8>, contiguousStorage: bool)
      requires |utf8| <= INT64_MAX
      requires Valid() && pointer + |LengthDelimited(utf8)| <= buffer.Length
      modifies this, buffer
      ensures Appended(old(Written()), old(buffer[..]), LengthDelimited(utf8))
    {
      ghost var before, image := Written(), buffer[..];
      Varint.EncodedLength(|utf8|);
      if contiguousStorage {
        var _ := PutContiguousBody(utf8);
      } else {
        var count := |utf8|;
        PutVarIntInt(count);
        ghost var mid, start, prefix := buffer[..], pointer, Written();
        for i := 0 to count
          invariant pointer == start + i <= buffer.Length
          invariant buffer[..pointer] == prefix + utf8[..i]
          invariant forall j | pointer <= j < buffer.Length :: buffer[j] == mid[j]
        {
          ghost var written := buffer[..pointer];
          buffer[pointer] := utf8[i];
          assert buffer[..pointer + 1] == written + [utf8[i]];
          pointer := pointer + 1;
          assert utf8[..i + 1] == utf8[..i] + [utf8[i]];
        }
        SuffixFromPointwise(buffer[..], mid, pointer);
        assert buffer[pointer..] == buffer[..][pointer..];
        SuffixUnchanged(image, mid, buffer[..], start, pointer);
      }
    }

    /**
     * The closure `putStringValue(value:)` hands to
     * `withContiguousStorageIfAvailable`: the count as a varint, then the
     * bytes copied in one block; it reports the number of bytes copied.
     */
    method PutContiguousBody(body: seq<uint8>) returns (count: nat)
      requires |body| <= INT64_MAX
      requires Valid() && pointer + |LengthDelimited(body)| <= buffer.Length
      modifies this, buffer
      ensures Appended(old(Written()), old(buffer[..]), LengthDelimited(body))
      ensures count == |body|
    {
      ghost var image := buffer[..];
      Varint.EncodedLength(|body|);
      PutVarIntInt(|body|);
      ghost var mid, start := buffer[..], pointer;
      count := AppendBuffer(body);
      SuffixUnchanged(image, mid, buffer[..], start, pointer);
    }

    /** `putBytesValue(value:)`: the byte count as a varint, then the bytes. */
    method PutBytesValue(value: seq<uint8>)
      requires |value| <= INT64_MAX
      requires Valid() && pointer + |LengthDelimited(value)| <= buffer.Length
      modifies this, buffer
      ensures Appended(old(Written()), old(buffer[..]), LengthDelimited(value))
    {
      ghost var image := buffer[..];
      Varint.EncodedLength(|value|);
      PutVarIntInt(|value|);
      ghost var mid, start := buffer[..], pointer;
      AppendContents(value);
      SuffixUnchanged(image, mid, buffer[..], start, pointer);
    }
  }

  /** Sequences of one length that agree at every index from `p` on have the same suffix from `p`. */
  lemma SuffixFromPointwise(a: seq<uint8>, b: seq<uint8>, p: nat)
    requires p <= |a| == |b|
    requires forall j | p <= j < |a| :: a[j] == b[j]
    ensures a[p..] == b[p..]
  {
  }

  /** Two writes that each leave the buffer past their cursor alone leave it alone together. */
  lemma SuffixUnchanged(first: seq<uint8>, second: seq<uint8>, third: seq<uint8>, p: nat, q: nat)
    requires p <= q <= |first| == |second| == |third|
    requires second[p..] == first[p..] && third[q..] == second[q..]
    ensures third[q..] == first[q..]
  {
    assert second[q..] == second[p..][q - p..];
    assert first[q..] == first[p..][q - p..];
  }

  /**
   * The buffer part way through the varint jump table: `image` with the
   * continuation bytes of the encoding `e`, from offset `low` up, stored at
   * `start`.
   */
  ghost function WithContinuations(image: seq<uint8>, low: nat, start: nat, e: seq<uint8>): (r: seq<uint8>)
    requires 1 <= |e| && start + |e| <= |image|
    ensures |r| == |image|
  {
    seq(|image|, j requires 0 <= j < |image| =>
      if start + low <= j < start + |e| - 1 then e[j - start] else image[j])
  }

  /** Before the jump table runs, no continuation byte is stored. */
  lemma NothingStored(image: seq<uint8>, start: nat, e: seq<uint8>)
    requires 1 <= |e| && start + |e| <= |image|
    ensures WithContinuations(image, |e| - 1, start, e) == image
  {
  }

  /** One case of the jump table stores the continuation byte at `low`. */
  lemma ContinuationStep(image: seq<uint8>, low: nat, start: nat, e: seq<uint8>)
    requires 1 <= |e| && start + |e| <= |image| && low < |e| - 1
    ensures WithContinuations(image, low + 1, start, e)[start + low := e[low]] == WithContinuations(image, low, start, e)
  {
  }

  /** With the continuation bytes and the last byte stored, the buffer holds the whole encoding. */
  lemma LastByteStored(image: seq<uint8>, start: nat, e: seq<uint8>)
    requires 1 <= |e| && start + |e| <= |image|
    ensures var full := WithContinuations(image, 0, start, e)[start + |e| - 1 := e[|e| - 1]];
      full[..start + |e|] == image[..start] + e && full[start + |e|..] == image[start + |e|..]
  {
  }
}
