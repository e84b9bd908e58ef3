/**
 * The pieces of the protobuf binary wire format that the writer emits:
 * wire types, field tags, little-endian fixed-width values and
 * length-delimited records, each with the reader-side function that takes it
 * apart again.
 */
module WireFormats {
  import opened Ints
  import opened Wrappers
  import Varint

  /** The three-bit wire type code of a field tag. */
  datatype WireFormat = varint | fixed64 | lengthDelimited | startGroup | endGroup | fixed32 {

    function RawValue(): (r: uint8)
      ensures r <= 5
    {
      match this
      case varint => 0
      case fixed64 => 1
      case lengthDelimited => 2
      case startGroup => 3
      case endGroup => 4
      case fixed32 => 5
    }
  }

  /** The wire type with a given code; codes 6 and 7 are not wire types. */
  function WireFormatFromRawValue(raw: nat): (r: Option<WireFormat>)
    ensures r.Some? <==> raw <= 5
    ensures r.Some? ==> r.value.RawValue() == raw
  {
    if raw == 0 then Some(varint)
    else if raw == 1 then Some(fixed64)
    else if raw == 2 then Some(lengthDelimited)
    else if raw == 3 then Some(startGroup)
    else if raw == 4 then Some(endGroup)
    else if raw == 5 then Some(fixed32)
    else None
  }

  const MaxFieldNumber: nat := 0x1FFF_FFFF

  /** Field numbers run from 1 to 2^29 - 1, so that a tag fits in 32 bits. */
  type FieldNumber = n: int | 1 <= n <= MaxFieldNumber witness 1

  datatype FieldTag = FieldTag(fieldNumber: FieldNumber, wireFormat: WireFormat) {

    /** `rawValue`, that is `fieldNumber << 3 | wireFormat.rawValue`. */
    function RawValue(): (r: uint32)
      ensures r / 8 == fieldNumber && r % 8 == wireFormat.RawValue()
    {
      fieldNumber * 8 + wireFormat.RawValue()
    }
  }

  /** Splits a raw tag into field number and wire type; None for field number 0 or an unknown wire type. */
  function FieldTagFromRawValue(raw: nat): (r: Option<FieldTag>)
    ensures r.Some? <==> 1 <= raw / 8 <= MaxFieldNumber && raw % 8 <= 5
    ensures r.Some? ==> r.value.RawValue() == raw
  {
    var number := raw / 8;
    match WireFormatFromRawValue(raw % 8)
    case Some(w) => if 1 <= number <= MaxFieldNumber then Some(FieldTag(number, w)) else None
    case None => None
  }

  lemma FieldTagRoundTrip(tag: FieldTag)
    ensures FieldTagFromRawValue(tag.RawValue()) == Some(tag)
  {
  }

  /** What `startField` writes: the tag's raw value as a varint. */
  function FieldKey(tag: FieldTag): (r: seq<uint8>)
    ensures Varint.IsCanonical(r) && Varint.Decode(r) == tag.RawValue()
  {
    Varint.EncodeIsCanonical(tag.RawValue());
    Varint.DecodeEncode(tag.RawValue());
    Varint.Encode(tag.RawValue())
  }

  /** Reads a field key from the front of `bytes`: the tag and the bytes it took. */
  function ReadFieldKey(bytes: seq<uint8>): (r: Option<(FieldTag, nat)>)
    ensures r.Some? ==> 1 <= r.value.1 <= |bytes|
  {
    match Varint.ReadVarint(bytes)
    case None => None
    case Some((raw, n)) =>
      match FieldTagFromRawValue(raw)
      case None => None
      case Some(tag) => Some((tag, n))
  }

  /** A written field key reads back as the same tag, whatever follows it. */
  lemma FieldKeyRoundTrip(tag: FieldTag, rest: seq<uint8>)
    ensures ReadFieldKey(FieldKey(tag) + rest) == Some((tag, |FieldKey(tag)|))
  {
    Varint.Uint64FitsTenBytes(tag.RawValue());
    Varint.ReadEncoded(tag.RawValue(), rest);
  }

  /** The `width` low-order bytes of `v`, least significant first: the memory image of `v.littleEndian`. */
  function LittleEndian(v: nat, width: nat): (r: seq<uint8>)
    ensures |r| == width
  {
    if width == 0 then [] else [v % 0x100] + LittleEndian(v / 0x100, width - 1)
  }

  /** Byte `k` is `(v >> 8k) & 0xFF`. */
  lemma {:induction false} LittleEndianByteAt(v: nat, width: nat, k: nat)
    requires k < width
    ensures LittleEndian(v, width)[k] == Shr(v, 8 * k) % 0x100
  {
    if k > 0 {
      LittleEndianByteAt(v / 0x100, width - 1, k - 1);
      ShrEight(v);
      ShrAdd(v, 8, 8 * (k - 1));
    }
  }

  function FromLittleEndian(bytes: seq<uint8>): nat {
    if bytes == [] then 0 else bytes[0] + 0x100 * FromLittleEndian(bytes[1..])
  }

  /** A value that fits in `width` bytes reads back unchanged. */
  lemma {:induction false} LittleEndianRoundTrip(v: nat, width: nat)
    requires Shr(v, 8 * width) == 0
    ensures FromLittleEndian(LittleEndian(v, width)) == v
  {
    if width > 0 {
      ShrEight(v);
      ShrAdd(v, 8, 8 * (width - 1));
      LittleEndianRoundTrip(v / 0x100, width - 1);
      assert LittleEndian(v, width)[1..] == LittleEndian(v / 0x100, width - 1);
    }
  }

  /** Every byte string is the little-endian image of the value it reads as. */
  lemma {:induction false} FromLittleEndianRoundTrip(bytes: seq<uint8>)
    ensures LittleEndian(FromLittleEndian(bytes), |bytes|) == bytes
  {
    if bytes != [] {
      FromLittleEndianRoundTrip(bytes[1..]);
    }
  }

  lemma Uint32FitsFourBytes(v: uint32)
    ensures Shr(v, 8 * 4) == 0
  {
    Pow2ThirtyTwo();
    ShrOfSmall(v, 32);
  }

  lemma Uint64FitsEightBytes(v: uint64)
    ensures Shr(v, 8 * 8) == 0
  {
    Pow2ThirtyTwo();
    ShrOfSmall(v, 64);
  }

  /** A length-delimited record: the byte count as a varint, then the bytes verbatim. */
  function LengthDelimited(payload: seq<uint8>): (r: seq<uint8>)
    ensures |payload| < |r| && r[|r| - |payload|..] == payload
    ensures var prefix := r[..|r| - |payload|];
      Varint.IsCanonical(prefix) && Varint.Decode(prefix) == |payload|
  {
    Varint.EncodeIsCanonical(|payload|);
    Varint.DecodeEncode(|payload|);
    var r := Varint.Encode(|payload|) + payload;
    assert r[..|r| - |payload|] == Varint.Encode(|payload|);
    r
  }

  /** Takes one length-delimited record off the front of `bytes`: its payload and what follows. */
  function ReadLengthDelimited(bytes: seq<uint8>): (r: Option<(seq<uint8>, seq<uint8>)>)
    ensures r.Some? ==> |r.value.0| + |r.value.1| < |bytes|
  {
    match Varint.ReadVarint(bytes)
    case None => None
    case Some((count, n)) =>
      if count <= |bytes| - n then Some((bytes[n..n + count], bytes[n + count..])) else None
  }

  /** A record whose length fits in a varint reads back as its payload, leaving the rest untouched. */
  lemma LengthDelimitedRoundTrip(payload: seq<uint8>, rest: seq<uint8>)
    requires |payload| <= INT64_MAX
    ensures ReadLengthDelimited(LengthDelimited(payload) + rest) == Some((payload, rest))
  {
    var n := |Varint.Encode(|payload|)|;
    Varint.Uint64FitsTenBytes(|payload|);
    Varint.ReadEncoded(|payload|, payload + rest);
    var bytes := LengthDelimited(payload) + rest;
    assert bytes == Varint.Encode(|payload|) + (payload + rest);
    assert bytes[n..n + |payload|] == payload;
    assert bytes[n + |payload|..] == rest;
  }
}
