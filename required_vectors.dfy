/**
 * Fields of the message `TestAllRequiredTypes` written one after another
 * through `BinaryEncoder`, as generated code writes them, with the bytes the
 * library's required-field encoding test expects for each.
 */
module RequiredVectors {
  import opened Ints
  import opened WireFormats
  import opened BinaryEncoding

  /** `required_int32 = 1`: field 1, varint. */
  method WriteRequiredInt32(encoder: BinaryEncoder)
    requires encoder.Valid() && encoder.pointer + 2 <= encoder.buffer.Length
    modifies encoder, encoder.buffer
    ensures encoder.pointer == old(encoder.pointer) + 2
    ensures encoder.Valid() && encoder.Written() == old(encoder.Written()) + [8, 1]
  {
    encoder.StartField(1, varint);
    encoder.PutVarIntInt(1);
  }

  /** `required_sint32 = 5`: field 5, ZigZag varint. */
  method WriteRequiredSint32(encoder: BinaryEncoder)
    requires encoder.Valid() && encoder.pointer + 2 <= encoder.buffer.Length
    modifies encoder, encoder.buffer
    ensures encoder.pointer == old(encoder.pointer) + 2
    ensures encoder.Valid() && encoder.Written() == old(encoder.Written()) + [40, 10]
  {
    encoder.StartField(5, varint);
    encoder.PutZigZagVarInt(5);
  }

  /** `required_sint64 = 6`: field 6, ZigZag varint. */
  method WriteRequiredSint64(encoder: BinaryEncoder)
    requires encoder.Valid() && encoder.pointer + 2 <= encoder.buffer.Length
    modifies encoder, encoder.buffer
    ensures encoder.pointer == old(encoder.pointer) + 2
    ensures encoder.Valid() && encoder.Written() == old(encoder.Written()) + [48, 12]
  {
    encoder.StartField(6, varint);
    encoder.PutZigZagVarInt(6);
  }

  /** `required_fixed32 = 7`: field 7, four bytes little-endian. */
  method WriteRequiredFixed32(encoder: BinaryEncoder)
    requires encoder.Valid() && encoder.pointer + 5 <= encoder.buffer.Length
    modifies encoder, encoder.buffer
    ensures encoder.pointer == old(encoder.pointer) + 5
    ensures encoder.Valid() && encoder.Written() == old(encoder.Written()) + [61, 7, 0, 0, 0]
  {
    encoder.StartField(7, fixed32);
    encoder.PutFixedUInt32(7);
  }

  /** `required_fixed64 = 8`: field 8, eight bytes little-endian. */
  method WriteRequiredFixed64(encoder: BinaryEncoder)
    requires encoder.Valid() && encoder.pointer + 9 <= encoder.buffer.Length
    modifies encoder, encoder.buffer
    ensures encoder.pointer == old(encoder.pointer) + 9
    ensures encoder.Valid() && encoder.Written() == old(encoder.Written()) + [65, 8, 0, 0, 0, 0, 0, 0, 0]
  {
    FixedEightImage();
    ghost var w := encoder.Written();
    encoder.StartField(8, fixed64);
    assert encoder.Written() == w + [65];
    encoder.PutFixedUInt64(8);
  }

  /** `required_float = 11`: field 11, the four bytes of the bit pattern 0x41300000 of 11.0. */
  method WriteRequiredFloat(encoder: BinaryEncoder)
    requires encoder.Valid() && encoder.pointer + 5 <= encoder.buffer.Length
    modifies encoder, encoder.buffer
    ensures encoder.pointer == old(encoder.pointer) + 5
    ensures encoder.Valid() && encoder.Written() == old(encoder.Written()) + [93, 0, 0, 48, 65]
  {
    encoder.StartField(11, fixed32);
    encoder.PutFloatValue(0x4130_0000);
  }

  /** `required_double = 12`: field 12, the eight bytes of the bit pattern 0x4028000000000000 of 12.0. */
  method WriteRequiredDouble(encoder: BinaryEncoder)
    requires encoder.Valid() && encoder.pointer + 9 <= encoder.buffer.Length
    modifies encoder, encoder.buffer
    ensures encoder.pointer == old(encoder.pointer) + 9
    ensures encoder.Valid() && encoder.Written() == old(encoder.Written()) + [97, 0, 0, 0, 0, 0, 0, 40, 64]
  {
    DoubleTwelveImage();
    ghost var w := encoder.Written();
    encoder.StartField(12, fixed64);
    assert encoder.Written() == w + [97];
    encoder.PutDoubleValue(0x4028_0000_0000_0000);
  }

  /** The little-endian image of the fixed64 value 8. */
  lemma FixedEightImage()
    ensures LittleEndian(8, 8) == [8, 0, 0, 0, 0, 0, 0, 0]
  {
    assert LittleEndian(0, 4) == [0, 0, 0, 0];
  }

  /** The little-endian image of 0x4028000000000000, the bit pattern of the double 12.0. */
  lemma DoubleTwelveImage()
    ensures LittleEndian(0x4028_0000_0000_0000, 8) == [0, 0, 0, 0, 0, 0, 40, 64]
  {
    assert LittleEndian(0x40, 1) == [64];
    assert LittleEndian(0x4028, 2) == [40, 64];
    assert LittleEndian(0x40_2800, 3) == [0, 40, 64];
    assert LittleEndian(0x4028_0000, 4) == [0, 0, 40, 64];
    assert LittleEndian(0x40_2800_0000, 5) == [0, 0, 0, 40, 64];
    assert LittleEndian(0x4028_0000_0000, 6) == [0, 0, 0, 0, 40, 64];
    assert LittleEndian(0x40_2800_0000_0000, 7) == [0, 0, 0, 0, 0, 40, 64];
  }

  /** `required_bool = true`: field 13, one byte. */
  method WriteRequiredBool(encoder: BinaryEncoder)
    requires encoder.Valid() && encoder.pointer + 2 <= encoder.buffer.Length
    modifies encoder, encoder.buffer
    ensures encoder.pointer == old(encoder.pointer) + 2
    ensures encoder.Valid() && encoder.Written() == old(encoder.Written()) + [104, 1]
  {
    encoder.StartField(13, varint);
    encoder.PutBoolValue(true);
  }

  /** `required_string = "14"`: field 14, length-delimited, through either branch of `putStringValue`. */
  method WriteRequiredString(encoder: BinaryEncoder, contiguousStorage: bool)
    requires encoder.Valid() && encoder.pointer + 4 <= encoder.buffer.Length
    modifies encoder, encoder.buffer
    ensures encoder.pointer == old(encoder.pointer) + 4
    ensures encoder.Valid() && encoder.Written() == old(encoder.Written()) + [114, 2, 49, 52]
  {
    encoder.StartField(14, lengthDelimited);
    encoder.PutStringValue([49, 52], contiguousStorage);
  }

  /** `required_bytes = [15]`: field 15, length-delimited. */
  method WriteRequiredBytes(encoder: BinaryEncoder)
    requires encoder.Valid() && encoder.pointer + 3 <= encoder.buffer.Length
    modifies encoder, encoder.buffer
    ensures encoder.pointer == old(encoder.pointer) + 3
    ensures encoder.Valid() && encoder.Written() == old(encoder.Written()) + [122, 1, 15]
  {
    encoder.StartField(15, lengthDelimited);
    encoder.PutBytesValue([15]);
  }

  /** `requiredgroup { a = 16 }`: field 16 as a group holding field 17. */
  method WriteRequiredGroup(encoder: BinaryEncoder)
    requires encoder.Valid() && encoder.pointer + 7 <= encoder.buffer.Length
    modifies encoder, encoder.buffer
    ensures encoder.pointer == old(encoder.pointer) + 7
    ensures encoder.Valid() && encoder.Written() == old(encoder.Written()) + [131, 1, 136, 1, 16, 132, 1]
  {
    encoder.StartField(16, startGroup);
    assert encoder.Written() == old(encoder.Written()) + [131, 1];
    encoder.StartField(17, varint);
    encoder.PutVarIntInt(16);
    assert encoder.Written() == old(encoder.Written()) + [131, 1, 136, 1, 16];
    encoder.StartField(16, endGroup);
  }

  /** `default_sint32 = 65`: field 65, ZigZag varint; both the key and the value take two bytes. */
  method WriteDefaultSint32(encoder: BinaryEncoder)
    requires encoder.Valid() && encoder.pointer + 4 <= encoder.buffer.Length
    modifies encoder, encoder.buffer
    ensures encoder.pointer == old(encoder.pointer) + 4
    ensures encoder.Valid() && encoder.Written() == old(encoder.Written()) + [136, 4, 130, 1]
  {
    encoder.StartField(65, varint);
    encoder.PutZigZagVarInt(65);
  }

  /** The four scalar fields in order: each write appends its field's bytes. */
  method WriteScalarFields(encoder: BinaryEncoder)
    requires encoder.Valid() && encoder.pointer + 11 <= encoder.buffer.Length
    modifies encoder, encoder.buffer
    ensures encoder.pointer == old(encoder.pointer) + 11
    ensures encoder.Valid() && encoder.Written() == old(encoder.Written()) + ([8, 1] + [40, 10] + [61, 7, 0, 0, 0] + [104, 1])
  {
    ghost var w0 := encoder.Written();
    WriteRequiredInt32(encoder);
    WriteRequiredSint32(encoder);
    WriteRequiredFixed32(encoder);
    WriteRequiredBool(encoder);
    assert encoder.Written() == w0 + [8, 1] + [40, 10] + [61, 7, 0, 0, 0] + [104, 1];
  }

  /** The string, bytes, group and `default_sint32` fields in order. */
  method WriteRemainingFields(encoder: BinaryEncoder, contiguousStorage: bool)
    requires encoder.Valid() && encoder.pointer + 18 <= encoder.buffer.Length
    modifies encoder, encoder.buffer
    ensures encoder.pointer == old(encoder.pointer) + 18
    ensures encoder.Valid() && encoder.Written() == old(encoder.Written()) + ([114, 2, 49, 52] + [122, 1, 15] + [131, 1, 136, 1, 16, 132, 1] + [136, 4, 130, 1])
  {
    ghost var w0 := encoder.Written();
    WriteRequiredString(encoder, contiguousStorage);
    WriteRequiredBytes(encoder);
    WriteRequiredGroup(encoder);
    WriteDefaultSint32(encoder);
    assert encoder.Written() == w0 + [114, 2, 49, 52] + [122, 1, 15] + [131, 1, 136, 1, 16, 132, 1] + [136, 4, 130, 1];
  }

  /**
   * The fields above written into one buffer of the exact size: the output
   * is the concatenation of the per-field encodings, whichever branch the
   * string write takes.
   */
  method EncodeRequiredFields(contiguousStorage: bool) returns (bytes: seq<uint8>)
    ensures bytes == ([8, 1] + [40, 10] + [61, 7, 0, 0, 0] + [104, 1])
      + ([114, 2, 49, 52] + [122, 1, 15] + [131, 1, 136, 1, 16, 132, 1] + [136, 4, 130, 1])
  {
    var buffer := new uint8[29];
    var encoder := new BinaryEncoder(buffer);
    WriteScalarFields(encoder);
    WriteRemainingFields(encoder, contiguousStorage);
    bytes := buffer[..encoder.pointer];
  }
}
