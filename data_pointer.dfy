/**
 * Region descriptors (`DataPointer`): an offset and a length, decoded from two
 * consecutive int32 reads in one of two encodings.
 */
module DataPointers {
  import opened Results
  import opened Readers

  /** How the second int32 of a descriptor is to be read. */
  datatype DataPointerType = OffsetLength | StartEnd

  datatype DataPointer = DataPointer(offset: Int32, length: Int32)

  /**
   * The descriptor stored at `pos`: the first int32 is the offset, the second
   * is the length (`OffsetLength`) or the end offset (`StartEnd`), from which
   * the length is derived by unchecked 32-bit subtraction.
   */
  function DecodeDataPointer(data: seq<Byte>, pos: nat, pointerType: DataPointerType): (r: Result<DataPointer, ReadError>)
    ensures r.Ok? <==> pos + 8 <= |data|
    ensures r.Ok? ==> r.value.offset == DecodeInt32(data, pos)
    ensures r.Err? ==> r.error == OutOfRange(if pos + 4 <= |data| then pos + 4 else pos, 4)
  {
    if pos + 4 > |data| then Err(OutOfRange(pos, 4))
    else if pos + 8 > |data| then Err(OutOfRange(pos + 4, 4))
    else
      var first := DecodeInt32(data, pos);
      var second := DecodeInt32(data, pos + 4);
      match pointerType
      case OffsetLength => Ok(DataPointer(first, second))
      case StartEnd => Ok(DataPointer(first, Wrap32(second - first)))
  }

  /**
   * The `DataPointer(BaseReader, DataPointerType)` constructor: two reads
   * through the cursor, in `OffsetLength` form unless told otherwise. A
   * complete descriptor moves the cursor 8 bytes on; a read that fails
   * leaves the cursor where that read began.
   */
  method ReadDataPointer(reader: BaseReader, pointerType: DataPointerType := OffsetLength)
    returns (r: Result<DataPointer, ReadError>)
    modifies reader`position
    ensures r == DecodeDataPointer(reader.data, old(reader.position), pointerType)
    ensures r.Ok? ==> reader.position == old(reader.position) + 8
    ensures r.Err? ==> reader.position == if old(reader.position) + 4 <= |reader.data| then old(reader.position) + 4 else old(reader.position)
  {
    match pointerType {
      case OffsetLength =>
        var offset :- reader.ReadInt32();
        var length :- reader.ReadInt32();
        r := Ok(DataPointer(offset, length));
      case StartEnd =>
        var offset :- reader.ReadInt32();
        var endOffset :- reader.ReadInt32();
        r := Ok(DataPointer(offset, Wrap32(endOffset as int - offset as int)));
    }
  }

  /** The two encodings of a descriptor as bytes. */
  function EncodeOffsetLength(p: DataPointer): (bs: seq<Byte>)
    ensures |bs| == 8
  {
    EncodeInt32(p.offset) + EncodeInt32(p.length)
  }

  function EncodeStartEnd(offset: Int32, endOffset: Int32): (bs: seq<Byte>)
    ensures |bs| == 8
  {
    EncodeInt32(offset) + EncodeInt32(endOffset)
  }

  /** In `OffsetLength` form both values are taken verbatim, wherever the descriptor sits. */
  lemma OffsetLengthRoundTrip(p: DataPointer, prefix: seq<Byte>, suffix: seq<Byte>)
    ensures DecodeDataPointer(prefix + EncodeOffsetLength(p) + suffix, |prefix|, OffsetLength) == Ok(p)
  {
    var data := prefix + EncodeOffsetLength(p) + suffix;
    DecodeEncodeInt32(p.offset, prefix, EncodeInt32(p.length) + suffix);
    DecodeEncodeInt32(p.length, prefix + EncodeInt32(p.offset), suffix);
    assert data == prefix + EncodeInt32(p.offset) + (EncodeInt32(p.length) + suffix);
    assert data == prefix + EncodeInt32(p.offset) + EncodeInt32(p.length) + suffix;
  }

  /**
   * In `StartEnd` form the length is the end offset minus the offset,
   * computed modulo 2^32, wherever the descriptor sits.
   */
  lemma StartEndDecodes(offset: Int32, endOffset: Int32, prefix: seq<Byte>, suffix: seq<Byte>)
    ensures DecodeDataPointer(prefix + EncodeStartEnd(offset, endOffset) + suffix, |prefix|, StartEnd)
         == Ok(DataPointer(offset, Wrap32(endOffset - offset)))
  {
    var data := prefix + EncodeStartEnd(offset, endOffset) + suffix;
    DecodeEncodeInt32(offset, prefix, EncodeInt32(endOffset) + suffix);
    DecodeEncodeInt32(endOffset, prefix + EncodeInt32(offset), suffix);
    assert data == prefix + EncodeInt32(offset) + (EncodeInt32(endOffset) + suffix);
    assert data == prefix + EncodeInt32(offset) + EncodeInt32(endOffset) + suffix;
  }

  /**
   * The two encodings agree: `[o, o + l]` read as start and end gives the same
   * descriptor as `[o, l]` read as offset and length, when `o + l` fits in 32 bits.
   */
  lemma StartEndMatchesOffsetLength(p: DataPointer)
    requires -0x8000_0000 <= p.offset + p.length < 0x8000_0000
    ensures DecodeDataPointer(EncodeStartEnd(p.offset, p.offset + p.length), 0, StartEnd)
         == DecodeDataPointer(EncodeOffsetLength(p), 0, OffsetLength)
         == Ok(p)
  {
    StartEndDecodes(p.offset, p.offset + p.length, [], []);
    OffsetLengthRoundTrip(p, [], []);
    assert [] + EncodeStartEnd(p.offset, p.offset + p.length) + [] == EncodeStartEnd(p.offset, p.offset + p.length);
    assert [] + EncodeOffsetLength(p) + [] == EncodeOffsetLength(p);
  }

  /** `[100, 150]` as start and end and `[100, 50]` as offset and length both give `{100, 50}`. */
  lemma StartEndExample()
    ensures DecodeDataPointer(EncodeStartEnd(100, 150), 0, StartEnd) == Ok(DataPointer(100, 50))
    ensures DecodeDataPointer(EncodeOffsetLength(DataPointer(100, 50)), 0, OffsetLength) == Ok(DataPointer(100, 50))
  {
    StartEndMatchesOffsetLength(DataPointer(100, 50));
  }

  /**
   * An end before the offset is not an error: the descriptor decodes, with a
   * negative length, as long as the difference fits in 32 bits.
   */
  lemma StartEndBackwardsIsNegative(data: seq<Byte>, pos: nat)
    requires pos + 8 <= |data|
    requires DecodeInt32(data, pos + 4) < DecodeInt32(data, pos)
    requires DecodeInt32(data, pos + 4) - DecodeInt32(data, pos) >= -0x8000_0000
    ensures DecodeDataPointer(data, pos, StartEnd).Ok?
    ensures DecodeDataPointer(data, pos, StartEnd).value.length == DecodeInt32(data, pos + 4) - DecodeInt32(data, pos) < 0
  {
  }

  /**
   * When the difference does not fit, the unchecked subtraction wraps: an end
   * far below the offset yields a large positive length.
   */
  lemma StartEndWrapExample()
    ensures DecodeDataPointer(EncodeStartEnd(1, -0x8000_0000), 0, StartEnd) == Ok(DataPointer(1, 0x7FFF_FFFF))
  {
    StartEndDecodes(1, -0x8000_0000, [], []);
    assert [] + EncodeStartEnd(1, -0x8000_0000) + [] == EncodeStartEnd(1, -0x8000_0000);
  }
}
