/**
 * The binary cursor the ROM is read through (`BaseReader`). Its source is not
 * part of this model; this module fixes the behaviour the modelled code relies
 * on: 32-bit integers are little-endian, a read past the end of the buffer
 * fails without moving the cursor, peeking never moves the cursor, a peek of
 * `count` bytes yields exactly `count` characters, byte b as character b,
 * with no trimming of spaces or NULs, and a scoped reader over a byte range
 * starts at position 0.
 */
module Readers {
  import opened Results

  type Byte = x: int | 0 <= x < 0x100

  /** A C# `int`. */
  type Int32 = x: int | -0x8000_0000 <= x < 0x8000_0000

  /** A read, peek or scope that does not lie inside the buffer. */
  datatype ReadError = OutOfRange(offset: int, count: int)

  /** Two's-complement truncation to 32 bits: C# unchecked `int` arithmetic. */
  function Wrap32(x: int): (r: Int32)
    ensures -0x8000_0000 <= x < 0x8000_0000 ==> r == x
    ensures (x - r) % 0x1_0000_0000 == 0
  {
    var m := x % 0x1_0000_0000;
    if m < 0x8000_0000 then m else m - 0x1_0000_0000
  }

  /** The signed 32-bit value of four bytes, least significant first. */
  function Int32FromBytes(b0: Byte, b1: Byte, b2: Byte, b3: Byte): Int32
  {
    var u := b0 + 0x100 * (b1 + 0x100 * (b2 + 0x100 * b3));
    if u < 0x8000_0000 then u else u - 0x1_0000_0000
  }

  /** The little-endian int32 stored at `pos`. */
  function DecodeInt32(data: seq<Byte>, pos: nat): (r: Int32)
    requires pos + 4 <= |data|
    ensures r < 0 <==> data[pos + 3] >= 0x80
    ensures r % 0x100 == data[pos]
  {
    Int32FromBytes(data[pos], data[pos + 1], data[pos + 2], data[pos + 3])
  }

  /** The four little-endian bytes that store `x`. */
  function EncodeInt32(x: Int32): (bs: seq<Byte>)
    ensures |bs| == 4
  {
    var u := if x < 0 then x + 0x1_0000_0000 else x;
    var u1 := u / 0x100;
    var u2 := u1 / 0x100;
    [u % 0x100, u1 % 0x100, u2 % 0x100, u2 / 0x100]
  }

  /** Decoding reads back what encoding wrote, wherever the four bytes sit. */
  lemma DecodeEncodeInt32(x: Int32, prefix: seq<Byte>, suffix: seq<Byte>)
    ensures DecodeInt32(prefix + EncodeInt32(x) + suffix, |prefix|) == x
  {
    var bs := EncodeInt32(x);
    var data := prefix + bs + suffix;
    var p := |prefix|;
    assert data[p] == bs[0] && data[p + 1] == bs[1] && data[p + 2] == bs[2] && data[p + 3] == bs[3];
    var u := if x < 0 then x + 0x1_0000_0000 else x;
    var u1 := u / 0x100;
    var u2 := u1 / 0x100;
    assert u == u % 0x100 + 0x100 * u1;
    assert u1 == u1 % 0x100 + 0x100 * u2;
    assert u2 == u2 % 0x100 + 0x100 * (u2 / 0x100);
  }

  /**
   * The ASCII text of `count` bytes at the absolute position `offset`
   * (`PeekString`); each byte becomes the character with that code.
   */
  function PeekString(data: seq<Byte>, count: nat, offset: int): (r: Result<string, ReadError>)
    ensures r.Ok? <==> 0 <= offset && offset + count <= |data|
    ensures r.Ok? ==> |r.value| == count
    ensures r.Ok? ==> forall i :: 0 <= i < count ==> r.value[i] as int == data[offset + i]
    ensures r.Err? ==> r.error == OutOfRange(offset, count)
  {
    if 0 <= offset && offset + count <= |data| then
      Ok(seq(count, i requires 0 <= i < count => data[offset + i] as char))
    else
      Err(OutOfRange(offset, count))
  }

  /** The bytes of the range `[offset, offset + length)` (`LoadPointer`). */
  function Slice(data: seq<Byte>, offset: int, length: int): (r: Result<seq<Byte>, ReadError>)
    ensures r.Ok? <==> 0 <= offset && 0 <= length && offset + length <= |data|
    ensures r.Ok? ==> |r.value| == length
    ensures r.Ok? ==> forall i :: 0 <= i < length ==> r.value[i] == data[offset + i]
    ensures r.Err? ==> r.error == OutOfRange(offset, length)
  {
    if 0 <= offset && 0 <= length && offset + length <= |data| then
      Ok(data[offset..offset + length])
    else
      Err(OutOfRange(offset, length))
  }

  /** A cursor over an immutable byte buffer. */
  class BaseReader {
    const data: seq<Byte>
    var position: nat

    constructor (data: seq<Byte>)
      ensures this.data == data && position == 0
    {
      this.data := data;
      position := 0;
    }

    /** `Read<int>()`: the int32 at the cursor, after which the cursor is 4 bytes further on. */
    method ReadInt32() returns (r: Result<Int32, ReadError>)
      modifies this`position
      ensures old(position) + 4 <= |data| ==> r == Ok(DecodeInt32(data, old(position))) && position == old(position) + 4
      ensures old(position) + 4 > |data| ==> r == Err(OutOfRange(old(position), 4)) && position == old(position)
    {
      if position + 4 <= |data| {
        r := Ok(DecodeInt32(data, position));
        position := position + 4;
      } else {
        r := Err(OutOfRange(position, 4));
      }
    }

    /** `LoadPointer`: a new reader over one byte range of this one, positioned at its start. */
    method Scope(offset: int, length: int) returns (r: Result<BaseReader, ReadError>)
      ensures r.Ok? <==> Slice(data, offset, length).Ok?
      ensures r.Ok? ==> fresh(r.value) && r.value.data == Slice(data, offset, length).value && r.value.position == 0
      ensures r.Err? ==> r.error == Slice(data, offset, length).error
    {
      var bytes := Slice(data, offset, length);
      if bytes.Ok? {
        var scoped := new BaseReader(bytes.value);
        r := Ok(scoped);
      } else {
        r := Err(bytes.error);
      }
    }
  }
}
