/**
 * The demonstration scenarios: a zeroed ten-byte buffer, one Put at offset 0
 * with a fixed sample value, and the matching Make, whose result is compared
 * with the sample.  Also the composite facts a caller relies on: a Put
 * followed by the matching Make returns the value, and putting back a made
 * value leaves the buffer as it was.
 */
module Harness {
  import opened ByteLayout
  import opened DataOperations

  const BufferSize: nat := 10
  const U32TestValue: U32 := 125120100
  const U16TestValue: U16 := 10526

  /** A fresh buffer of BufferSize zero bytes. */
  method ZeroedBuffer() returns (buffer: array<Byte>)
    ensures fresh(buffer) && buffer.Length == BufferSize
    ensures forall i :: 0 <= i < buffer.Length ==> buffer[i] == 0
  {
    buffer := new Byte[BufferSize](_ => 0);
  }

  /** The 32-bit LSBF scenario: the buffer afterwards, the made value, and whether it matched. */
  method TestU32Lsbf() returns (contents: seq<Byte>, temp: U32, correct: bool)
    ensures contents == [100, 46, 117, 7, 0, 0, 0, 0, 0, 0]
    ensures temp == U32TestValue && correct
  {
    var u8Buffer := ZeroedBuffer();
    PutU32Lsbf(u8Buffer, 0, U32TestValue);
    contents := u8Buffer[..];
    temp := MakeU32Lsbf(u8Buffer, 0);
    MakeU32LsbfAfterPut(u8Buffer, 0, U32TestValue);
    correct := temp == U32TestValue;
    SampleLayouts();
    assert contents[..4] == u8Buffer[0..4];
  }

  /** The 32-bit MSBF scenario. */
  method TestU32Msbf() returns (contents: seq<Byte>, temp: U32, correct: bool)
    ensures contents == [7, 117, 46, 100, 0, 0, 0, 0, 0, 0]
    ensures temp == U32TestValue && correct
  {
    var u8Buffer := ZeroedBuffer();
    PutU32Msbf(u8Buffer, 0, U32TestValue);
    contents := u8Buffer[..];
    temp := MakeU32Msbf(u8Buffer, 0);
    MakeU32MsbfAfterPut(u8Buffer, 0, U32TestValue);
    correct := temp == U32TestValue;
    SampleLayouts();
    assert contents[..4] == u8Buffer[0..4];
  }

  /** The 16-bit LSBF scenario. */
  method TestU16Lsbf() returns (contents: seq<Byte>, temp: U16, correct: bool)
    ensures contents == [30, 41, 0, 0, 0, 0, 0, 0, 0, 0]
    ensures temp == U16TestValue && correct
  {
    var u8Buffer := ZeroedBuffer();
    PutU16Lsbf(u8Buffer, 0, U16TestValue);
    contents := u8Buffer[..];
    temp := MakeU16Lsbf(u8Buffer, 0);
    MakeU16LsbfAfterPut(u8Buffer, 0, U16TestValue);
    correct := temp == U16TestValue;
    SampleLayouts();
    assert contents[..2] == u8Buffer[0..2];
  }

  /** The 16-bit MSBF scenario. */
  method TestU16Msbf() returns (contents: seq<Byte>, temp: U16, correct: bool)
    ensures contents == [41, 30, 0, 0, 0, 0, 0, 0, 0, 0]
    ensures temp == U16TestValue && correct
  {
    var u8Buffer := ZeroedBuffer();
    PutU16Msbf(u8Buffer, 0, U16TestValue);
    contents := u8Buffer[..];
    temp := MakeU16Msbf(u8Buffer, 0);
    MakeU16MsbfAfterPut(u8Buffer, 0, U16TestValue);
    correct := temp == U16TestValue;
    SampleLayouts();
    assert contents[..2] == u8Buffer[0..2];
  }

  /** The sample values' layouts; the two 32-bit layouts differ. */
  lemma SampleLayouts()
    ensures LsbfBytes(U32TestValue, 4) == [100, 46, 117, 7]
    ensures MsbfBytes(U32TestValue, 4) == [7, 117, 46, 100]
    ensures LsbfBytes(U16TestValue, 2) == [30, 41]
    ensures MsbfBytes(U16TestValue, 2) == [41, 30]
    ensures LsbfBytes(U32TestValue, 4) != MsbfBytes(U32TestValue, 4)
  {
  }

  /** Put then Make at 32 bits, LSBF, anywhere in any buffer. */
  method RoundTripU32Lsbf(buffer: array<Byte>, offset: U16, data: U32) returns (r: U32)
    requires offset + 4 <= buffer.Length
    modifies buffer
    ensures r == data
    ensures buffer[offset..offset + 4] == LsbfBytes(data, 4)
    ensures SameOutside(old(buffer[..]), buffer[..], offset, 4)
  {
    PutU32Lsbf(buffer, offset, data);
    r := MakeU32Lsbf(buffer, offset);
    MakeU32LsbfAfterPut(buffer, offset, data);
  }

  /** Put then Make at 32 bits, MSBF. */
  method RoundTripU32Msbf(buffer: array<Byte>, offset: U16, data: U32) returns (r: U32)
    requires offset + 4 <= buffer.Length
    modifies buffer
    ensures r == data
    ensures buffer[offset..offset + 4] == MsbfBytes(data, 4)
    ensures SameOutside(old(buffer[..]), buffer[..], offset, 4)
  {
    PutU32Msbf(buffer, offset, data);
    r := MakeU32Msbf(buffer, offset);
    MakeU32MsbfAfterPut(buffer, offset, data);
  }

  /** Put then Make at 16 bits, LSBF. */
  method RoundTripU16Lsbf(buffer: array<Byte>, offset: U16, data: U16) returns (r: U16)
    requires offset + 2 <= buffer.Length
    modifies buffer
    ensures r == data
    ensures buffer[offset..offset + 2] == LsbfBytes(data, 2)
    ensures SameOutside(old(buffer[..]), buffer[..], offset, 2)
  {
    PutU16Lsbf(buffer, offset, data);
    r := MakeU16Lsbf(buffer, offset);
    MakeU16LsbfAfterPut(buffer, offset, data);
  }

  /** Put then Make at 16 bits, MSBF. */
  method RoundTripU16Msbf(buffer: array<Byte>, offset: U16, data: U16) returns (r: U16)
    requires offset + 2 <= buffer.Length
    modifies buffer
    ensures r == data
    ensures buffer[offset..offset + 2] == MsbfBytes(data, 2)
    ensures SameOutside(old(buffer[..]), buffer[..], offset, 2)
  {
    PutU16Msbf(buffer, offset, data);
    r := MakeU16Msbf(buffer, offset);
    MakeU16MsbfAfterPut(buffer, offset, data);
  }

  /** Making a 32-bit LSBF value and putting it back leaves the buffer unchanged. */
  method RewriteU32Lsbf(buffer: array<Byte>, offset: U16)
    requires offset + 4 <= buffer.Length
    modifies buffer
    ensures buffer[..] == old(buffer[..])
  {
    ghost var before := buffer[..];
    var d := MakeU32Lsbf(buffer, offset);
    PutU32LsbfOfMade(buffer, offset);
    PutU32Lsbf(buffer, offset, d);
    UnchangedWhenWindowRestored(before, buffer[..], offset, 4);
  }

  /** Making a 32-bit MSBF value and putting it back leaves the buffer unchanged. */
  method RewriteU32Msbf(buffer: array<Byte>, offset: U16)
    requires offset + 4 <= buffer.Length
    modifies buffer
    ensures buffer[..] == old(buffer[..])
  {
    ghost var before := buffer[..];
    var d := MakeU32Msbf(buffer, offset);
    PutU32MsbfOfMade(buffer, offset);
    PutU32Msbf(buffer, offset, d);
    UnchangedWhenWindowRestored(before, buffer[..], offset, 4);
  }

  /** Making a 16-bit LSBF value and putting it back leaves the buffer unchanged. */
  method RewriteU16Lsbf(buffer: array<Byte>, offset: U16)
    requires offset + 2 <= buffer.Length
    modifies buffer
    ensures buffer[..] == old(buffer[..])
  {
    ghost var before := buffer[..];
    var d := MakeU16Lsbf(buffer, offset);
    PutU16LsbfOfMade(buffer, offset);
    PutU16Lsbf(buffer, offset, d);
    UnchangedWhenWindowRestored(before, buffer[..], offset, 2);
  }

  /** Making a 16-bit MSBF value and putting it back leaves the buffer unchanged. */
  method RewriteU16Msbf(buffer: array<Byte>, offset: U16)
    requires offset + 2 <= buffer.Length
    modifies buffer
    ensures buffer[..] == old(buffer[..])
  {
    ghost var before := buffer[..];
    var d := MakeU16Msbf(buffer, offset);
    PutU16MsbfOfMade(buffer, offset);
    PutU16Msbf(buffer, offset, d);
    UnchangedWhenWindowRestored(before, buffer[..], offset, 2);
  }
}
