/**
 * The eight byte-order primitives of the codec.
 *
 * Each `Put` writes a 16- or 32-bit value into a caller-owned byte buffer at
 * an offset, splitting it into bytes with a mask and a right shift; each
 * `Make` reads the same bytes back and adds them up, shifted into place.
 * Nothing checks the buffer's bounds, so every primitive requires that the
 * 2 or 4 bytes it touches lie inside the buffer.
 */
module DataOperations {
  import opened ByteLayout

  /** Only the bytes at offset .. offset + width - 1 may differ between the two states. */
  ghost predicate SameOutside(before: seq<Byte>, after: seq<Byte>, offset: nat, width: nat)
  {
    |before| == |after| &&
    forall i :: 0 <= i < |after| && !(offset <= i < offset + width) ==> after[i] == before[i]
  }

  /** Writes data into buffer[offset .. offset + 3], least significant byte first. */
  method PutU32Lsbf(buffer: array<Byte>, offset: U16, data: U32)
    requires offset + 4 <= buffer.Length
    modifies buffer
    ensures buffer[offset..offset + 4] == LsbfBytes(data, 4)
    ensures SameOutside(old(buffer[..]), buffer[..], offset, 4)
  {
    // Each byte is (data & mask) >> shift, with the mask kept as a remainder.
    buffer[offset + 0] := (data % 0x100) / 0x1;
    buffer[offset + 1] := (data % 0x1_0000) / 0x100;
    buffer[offset + 2] := (data % 0x100_0000) / 0x1_0000;
    buffer[offset + 3] := (data % 0x1_0000_0000) / 0x100_0000;
    Lanes32(data);
  }

  /** Writes data into buffer[offset .. offset + 3], most significant byte first. */
  method PutU32Msbf(buffer: array<Byte>, offset: U16, data: U32)
    requires offset + 4 <= buffer.Length
    modifies buffer
    ensures buffer[offset..offset + 4] == MsbfBytes(data, 4)
    ensures SameOutside(old(buffer[..]), buffer[..], offset, 4)
  {
    buffer[offset + 0] := (data % 0x1_0000_0000) / 0x100_0000;
    buffer[offset + 1] := (data % 0x100_0000) / 0x1_0000;
    buffer[offset + 2] := (data % 0x1_0000) / 0x100;
    buffer[offset + 3] := (data % 0x100) / 0x1;
    Lanes32(data);
  }

  /** Writes data into buffer[offset .. offset + 1], least significant byte first. */
  method PutU16Lsbf(buffer: array<Byte>, offset: U16, data: U16)
    requires offset + 2 <= buffer.Length
    modifies buffer
    ensures buffer[offset..offset + 2] == LsbfBytes(data, 2)
    ensures SameOutside(old(buffer[..]), buffer[..], offset, 2)
  {
    buffer[offset + 0] := (data % 0x100) / 0x1;
    buffer[offset + 1] := (data % 0x1_0000) / 0x100;
    Lanes16(data);
  }

  /** Writes data into buffer[offset .. offset + 1], most significant byte first. */
  method PutU16Msbf(buffer: array<Byte>, offset: U16, data: U16)
    requires offset + 2 <= buffer.Length
    modifies buffer
    ensures buffer[offset..offset + 2] == MsbfBytes(data, 2)
    ensures SameOutside(old(buffer[..]), buffer[..], offset, 2)
  {
    buffer[offset + 0] := (data % 0x1_0000) / 0x100;
    buffer[offset + 1] := (data % 0x100) / 0x1;
    Lanes16(data);
  }

  /** Reads buffer[offset .. offset + 3] as an LSBF value. */
  function MakeU32Lsbf(buffer: array<Byte>, offset: U16): (r: U32)
    requires offset + 4 <= buffer.Length
    reads buffer
    ensures r == LsbfValue(buffer[offset..offset + 4])
  {
    ValueOf4(buffer[offset..offset + 4]);
    (buffer[offset + 0] as int) * 0x1
    + (buffer[offset + 1] as int) * 0x100
    + (buffer[offset + 2] as int) * 0x1_0000
    + (buffer[offset + 3] as int) * 0x100_0000
  }

  /** Reads buffer[offset .. offset + 3] as an MSBF value. */
  function MakeU32Msbf(buffer: array<Byte>, offset: U16): (r: U32)
    requires offset + 4 <= buffer.Length
    reads buffer
    ensures r == MsbfValue(buffer[offset..offset + 4])
  {
    ValueOf4(buffer[offset..offset + 4]);
    (buffer[offset + 0] as int) * 0x100_0000
    + (buffer[offset + 1] as int) * 0x1_0000
    + (buffer[offset + 2] as int) * 0x100
    + (buffer[offset + 3] as int) * 0x1
  }

  /** Reads buffer[offset .. offset + 1] as an LSBF value. */
  function MakeU16Lsbf(buffer: array<Byte>, offset: U16): (r: U16)
    requires offset + 2 <= buffer.Length
    reads buffer
    ensures r == LsbfValue(buffer[offset..offset + 2])
  {
    ValueOf2(buffer[offset..offset + 2]);
    (buffer[offset + 0] as int) * 0x1
    + (buffer[offset + 1] as int) * 0x100
  }

  /** Reads buffer[offset .. offset + 1] as an MSBF value. */
  function MakeU16Msbf(buffer: array<Byte>, offset: U16): (r: U16)
    requires offset + 2 <= buffer.Length
    reads buffer
    ensures r == MsbfValue(buffer[offset..offset + 2])
  {
    ValueOf2(buffer[offset..offset + 2]);
    (buffer[offset + 0] as int) * 0x100
    + (buffer[offset + 1] as int) * 0x1
  }

  // Each Make undoes the Put of the same width and byte order, and each Put
  // of a made value writes back the bytes it was made from.

  lemma MakeU32LsbfAfterPut(buffer: array<Byte>, offset: U16, data: U32)
    requires offset + 4 <= buffer.Length
    requires buffer[offset..offset + 4] == LsbfBytes(data, 4)
    ensures MakeU32Lsbf(buffer, offset) == data
  {
    LsbfRoundTrip(data, 4);
  }

  lemma MakeU32MsbfAfterPut(buffer: array<Byte>, offset: U16, data: U32)
    requires offset + 4 <= buffer.Length
    requires buffer[offset..offset + 4] == MsbfBytes(data, 4)
    ensures MakeU32Msbf(buffer, offset) == data
  {
    MsbfRoundTrip(data, 4);
  }

  lemma MakeU16LsbfAfterPut(buffer: array<Byte>, offset: U16, data: U16)
    requires offset + 2 <= buffer.Length
    requires buffer[offset..offset + 2] == LsbfBytes(data, 2)
    ensures MakeU16Lsbf(buffer, offset) == data
  {
    LsbfRoundTrip(data, 2);
  }

  lemma MakeU16MsbfAfterPut(buffer: array<Byte>, offset: U16, data: U16)
    requires offset + 2 <= buffer.Length
    requires buffer[offset..offset + 2] == MsbfBytes(data, 2)
    ensures MakeU16Msbf(buffer, offset) == data
  {
    MsbfRoundTrip(data, 2);
  }

  lemma PutU32LsbfOfMade(buffer: array<Byte>, offset: U16)
    requires offset + 4 <= buffer.Length
    ensures LsbfBytes(MakeU32Lsbf(buffer, offset), 4) == buffer[offset..offset + 4]
  {
    LsbfReencode(buffer[offset..offset + 4]);
  }

  lemma PutU32MsbfOfMade(buffer: array<Byte>, offset: U16)
    requires offset + 4 <= buffer.Length
    ensures MsbfBytes(MakeU32Msbf(buffer, offset), 4) == buffer[offset..offset + 4]
  {
    MsbfReencode(buffer[offset..offset + 4]);
  }

  lemma PutU16LsbfOfMade(buffer: array<Byte>, offset: U16)
    requires offset + 2 <= buffer.Length
    ensures LsbfBytes(MakeU16Lsbf(buffer, offset), 2) == buffer[offset..offset + 2]
  {
    LsbfReencode(buffer[offset..offset + 2]);
  }

  lemma PutU16MsbfOfMade(buffer: array<Byte>, offset: U16)
    requires offset + 2 <= buffer.Length
    ensures MsbfBytes(MakeU16Msbf(buffer, offset), 2) == buffer[offset..offset + 2]
  {
    MsbfReencode(buffer[offset..offset + 2]);
  }

  /** A write that changes nothing outside its window and restores the window changes nothing. */
  lemma {:induction false} UnchangedWhenWindowRestored(before: seq<Byte>, after: seq<Byte>, offset: nat, width: nat)
    requires offset + width <= |before|
    requires SameOutside(before, after, offset, width)
    requires after[offset..offset + width] == before[offset..offset + width]
    ensures after == before
  {
    forall i | offset <= i < offset + width
      ensures after[i] == before[i]
    {
      assert after[i] == after[offset..offset + width][i - offset];
    }
  }

  // Unfolding helpers: the reference definitions on 2- and 4-byte sequences.

  /** The masked and shifted lanes of a 32-bit value are its layouts in both orders. */
  lemma Lanes32(d: U32)
    ensures LsbfBytes(d, 4) ==
      [(d % 0x100) / 0x1, (d % 0x1_0000) / 0x100, (d % 0x100_0000) / 0x1_0000, (d % 0x1_0000_0000) / 0x100_0000]
    ensures MsbfBytes(d, 4) ==
      [(d % 0x1_0000_0000) / 0x100_0000, (d % 0x100_0000) / 0x1_0000, (d % 0x1_0000) / 0x100, (d % 0x100) / 0x1]
  {
    var d1 := d / 0x100;
    var d2 := d1 / 0x100;
    var d3 := d2 / 0x100;
    assert LsbfBytes(d, 4) == [d % 0x100, d1 % 0x100, d2 % 0x100, d3 % 0x100] by {
      assert LsbfBytes(d2, 2) == [d2 % 0x100, d3 % 0x100] by {
        assert LsbfBytes(d3, 1) == [d3 % 0x100];
      }
    }
    assert MsbfBytes(d, 4) == [d3 % 0x100, d2 % 0x100, d1 % 0x100, d % 0x100] by {
      assert MsbfBytes(d2, 2) == [d3 % 0x100, d2 % 0x100] by {
        assert MsbfBytes(d3, 1) == [d3 % 0x100];
      }
    }
    MaskShift32(d);
  }

  /** Masking out byte k of a 32-bit value and shifting it down is dividing by 256 k times. */
  lemma MaskShift32(d: U32)
    ensures d / 0x100 % 0x100 == (d % 0x1_0000) / 0x100
    ensures d / 0x100 / 0x100 % 0x100 == (d % 0x100_0000) / 0x1_0000
    ensures d / 0x100 / 0x100 / 0x100 % 0x100 == (d % 0x1_0000_0000) / 0x100_0000
  {
    DivDiv(d, 0x100);
    DivDiv(d / 0x100, 0x100);
    DivDiv(d, 0x1_0000);
  }

  /** The masked and shifted lanes of a 16-bit value are its layouts in both orders. */
  lemma Lanes16(d: U16)
    ensures LsbfBytes(d, 2) == [(d % 0x100) / 0x1, (d % 0x1_0000) / 0x100]
    ensures MsbfBytes(d, 2) == [(d % 0x1_0000) / 0x100, (d % 0x100) / 0x1]
  {
    var d1 := d / 0x100;
    assert LsbfBytes(d, 2) == [d % 0x100, d1 % 0x100] by {
      assert LsbfBytes(d1, 1) == [d1 % 0x100];
    }
    assert MsbfBytes(d, 2) == [d1 % 0x100, d % 0x100] by {
      assert MsbfBytes(d1, 1) == [d1 % 0x100];
    }
  }

  lemma ValueOf4(s: seq<Byte>)
    requires |s| == 4
    ensures LsbfValue(s) == s[0] + 0x100 * (s[1] as int) + 0x1_0000 * (s[2] as int) + 0x100_0000 * (s[3] as int)
    ensures MsbfValue(s) == 0x100_0000 * (s[0] as int) + 0x1_0000 * (s[1] as int) + 0x100 * (s[2] as int) + s[3]
  {
    assert LsbfValue(s[3..]) == s[3] by { assert s[3..][1..] == []; }
    assert LsbfValue(s[2..]) == s[2] + 0x100 * LsbfValue(s[3..]) by { assert s[2..][1..] == s[3..]; }
    assert LsbfValue(s[1..]) == s[1] + 0x100 * LsbfValue(s[2..]) by { assert s[1..][1..] == s[2..]; }
    assert MsbfValue(s[..1]) == s[0] by { assert s[..1][..0] == []; }
    assert MsbfValue(s[..2]) == 0x100 * MsbfValue(s[..1]) + s[1] by { assert s[..2][..1] == s[..1]; }
    assert MsbfValue(s[..3]) == 0x100 * MsbfValue(s[..2]) + s[2] by { assert s[..3][..2] == s[..2]; }
    assert s[..4] == s;
  }

  lemma ValueOf2(s: seq<Byte>)
    requires |s| == 2
    ensures LsbfValue(s) == s[0] + 0x100 * (s[1] as int)
    ensures MsbfValue(s) == 0x100 * (s[0] as int) + s[1]
  {
    assert LsbfValue(s[1..]) == s[1] by { assert s[1..][1..] == []; }
    assert MsbfValue(s[..1]) == s[0] by { assert s[..1][..0] == []; }
  }
}
