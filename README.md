# Byte-order codec: a verified Dafny model

This project models the byte-order codec of `Inc/DataOperations.h`. The codec has eight inline primitives:

- `putU32_LSBF`, `putU32_MSBF`, `putU16_LSBF` and `putU16_MSBF` split an unsigned 32- or 16-bit value into bytes. They write the bytes into a caller-owned `uint8_t` buffer at a `uint16_t` offset. LSBF puts the least significant byte first; MSBF puts the most significant byte first.
- `makeU32_LSBF`, `makeU32_MSBF`, `makeU16_LSBF` and `makeU16_MSBF` read the same 2 or 4 bytes back and add them up, shifted into place.

The model has three modules:

- `ByteLayout` (`byte_layout.dfy`) is the reference specification.
  - `Byte`, `U16` and `U32` are the C types `uint8_t`, `uint16_t` and `uint32_t`, written as integer ranges.
  - `ByteOf(d, k)` is byte k of d, that is `(d >> 8k) & 0xFF`.
  - `LsbfBytes` and `MsbfBytes` give a value's layout in each byte order.
  - `LsbfValue` and `MsbfValue` give the weighted sum of a layout's bytes.
  - `Reverse` reverses a layout.
  - The lemmas prove the layouts byte by byte, both round trips, the value bounds and how the two orders mirror each other.
- `DataOperations` (`data_operations.dfy`) holds the eight primitives.
  - Each `put` is a method on an `array<Byte>` with `modifies buffer`. Its `ensures` states the bytes written and that nothing outside the window changed.
  - Each `make` is a function that reads the buffer. Its `ensures` ties the result to the reference sum, and its result type carries the 16- or 32-bit bound.
  - Buffer-level lemmas state that each `make` undoes the matching `put`, and that putting back a made value rewrites the same bytes.
- `Harness` (`harness.dfy`) holds the sample scenarios of `src/main.c`, written as methods whose contracts state the outcome. It also holds client methods that compose a `put` with a `make` on any buffer.

Each mask-and-shift `(data & 0x0000FF00) >> 8` is written as the integer expression `(data % 0x1_0000) / 0x100`. For a 32-bit value the mask keeps bits 8 to 15, and the shift drops bits 0 to 7. Each `make` converts its bytes with `as int`, which mirrors C's integer promotion, before it shifts and adds them.

The source has no bounds checks. So every primitive requires `offset + width <= buffer.Length`, with width 4 at 32 bits and 2 at 16 bits. A safer interface would return an out-of-bounds error instead. The model follows the code: an out-of-bounds call is a precondition violation, not an error value.

## Model

| member | source | states |
|---|---|---|
| `ByteLayout.LsbfBytesAt` | Inc/DataOperations.h:47-50 | position k of the w-byte LSBF layout of d holds `(d >> 8k) & 0xFF` |
| `ByteLayout.MsbfBytesAt` | Inc/DataOperations.h:70-73 | position k of the w-byte MSBF layout of d holds `(d >> 8(w-1-k)) & 0xFF` |
| `ByteLayout.MsbfIsReversedLsbf` | Inc/DataOperations.h:68-74 | the MSBF layout of every value is its LSBF layout reversed, for every width |
| `ByteLayout.LayoutsAgreeIffPalindrome` | Inc/DataOperations.h:68-74 | the two layouts of a value are equal exactly when its LSBF layout is a palindrome, in both directions |
| `ByteLayout.MsbfValueIsReversedLsbf` | Inc/DataOperations.h:157-166 | reading bytes MSBF gives the same value as reading them reversed LSBF |
| `ByteLayout.LsbfValueBound` | Inc/DataOperations.h:132-142 | w bytes read LSBF give a value below 256^w |
| `ByteLayout.MsbfValueBound` | Inc/DataOperations.h:157-166 | w bytes read MSBF give a value below 256^w |
| `ByteLayout.LsbfRoundTrip` | Inc/DataOperations.h:45-51 | for every d below 256^w, reading back the w-byte LSBF layout of d gives d |
| `ByteLayout.MsbfRoundTrip` | Inc/DataOperations.h:68-74 | for every d below 256^w, reading back the w-byte MSBF layout of d gives d |
| `ByteLayout.LsbfReencode` | Inc/DataOperations.h:132-142 | writing the LSBF value of a byte sequence back in as many bytes reproduces the sequence |
| `ByteLayout.MsbfReencode` | Inc/DataOperations.h:157-166 | writing the MSBF value of a byte sequence back in as many bytes reproduces the sequence |
| `DataOperations.PutU32Lsbf` | Inc/DataOperations.h:45-51 | `buffer[offset..offset+4]` becomes the LSBF layout of data; every other byte and the length are unchanged |
| `DataOperations.PutU32Msbf` | Inc/DataOperations.h:68-74 | `buffer[offset..offset+4]` becomes the MSBF layout of data; every other byte and the length are unchanged |
| `DataOperations.PutU16Lsbf` | Inc/DataOperations.h:91-95 | `buffer[offset..offset+2]` becomes `[data & 0xFF, data >> 8]`; every other byte and the length are unchanged |
| `DataOperations.PutU16Msbf` | Inc/DataOperations.h:112-116 | `buffer[offset..offset+2]` becomes `[data >> 8, data & 0xFF]`; every other byte and the length are unchanged |
| `DataOperations.MakeU32Lsbf` | Inc/DataOperations.h:132-142 | the result is the sum of `buffer[offset+k] * 256^k` for k in 0..3, and it is below 2^32 |
| `DataOperations.MakeU32Msbf` | Inc/DataOperations.h:157-166 | the result is the sum of `buffer[offset+k] * 256^(3-k)` for k in 0..3, and it is below 2^32 |
| `DataOperations.MakeU16Lsbf` | Inc/DataOperations.h:181-189 | the result is `buffer[offset] + 256 * buffer[offset+1]`, and it is below 2^16 |
| `DataOperations.MakeU16Msbf` | Inc/DataOperations.h:204-213 | the result is `256 * buffer[offset] + buffer[offset+1]`, and it is below 2^16 |
| `DataOperations.Lanes32` | Inc/DataOperations.h:47-50 | the four masked and shifted lanes of a 32-bit value are its LSBF layout, and in the opposite order its MSBF layout |
| `DataOperations.Lanes16` | Inc/DataOperations.h:93-94 | the two masked and shifted lanes of a 16-bit value are its LSBF layout, and in the opposite order its MSBF layout |
| `DataOperations.MakeU32LsbfAfterPut` | Inc/DataOperations.h:132-142 | on a window holding the LSBF layout of a 32-bit d, `makeU32_LSBF` returns d |
| `DataOperations.MakeU32MsbfAfterPut` | Inc/DataOperations.h:157-166 | on a window holding the MSBF layout of a 32-bit d, `makeU32_MSBF` returns d |
| `DataOperations.MakeU16LsbfAfterPut` | Inc/DataOperations.h:181-189 | on a window holding the LSBF layout of a 16-bit d, `makeU16_LSBF` returns d |
| `DataOperations.MakeU16MsbfAfterPut` | Inc/DataOperations.h:204-213 | on a window holding the MSBF layout of a 16-bit d, `makeU16_MSBF` returns d |
| `DataOperations.PutU32LsbfOfMade` | Inc/DataOperations.h:45-51 | the LSBF layout of the value `makeU32_LSBF` reads is exactly the window it read |
| `DataOperations.PutU32MsbfOfMade` | Inc/DataOperations.h:68-74 | the MSBF layout of the value `makeU32_MSBF` reads is exactly the window it read |
| `DataOperations.PutU16LsbfOfMade` | Inc/DataOperations.h:91-95 | the LSBF layout of the value `makeU16_LSBF` reads is exactly the window it read |
| `DataOperations.PutU16MsbfOfMade` | Inc/DataOperations.h:112-116 | the MSBF layout of the value `makeU16_MSBF` reads is exactly the window it read |
| `DataOperations.UnchangedWhenWindowRestored` | Inc/DataOperations.h:45-116 | the frame helper that all four puts share: a write that touches only its window and leaves the window's old bytes there leaves the whole buffer as it was |
| `Harness.ZeroedBuffer` | src/main.c:89-90 | a fresh buffer of 10 zero bytes |
| `Harness.TestU32Lsbf` | src/main.c:87-112 | on a zeroed 10-byte buffer, putting 125120100 LSBF at offset 0 leaves `[100, 46, 117, 7, 0, ...]`, and making it back gives 125120100 |
| `Harness.TestU32Msbf` | src/main.c:118-143 | the same with MSBF: the buffer holds `[7, 117, 46, 100, 0, ...]`, and making it back gives 125120100 |
| `Harness.TestU16Lsbf` | src/main.c:149-175 | putting 10526 LSBF leaves `[30, 41, 0, ...]`, and making it back gives 10526 |
| `Harness.TestU16Msbf` | src/main.c:181-206 | putting 10526 MSBF leaves `[41, 30, 0, ...]`, and making it back gives 10526 |
| `Harness.SampleLayouts` | src/main.c:18-20 | the layouts of the two sample values in both orders; the LSBF and MSBF layouts of 125120100 differ |
| `Harness.RoundTripU32Lsbf` | Inc/DataOperations.h:132-142 | `putU32_LSBF` then `makeU32_LSBF` at any in-bounds offset returns the value put; the window afterwards holds the LSBF layout of that value, and every other byte is unchanged |
| `Harness.RoundTripU32Msbf` | Inc/DataOperations.h:157-166 | `putU32_MSBF` then `makeU32_MSBF` at any in-bounds offset returns the value put; the window afterwards holds the MSBF layout of that value, and every other byte is unchanged |
| `Harness.RoundTripU16Lsbf` | Inc/DataOperations.h:181-189 | `putU16_LSBF` then `makeU16_LSBF` at any in-bounds offset returns the value put; the window afterwards holds the LSBF layout of that value, and every other byte is unchanged |
| `Harness.RoundTripU16Msbf` | Inc/DataOperations.h:204-213 | `putU16_MSBF` then `makeU16_MSBF` at any in-bounds offset returns the value put; the window afterwards holds the MSBF layout of that value, and every other byte is unchanged |
| `Harness.RewriteU32Lsbf` | Inc/DataOperations.h:45-51 | making a value with `makeU32_LSBF` and putting it back with `putU32_LSBF` leaves the whole buffer unchanged |
| `Harness.RewriteU32Msbf` | Inc/DataOperations.h:68-74 | making a value with `makeU32_MSBF` and putting it back with `putU32_MSBF` leaves the whole buffer unchanged |
| `Harness.RewriteU16Lsbf` | Inc/DataOperations.h:91-95 | making a value with `makeU16_LSBF` and putting it back with `putU16_LSBF` leaves the whole buffer unchanged |
| `Harness.RewriteU16Msbf` | Inc/DataOperations.h:112-116 | making a value with `makeU16_MSBF` and putting it back with `putU16_MSBF` leaves the whole buffer unchanged |

## Left out

- Out-of-bounds access: the code does not check bounds, so an out-of-range offset becomes a precondition (`offset + width <= buffer.Length`). There is no out-of-bounds error result, because the source has none.
- Signed overflow in the makes: each byte is promoted to `int` before it is shifted. With a 32-bit `int`, as on the usual targets, the shift left by 24 in `makeU32_LSBF` and `makeU32_MSBF` is undefined behaviour when the byte is 128 or more. With a 16-bit `int`, the shifts by 16 and 24 in the 32-bit makes are undefined for every byte value. So is the shift by 8 in `makeU16_LSBF` and `makeU16_MSBF` when the byte is 128 or more. The model uses the intended unbounded arithmetic, and the result always fits in the result's width.
- The fixed-point "F16" encoder and decoder: they are not in the header, and they depend on floating-point truncation.
- `printBuffer`, `main` and the console output of the `test_*` functions in `src/main.c`: they are console I/O. The sample values and the comparison outcome are modelled by the `Harness.Test*` methods, which return the buffer contents and the comparison result instead of printing them.
- Host endianness, `static inline` and the header guard have no meaning in the model.
- The caller owns the buffer, and nothing in the codec synchronises access to it. Concurrent use of the buffer is not modelled.
