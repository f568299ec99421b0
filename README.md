# A verified model of the Loyc core: SyncBinary, slices, CPTrie, DictionaryBase, UsingMulti and the LES and EC# lexers

This project models, in Dafny, the core pieces of the Loyc libraries (the
`ecsharp` repository) and proves what each of them promises.

- **SyncBinary integer codec** (`binary_format.dfy`, `binary_writer.dfy`,
  `binary_reader.dfy`, `binary_roundtrip.dfy`).
  - The wire format is written as pure functions. A value that fits is stored
    in 1 to 5 bytes with a leading-ones tag. A larger one uses the large
    format: a `0xFE` tag, a length prefix and the big-endian bytes. `0xFF`
    stands for null.
  - `WriterState` appends to its output and packs bitfields.
  - `ReaderState` reads through a window over the input, either one block or
    the blocks a scanner delivers, and latches the first fatal error.
  - Both classes are proved against the functions. The round-trip lemmas say
    what every written value reads back as.
- **String and list slices** (`ustring.dfy`, `ranges.dfy`, `array_slice.dfy`,
  `slice.dfy`, `reversed_list.dfy`).
  - `UString` is a UTF-16 slice that is also a range of code points, with
    search, comparison and replacement.
  - `ArraySlice` is a window onto a shared array. `Slice_` is a window onto a
    read-only list. `ReversedListSource` shows a list back to front.
- **CPTrie** (`cptrie.dfy`).
  - The key encoding between strings and trie bytes, and its inverse.
  - The entry count the trie keeps next to its root node.
  - The range check of `CPByteTrie`.
- **DictionaryBase** (`base_dictionary.dfy`): the members a dictionary
  inherits, defined over the map its abstract members stand for.
- **The UsingMulti macro of LeMP** (`using_multi.dfy`): expands
  `using A(.B, .C);` into one `using` per namespace.
  Names are produced and merged lazily, one at a time, so the note on a
  malformed name is for the first one enumeration meets.
- **The LES lexer and the EC# lexer** (`lexer_core.dfy`, `number_syntax.dfy`,
  `les_lexer.dfy`, `les_properties.dfy`, `ecs_tokens.dfy`, `ecs_operators.dfy`,
  `ecs_keywords.dfy`, `ecs_lexer.dfy`, `ecs_properties.dfy`).
  - Each generated recognition rule is a function of the input and a
    position.
  - The lexer classes run those rules over a cursor, on the same fields as
    the generated code, and are proved against the functions.
  - The property lemmas cover number syntax and suffixes, the longest-match
    operator switch, keywords and `#` directives under `AllowPP`, nested
    comments, and the extent of every token.

`wrappers.dfy` holds `Option` and `Result`. These stand for C# nullable
values and for thrown exceptions. Every error path of the source is a
`Result` error.

C# integer widths appear as explicit casts (`BinaryFormat.Cast`) wherever the
source relies on wrap-around. A C# `char` is a UTF-16 code unit
(`Chars.Char16`), so unpaired surrogates can be represented.

Where the code does something its names or comments do not promise, the
model follows the code, and a lemma shows the behaviour:

- `Write(int)` writes 64..127 in one byte, which reads back negative
  (`BinaryRoundTrip.WriteInt32TopOfOneByteTier`).
- A negative 5-byte `int` carries the null tag
  (`BinaryRoundTrip.LargeNegativeInt32ReadsNull`).
- `Write(long)` keeps only the low 32 bits
  (`BinaryRoundTrip.WriteInt64DropsHighBits`).
- `Write(ulong)` writes nothing at all, not even a tag, for values from 2^49
  up to 2^56, and only the `0xFE` tag, with no length and no digits, from
  2^56 on (`BinaryRoundTrip.LargeUInt64NotWritten`).
- The reader's large format advances the cursor twice
  (`BinaryRoundTrip.LargeFormatAdvancesTwice`).
- A large number of length zero reads ahead
  (`BinaryRoundTrip.ZeroLengthReadsAhead`).
- The last partial byte of a bitfield repeats low bits
  (`SyncBinaryWriter.BitfieldTailRepeatsLowBits`).
- A bitfield of 2^31 bits or more writes no middle bytes, because
  `(int)bitfieldSize >> 3` is negative (`SyncBinaryWriter.BitfieldHugeSize`).
- `UString`'s code-point decoder ignores its index, so `Back` is the front
  code point, and it decodes a surrogate pair without removing the
  surrogate bits (see Findings).
- `CPByteTrie.TryAdd(key, offset, length, value)` ignores the range it is
  given and uses the whole buffer (`CPTries.CPTrie.TryAddIgnoringRange`).
- `BinDigits` takes a `_` that no binary digit follows, and reports the
  failed `Match` (`LexerCore.BinTrailingUnderscore`).
- The EC# operator switch commits to `?|=>` after three characters
  (`EcsOperators.OperatorLookaheadGap`).
- The EC# lexer has no `>>` operator (`EcsOperators.ShiftIsTwoGreater`).

The five cases where the evident intent could be stated and proved are under
Findings.

## Model

| member | source | states |
|---|---|---|
| BinaryFormat.Cast | Core/Loyc.Essentials/SyncLib/Binary/SyncBinary.ReaderState.cs:479-506 | an unchecked cast keeps the value modulo the type's modulus and lands in the type's range; a value already in range is unchanged |
| BinaryFormat.MsbPos | Core/Loyc.Essentials/SyncLib/Binary/SyncBinary.WriterState.cs:197-205 | the highest one-bit position: -1 exactly for 0, otherwise 2^p <= x < 2^(p+1) |
| BinaryFormat.MsbPosBelow | Core/Loyc.Essentials/SyncLib/Binary/SyncBinary.WriterState.cs:197-205 | the highest one-bit is below e exactly when x < 2^e (the writer's tier tests) |
| BinaryFormat.LeadingZeroCount32 | Core/Loyc.Essentials/SyncLib/Binary/SyncBinary.ReaderState.cs:548 | BitOperations.LeadingZeroCount of a 32-bit value lies in 0..32 |
| BinaryFormat.LeadingOneCountIs | Core/Loyc.Essentials/SyncLib/Binary/SyncBinary.ReaderState.cs:524-550 | LeadingOneCount (the BitOperations branch) of every byte range: 0 below 0x80, 1 for 10xxxxxx, ... 7 for 0xFE, 8 for 0xFF |
| BinaryFormat.BigEndianAppend | Core/Loyc.Essentials/SyncLib/Binary/SyncBinary.ReaderState.cs:436-445 | a big-endian byte string splits into high digits (the prefix) and low digits (the suffix) |
| BinaryFormat.BigEndianPrefix | Core/Loyc.Essentials/SyncLib/Binary/SyncBinary.ReaderState.cs:387-394 | reading 8 bytes and shifting out the unwanted low ones leaves the value of the first k bytes |
| BinaryFormat.OneByte32 | Core/Loyc.Essentials/SyncLib/Binary/SyncBinary.WriterState.cs:197-205 | a value below 0x80 is written as itself in one byte |
| BinaryFormat.EncodeSignedOrUnsigned32 | Core/Loyc.Essentials/SyncLib/Binary/SyncBinary.WriterState.cs:197-246 | WriteSignedOrUnsigned(uint, uint) emits 1 to 5 bytes |
| BinaryFormat.Tier32 | Core/Loyc.Essentials/SyncLib/Binary/SyncBinary.WriterState.cs:201-239 | the number of bytes after the tag is the least k with room for the highest one-bit (7k + 7 bits) |
| BinaryFormat.EncodeFive32 | Core/Loyc.Essentials/SyncLib/Binary/SyncBinary.WriterState.cs:205-212 | a highest one-bit at 28 or more gives the tag (0xF0 for num == nonNegative, otherwise 0xFF) and 4 big-endian bytes |
| BinaryFormat.EncodeTier32 | Core/Loyc.Essentials/SyncLib/Binary/SyncBinary.WriterState.cs:213-245 | below that, the 32-bit encoder emits exactly one small-format tier, TierBytes(k, num) |
| BinaryFormat.EncodeSignedOrUnsigned64 | Core/Loyc.Essentials/SyncLib/Binary/SyncBinary.WriterState.cs:266-331 | WriteSignedOrUnsigned(ulong, ulong) moves `_i` past at most 7 bytes (the large form fills the span but does not advance past it) |
| BinaryFormat.Int32FastPath | Core/Loyc.Essentials/SyncLib/Binary/SyncBinary.WriterState.cs:181-182 | `(uint)num < 64` on an int is 0 <= num < 64, and `(byte)num` is num there |
| BinaryFormat.SignExtendBytes | Core/Loyc.Essentials/SyncLib/Binary/SyncBinary.ReaderState.cs:372-377 | `number << shift >> shift` keeps a long in the long range |
| BinaryFormat.TagLength | Core/Loyc.Essentials/SyncLib/Binary/SyncBinary.ReaderState.cs:302 | a small-format tag announces 1 to 6 further bytes |
| BinaryFormat.TagLengthIsLeadingOneCount | Core/Loyc.Essentials/SyncLib/Binary/SyncBinary.ReaderState.cs:302 | the tag length is what LeadingOneCount computes for every tag 0x80..0xFD (also lines 524-550) |
| BinaryFormat.DecodeIntOrNullWith | Core/Loyc.Essentials/SyncLib/Binary/SyncBinary.ReaderState.cs:273-336 | a successful decode of a non-tag first byte gives a value, never null, and consumes 1 to |s| bytes |
| BinaryFormat.FastRemaining | Core/Loyc.Essentials/SyncLib/Binary/SyncBinary.ReaderState.cs:387-394 | the fast path's shifted 8-byte read is the big-endian value of the first size bytes; a size of 0 (shift masked to 0) keeps all 8 |
| BinaryFormat.FastRemainingShift | Core/Loyc.Essentials/SyncLib/Binary/SyncBinary.ReaderState.cs:392 | the same fact for the shift count `((8 - size) << 3)` masked to 6 bits |
| BinaryFormat.LargeFormatIs | Core/Loyc.Essentials/SyncLib/Binary/SyncBinary.ReaderState.cs:338-356 | once the length prefix decodes as a uint, the large format is the size checks on `(int)` of it, from past the prefix |
| BinaryFormat.LargeFormatPrefixErr | Core/Loyc.Essentials/SyncLib/Binary/SyncBinary.ReaderState.cs:353 | an error in the length prefix is the large format's error |
| BinaryFormat.RemainingBigEndian | Core/Loyc.Essentials/SyncLib/Binary/SyncBinary.ReaderState.cs:382-409 | ReadRemainingBytesAsBigEndian is the big-endian value of the next size bytes, both paths; size 0 reads 8 bytes ahead when they are loaded, 0 otherwise |
| BinaryFormat.ReadNormalInt | Core/Loyc.Essentials/SyncLib/Binary/SyncBinary.ReaderState.cs:208-216 | a value read is in the target's range; null is an error unless it reads as default 0 (also lines 419-425) |
| BinaryFormat.ReadSmallIntOrNull | Core/Loyc.Essentials/SyncLib/Binary/SyncBinary.ReaderState.cs:228-249 | a value read is in the narrow target's range (checked, or truncated when allowed) (also lines 494-506) |
| BinaryFormat.ReadSmallInt | Core/Loyc.Essentials/SyncLib/Binary/SyncBinary.ReaderState.cs:251-269 | the same, with null handled as in ReadNormalInt |
| BinaryRoundTrip.BigEndianLowBytes | Core/Loyc.Essentials/SyncLib/Binary/SyncBinary.WriterState.cs:213-245 | the k bytes the writer emits read back as the value modulo 2^(8k) |
| BinaryRoundTrip.TierTag | Core/Loyc.Essentials/SyncLib/Binary/SyncBinary.ReaderState.cs:302-305 | the tag the writer emits for k further bytes makes the reader expect exactly k, and keeps its payload bits |
| BinaryRoundTrip.TierValue | Core/Loyc.Essentials/SyncLib/Binary/SyncBinary.ReaderState.cs:305-313 | tag bits above the body reassemble the number's low 7k + 7 bits, two's complement for signed readers |
| BinaryRoundTrip.TierRoundTrip | Core/Loyc.Essentials/SyncLib/Binary/SyncBinary.ReaderState.cs:273-325 | any small-format tier decodes to TierNumber cast to the target and consumes exactly its k + 1 bytes, whatever follows |
| BinaryRoundTrip.MultiByteDecode | Core/Loyc.Essentials/SyncLib/Binary/SyncBinary.ReaderState.cs:300-325 | a tag with k further bytes decodes to the cast of the number its bits stand for, absent an overflow error |
| BinaryRoundTrip.UnsignedTier | Core/Loyc.Essentials/SyncLib/Binary/SyncBinary.ReaderState.cs:300-325 | k further bytes carry every unsigned value below 2^(7k+7) exactly |
| BinaryRoundTrip.RoundTripUInt32 | Core/Loyc.Essentials/SyncLib/Binary/SyncBinary.WriterState.cs:188-246 | Write(uint) read back as uint or ulong: the value, and exactly the bytes written are consumed |
| BinaryRoundTrip.UInt32Tier | Core/Loyc.Essentials/SyncLib/Binary/SyncBinary.WriterState.cs:191-194 | outside the fast path Write(uint) is one tier with room for the value (also lines 213-245) |
| BinaryRoundTrip.RoundTripUInt64 | Core/Loyc.Essentials/SyncLib/Binary/SyncBinary.WriterState.cs:257-331 | Write(ulong) below 2^49 read back as ulong: the value and its exact length |
| BinaryRoundTrip.Encode64Shape | Core/Loyc.Essentials/SyncLib/Binary/SyncBinary.WriterState.cs:266-300 | between 2^32 and 2^49 the 64-bit encoder uses a 5-, 6- or 7-byte tier with room for the value |
| BinaryRoundTrip.LargeUInt64NotWritten | Core/Loyc.Essentials/SyncLib/Binary/SyncBinary.WriterState.cs:276-293 | from 2^49 on, Write(ulong) advances past nothing but (from 2^56) the 0xFE tag |
| BinaryRoundTrip.WriteInt32ReadBack | Core/Loyc.Essentials/SyncLib/Binary/SyncBinary.WriterState.cs:178-246 | Write(int) read as int or long: the value's low 7 * length bits wrapped to two's complement below 2^28, the value itself in the 5-byte positive form, a null in the 5-byte negative form |
| BinaryRoundTrip.SignedTier | Core/Loyc.Essentials/SyncLib/Binary/SyncBinary.ReaderState.cs:305-313 | a signed reader gets the wrapped low 7k + 7 bits of the written value |
| BinaryRoundTrip.FiveByteInt32 | Core/Loyc.Essentials/SyncLib/Binary/SyncBinary.WriterState.cs:205-212 | the 5-byte form reads back exactly for non-negative ints and as a null tag for negative ones |
| BinaryRoundTrip.WriteInt32TopOfOneByteTier | Core/Loyc.Essentials/SyncLib/Binary/SyncBinary.WriterState.cs:181-184 | Write(int) of 64..127 emits one byte that reads back as v - 128 (64 reads back as -64) (also line 240) |
| BinaryRoundTrip.OneByteRead | Core/Loyc.Essentials/SyncLib/Binary/SyncBinary.ReaderState.cs:281-293 | a byte below 0x80 is read alone: as itself unsigned, sign-extended from bit 6 signed |
| BinaryRoundTrip.LargeNegativeInt32ReadsNull | Core/Loyc.Essentials/SyncLib/Binary/SyncBinary.WriterState.cs:207 | a negative int of 29 or more significant bits is written behind 0xFF and reads as an unconsumed null |
| BinaryRoundTrip.WriteInt64Low32Bits | Core/Loyc.Essentials/SyncLib/Binary/SyncBinary.WriterState.cs:247-255 | Write(long) depends only on the low 32 bits and the sign |
| BinaryRoundTrip.WriteInt64AsInt32 | Core/Loyc.Essentials/SyncLib/Binary/SyncBinary.WriterState.cs:247-255 | on the int range Write(long) writes what Write(int) writes |
| BinaryRoundTrip.WriteInt64DropsHighBits | Core/Loyc.Essentials/SyncLib/Binary/SyncBinary.WriterState.cs:253 | a positive long with zero low 32 bits is written as 0 and reads back as 0 |
| BinaryRoundTrip.NullIsNotConsumed | Core/Loyc.Essentials/SyncLib/Binary/SyncBinary.ReaderState.cs:327-330 | 0xFF decodes as null with the cursor left on it |
| BinaryRoundTrip.LargeFormatAdvancesTwice | Core/Loyc.Essentials/SyncLib/Binary/SyncBinary.ReaderState.cs:369-370 | FE 01 05 decodes to 5 but moves the cursor 4 bytes, one past the number (also line 393) |
| BinaryRoundTrip.ZeroLengthReadsAhead | Core/Loyc.Essentials/SyncLib/Binary/SyncBinary.ReaderState.cs:387-394 | a zero-length large number with 8 bytes loaded reads the next 8 bytes as its value without consuming them |
| BinaryRoundTrip.ZeroLengthWithoutLookahead | Core/Loyc.Essentials/SyncLib/Binary/SyncBinary.ReaderState.cs:396-409 | the same number without 8 bytes loaded reads as 0 |
| SyncBinaryWriter.LittleEndianRoundTrip | Core/Loyc.Essentials/SyncLib/Binary/SyncBinary.WriterState.cs:368-386 | the bytes WriteLittleEndianBytes emits read back, least significant first, as num modulo 2^(8k) |
| SyncBinaryWriter.BitfieldAccounting | Core/Loyc.Essentials/SyncLib/Binary/SyncBinary.WriterState.cs:463-496 | after WriteBitfield, `_bitfieldBitsLeftInByte` is below 8, nonzero only with a byte written, and, for a size below 2^31, the bits used are the bytes' bits minus the unused top bits |
| SyncBinaryWriter.BitfieldRunAccounting | Core/Loyc.Essentials/SyncLib/Binary/SyncBinary.WriterState.cs:463-496 | a run of fields, each below 2^31 bits, from a byte boundary emits exactly ceil(total bits / 8) bytes |
| SyncBinaryWriter.BitfieldRunOfWholeBytes | Core/Loyc.Essentials/SyncLib/Binary/SyncBinary.WriterState.cs:463-496 | fields below 2^31 bits each, summing to whole bytes, end on a byte boundary with total / 8 bytes |
| SyncBinaryWriter.BitfieldHugeSize | Core/Loyc.Essentials/SyncLib/Binary/SyncBinary.WriterState.cs:482-492 | a remaining size of 2^31 bits or more casts to a negative middle-byte count, so no middle byte is written and only the tail byte, if any, follows |
| SyncBinaryWriter.BitfieldHugeExample | Core/Loyc.Essentials/SyncLib/Binary/SyncBinary.WriterState.cs:482-492 | WriteBitfield(0, 0x80000000) at a byte boundary writes nothing |
| SyncBinaryWriter.BitfieldFitsInLastByte | Core/Loyc.Essentials/SyncLib/Binary/SyncBinary.WriterState.cs:467-472 | a field that fits in the last byte's unused bits is ORed in at bit 8 - bitsLeft and emits nothing |
| SyncBinaryWriter.BitfieldSpills | Core/Loyc.Essentials/SyncLib/Binary/SyncBinary.WriterState.cs:473-494 | a field that does not fit leaves 8 - (rest mod 8) bits, or 0, and a fresh last byte uses only its low bits |
| SyncBinaryWriter.BitfieldTailRepeatsLowBits | Core/Loyc.Essentials/SyncLib/Binary/SyncBinary.WriterState.cs:485 | the tail byte reuses the value's low bits: a 12-bit 0x100 is written 00 00, not 00 01 (also line 492) |
| SyncBinaryWriter.StringLengthIsUInt32 | Core/Loyc.Essentials/SyncLib/Binary/SyncBinary.WriterState.cs:453 | the string length prefix is what Write(uint) writes |
| SyncBinaryWriter.StringLengthReadsBack | Core/Loyc.Essentials/SyncLib/Binary/SyncBinary.WriterState.cs:441-462 | the length prefix reads back as the UTF-8 byte count, leaving the cursor at the first string byte |
| SyncBinaryWriter.WriterState.constructor | Core/Loyc.Essentials/SyncLib/Binary/SyncBinary.WriterState.cs:31-35 | nothing written, no bitfield bits left |
| SyncBinaryWriter.WriterState.GetOutSpan | Core/Loyc.Essentials/SyncLib/Binary/SyncBinary.WriterState.cs:39-44 | reserving space writes nothing and ends any bitfield |
| SyncBinaryWriter.WriterState.WriteNull | Core/Loyc.Essentials/SyncLib/Binary/SyncBinary.WriterState.cs:65-69 | appends 0xFF |
| SyncBinaryWriter.WriterState.WriteBool | Core/Loyc.Essentials/SyncLib/Binary/SyncBinary.WriterState.cs:70-74 | appends 1 or 0 |
| SyncBinaryWriter.WriterState.WriteNullableBool | Core/Loyc.Essentials/SyncLib/Binary/SyncBinary.WriterState.cs:75-80 | appends 0xFF for null, else the bool byte |
| SyncBinaryWriter.WriterState.WriteNullable | Core/Loyc.Essentials/SyncLib/Binary/SyncBinary.WriterState.cs:81-144 | appends 0xFF for null, else what Write of the value's overload appends |
| SyncBinaryWriter.WriterState.WriteInt32 | Core/Loyc.Essentials/SyncLib/Binary/SyncBinary.WriterState.cs:178-186 | appends EncodeInt32(num), whose read-back WriteInt32ReadBack states |
| SyncBinaryWriter.WriterState.WriteUInt32 | Core/Loyc.Essentials/SyncLib/Binary/SyncBinary.WriterState.cs:188-195 | appends EncodeUInt32(num), which RoundTripUInt32 reads back |
| SyncBinaryWriter.WriterState.WriteInt64 | Core/Loyc.Essentials/SyncLib/Binary/SyncBinary.WriterState.cs:247-255 | appends EncodeInt64(num) |
| SyncBinaryWriter.WriterState.WriteUInt64 | Core/Loyc.Essentials/SyncLib/Binary/SyncBinary.WriterState.cs:257-264 | appends EncodeUInt64(num), which RoundTripUInt64 reads back |
| SyncBinaryWriter.WriterState.WriteSignedOrUnsigned32 | Core/Loyc.Essentials/SyncLib/Binary/SyncBinary.WriterState.cs:197-246 | appends the 32-bit encoding, ending any bitfield |
| SyncBinaryWriter.WriterState.WriteSignedOrUnsigned64 | Core/Loyc.Essentials/SyncLib/Binary/SyncBinary.WriterState.cs:266-331 | appends the 64-bit encoding as far as `_i` moves |
| SyncBinaryWriter.WriterState.WriteLittleEndianBytes | Core/Loyc.Essentials/SyncLib/Binary/SyncBinary.WriterState.cs:368-369 | appends numBytes bytes of num, least significant first (also lines 377-378) |
| SyncBinaryWriter.WriterState.WriteLittleEndianBytesTo | Core/Loyc.Essentials/SyncLib/Binary/SyncBinary.WriterState.cs:370-376 | the loop that shifts num and counts numBytes down appends LittleEndian(num, numBytes) (also lines 379-386) |
| SyncBinaryWriter.WriterState.WriteString | Core/Loyc.Essentials/SyncLib/Binary/SyncBinary.WriterState.cs:441-462 | appends the optional '[' marker, the length prefix, the UTF-8 bytes and the optional ']' |
| SyncBinaryWriter.WriterState.OrIntoLast | Core/Loyc.Essentials/SyncLib/Binary/SyncBinary.WriterState.cs:471 | ORs a byte into the last byte written, the others unchanged (also line 474) |
| SyncBinaryWriter.WriterState.WriteBitfield | Core/Loyc.Essentials/SyncLib/Binary/SyncBinary.WriterState.cs:463-530 | the bytes and bits-left count are BitfieldWrite of the old ones, whose accounting lemmas are above |
| SyncBinaryWriter.Tiers32 | Core/Loyc.Essentials/SyncLib/Binary/SyncBinary.WriterState.cs:213-239 | the 2-, 3- and 4-byte forms carry tags 10xxxxxx, 110xxxxx, 1110xxxx above big-endian bytes |
| SyncBinaryReader.ScannerBlock | Core/Loyc.Essentials/SyncLib/Binary/SyncBinary.ReaderState.cs:126 | the scanner's block is the input from the requested position, of the requested length or all that is left |
| SyncBinaryReader.Latched | Core/Loyc.Essentials/SyncLib/Binary/SyncBinary.ReaderState.cs:585-589 | once a fatal error is recorded every new error is it |
| SyncBinaryReader.ReadRemainingBytesAsBigEndian | Core/Loyc.Essentials/SyncLib/Binary/SyncBinary.ReaderState.cs:382-397 | the next size bytes as a big-endian number and the cursor past them; size 0 reads 8 ahead on the fast path |
| SyncBinaryReader.ReadInLoop | Core/Loyc.Essentials/SyncLib/Binary/SyncBinary.ReaderState.cs:399-408 | the loop accumulates the big-endian value of the bytes it passes |
| SyncBinaryReader.RawAgrees | Core/Loyc.Essentials/SyncLib/Binary/SyncBinary.ReaderState.cs:382-397 | what the reader reads from its window equals what the pure decoder reads from the input |
| SyncBinaryReader.SmallFormatIgnoresWindow | Core/Loyc.Essentials/SyncLib/Binary/SyncBinary.ReaderState.cs:276-325 | below the 0xFE tag the window plays no part and the result is never null |
| SyncBinaryReader.ReaderState.FromBytes | Core/Loyc.Essentials/SyncLib/Binary/SyncBinary.ReaderState.cs:25-29 | the whole input is loaded, cursor at 0, no fatal error |
| SyncBinaryReader.ReaderState.FromScanner | Core/Loyc.Essentials/SyncLib/Binary/SyncBinary.ReaderState.cs:19-23 | nothing is loaded yet |
| SyncBinaryReader.ReaderState.NewError | Core/Loyc.Essentials/SyncLib/Binary/SyncBinary.ReaderState.cs:581-606 | returns the recorded fatal error if any, else the new one, recording it when fatal |
| SyncBinaryReader.ReaderState.ReadMoreBytes | Core/Loyc.Essentials/SyncLib/Binary/SyncBinary.ReaderState.cs:117-134 | without a scanner fails at once; with one, drops min(cur, ObjectStartIndex) bytes, reloads at least max(required, 32), and succeeds exactly when the input has the bytes |
| SyncBinaryReader.ReaderState.AutoRead | Core/Loyc.Essentials/SyncLib/Binary/SyncBinary.ReaderState.cs:106-115 | true at once when the bytes are loaded; otherwise ReadMoreBytes decides; the stream position of the cursor is kept |
| SyncBinaryReader.ReaderState.ExpectBytes | Core/Loyc.Essentials/SyncLib/Binary/SyncBinary.ReaderState.cs:96-100 | no error exactly when the bytes are there; otherwise the (latched) end-of-data error (also lines 570-571) |
| SyncBinaryReader.ReaderState.MaybeThrowIntegerOverflowIf | Core/Loyc.Essentials/SyncLib/Binary/SyncBinary.ReaderState.cs:557-569 | an overflow is an error unless truncation is allowed |
| SyncBinaryReader.ReaderState.ExpectZeroes | Core/Loyc.Essentials/SyncLib/Binary/SyncBinary.ReaderState.cs:411-417 | an error exactly when a byte of the span is not 0 |
| SyncBinaryReader.ReaderState.UnexpectedNull | Core/Loyc.Essentials/SyncLib/Binary/SyncBinary.ReaderState.cs:419-425 | 0 when nulls may read as default, the unexpected-null error otherwise |
| SyncBinaryReader.ReaderState.ReadNormalInt | Core/Loyc.Essentials/SyncLib/Binary/SyncBinary.ReaderState.cs:208-216 | the value the pure ReadNormalInt gives at the cursor, the cursor committed after a decode and kept after a decoding error |
| SyncBinaryReader.ReaderState.ReadNormalIntOrNull | Core/Loyc.Essentials/SyncLib/Binary/SyncBinary.ReaderState.cs:218-225 | the value or null DecodeIntOrNull gives at the cursor, committed |
| SyncBinaryReader.ReaderState.ReadSmallIntOrNull | Core/Loyc.Essentials/SyncLib/Binary/SyncBinary.ReaderState.cs:228-249 | the pure ReadSmallIntOrNull at the cursor, the range checked before the commit |
| SyncBinaryReader.ReaderState.ReadSmallInt | Core/Loyc.Essentials/SyncLib/Binary/SyncBinary.ReaderState.cs:251-269 | the pure ReadSmallInt at the cursor |
| SyncBinaryReader.ReaderState.DecodeIntOrNull | Core/Loyc.Essentials/SyncLib/Binary/SyncBinary.ReaderState.cs:273-336 | the reader's decode agrees with the pure DecodeIntOrNullWith on the input at that position: value, error and distance moved |
| SyncBinaryReader.ReaderState.ReadMultiByte | Core/Loyc.Essentials/SyncLib/Binary/SyncBinary.ReaderState.cs:300-324 | the small format after its tag agrees with DecodeMultiByte |
| SyncBinaryReader.ReaderState.DecodeLargeFormatInt64 | Core/Loyc.Essentials/SyncLib/Binary/SyncBinary.ReaderState.cs:338-351 | the tag and the first prefix byte (which must not be a tag) agree with the pure large format |
| SyncBinaryReader.ReaderState.ReadLengthPrefixed | Core/Loyc.Essentials/SyncLib/Binary/SyncBinary.ReaderState.cs:353-357 | the prefix and its size checks agree with the pure large format |
| SyncBinaryReader.ReaderState.ReadLargeBody | Core/Loyc.Essentials/SyncLib/Binary/SyncBinary.ReaderState.cs:359-367 | the number's bytes, with the zero check beyond 8, agree with LargeBody |
| SyncBinaryReader.ReaderState.ReadLargeLow | Core/Loyc.Essentials/SyncLib/Binary/SyncBinary.ReaderState.cs:369-378 | the last bytes, the double advance and the sign extension agree with LargeBody |
| BinaryRoundTrip.SameAs32Bit | Core/Loyc.Essentials/SyncLib/Binary/SyncBinary.WriterState.cs:257-275 | below 2^32 Write(ulong) writes exactly what Write(uint) writes |
| BinaryRoundTrip.RoundTripUInt64Above32 | Core/Loyc.Essentials/SyncLib/Binary/SyncBinary.WriterState.cs:266-300 | from 2^32 to 2^49 Write(ulong) reads back as the value, consuming exactly what was written |
| BinaryRoundTrip.ShortInt32ReadBack | Core/Loyc.Essentials/SyncLib/Binary/SyncBinary.WriterState.cs:178-246 | the one- to four-byte forms of Write(int) read back as the value wrapped to a two's-complement number of 7 * length bits, consuming exactly the bytes written |
| BinaryRoundTrip.FiveBytePositive | Core/Loyc.Essentials/SyncLib/Binary/SyncBinary.ReaderState.cs:300-325 | the 5-byte positive form read as int or long is the value, 5 bytes consumed |
| UStrings.ConstructorRangeAsWritten | Src/Loyc.Essentials/Collections/HelperClasses/UString.cs:76-92 | the constructor as written fails exactly for a negative start or count (start checked first) |
| UStrings.StartPastEndAsWritten | Src/Loyc.Essentials/Collections/HelperClasses/UString.cs:83-89 | a start past the end of the string ends up at 2 * start - length, further past the end |
| UStrings.ConstructorRange | Src/Loyc.Essentials/Collections/HelperClasses/UString.cs:65-92 | the corrected constructor: the same errors; a start within the string keeps it and clamps the count to what is left; a start past the end gives an empty slice at the end; the slice always lies within the string |
| UStrings.DecodeFront | Src/Loyc.Essentials/Collections/HelperClasses/UString.cs:199-211 | a non-surrogate unit decodes as itself; a high-low surrogate pair as 0x10000 + high*1024 + low, the surrogate bits kept (not the pair's code point); anything else as the complement of the unit |
| UStrings.SurrogatePairAsWritten | Src/Loyc.Essentials/Collections/HelperClasses/UString.cs:208 | the pair D83D DE00 decodes to 0x362D200 rather than U+1F600, so searching for U+1F600 walks past it to the end |
| UStrings.PairCodePoint | Src/Loyc.Essentials/Collections/HelperClasses/UString.cs:205-208 | the code point a high-low surrogate pair stands for lies in 0x10000..0x10FFFF |
| UStrings.DecodeFrontIntended | Src/Loyc.Essentials/Collections/HelperClasses/UString.cs:199-211 | the decoder with the surrogate bits removed: same cases and same width as DecodeFront, a pair giving a code point of at most 0x10FFFF |
| UStrings.SurrogatePair | Src/Loyc.Essentials/Collections/HelperClasses/UString.cs:205-208 | the UTF-16 encoding of a supplementary code point is a high surrogate followed by a low one |
| UStrings.DecodePairIntended | Src/Loyc.Essentials/Collections/HelperClasses/UString.cs:205-208 | the corrected decoder inverts the surrogate-pair encoding of every supplementary code point |
| UStrings.Width | Src/Loyc.Essentials/Collections/HelperClasses/UString.cs:157 | PopFront and PopBack remove 1 or 2 code units (also line 170) |
| UStrings.WidthFits | Src/Loyc.Essentials/Collections/HelperClasses/UString.cs:152-175 | the code units removed are there to remove |
| UStrings.WalkFind | Src/Loyc.Essentials/Collections/HelperClasses/UString.cs:349-357 | the Find(uchar) loop stops where a code point equal to what starts, or at the end |
| UStrings.Search | Src/Loyc.Essentials/Collections/HelperClasses/UString.cs:361-383 | the first-occurrence search stays within the slice and a found occurrence fits in it |
| UStrings.SearchFound | Src/Loyc.Essentials/Collections/HelperClasses/UString.cs:376-381 | where the search stops short of the end, what occurs |
| UStrings.SearchFirst | Src/Loyc.Essentials/Collections/HelperClasses/UString.cs:376-381 | no earlier position holds an occurrence |
| UStrings.SearchIs | Src/Loyc.Essentials/Collections/HelperClasses/UString.cs:376-382 | the least occurrence is where the search stops |
| UStrings.SearchNone | Src/Loyc.Essentials/Collections/HelperClasses/UString.cs:382 | with no occurrence the search reaches the end |
| UStrings.ReplacedNothingFound | Src/Loyc.Essentials/Collections/HelperClasses/UString.cs:456-462 | with no occurrence Replace leaves the text as it is |
| UStrings.ReplacedOnce | Src/Loyc.Essentials/Collections/HelperClasses/UString.cs:481-484 | ReplaceOne replaces the first occurrence and nothing else |
| UStrings.ReplacedBySelf | Src/Loyc.Essentials/Collections/HelperClasses/UString.cs:456-480 | replacing a non-empty what by itself leaves the text as it is |
| UStrings.ReplaceStep | Src/Loyc.Essentials/Collections/HelperClasses/UString.cs:467-476 | a round of the Replace loop keeps the text built so far plus what is left to do equal to the final result |
| UStrings.ReplaceStop | Src/Loyc.Essentials/Collections/HelperClasses/UString.cs:472-474 | a round without a further match completes the result |
| UStrings.ReplaceLast | Src/Loyc.Essentials/Collections/HelperClasses/UString.cs:470-471 | the round after the last allowed replacement appends the rest and completes the result (also lines 477-479) |
| UStrings.UString.FromString | Src/Loyc.Essentials/Collections/HelperClasses/UString.cs:93-98 | UString(string) spans the whole string: start 0 and every code unit in Contents |
| UStrings.UString.Raw | Src/Loyc.Essentials/Collections/HelperClasses/UString.cs:99-106 | the unchecked constructor keeps the range it is given; its requires is the range the Debug.Assert demands |
| UStrings.UString.Contents | Src/Loyc.Essentials/Collections/HelperClasses/UString.cs:292 | the code units the slice spans, Count of them |
| UStrings.UString.InternalStop | Src/Loyc.Essentials/Collections/HelperClasses/UString.cs:115-118 | the index just past the slice: start + Count, within the string, the code units from start to it being the slice's |
| UStrings.UString.New | Src/Loyc.Essentials/Collections/HelperClasses/UString.cs:76-92 | the public constructor: the errors of ConstructorRange and the slice it gives |
| UStrings.UString.Copy | Src/Loyc.Essentials/Collections/HelperClasses/UString.cs:179 | Clone copies the struct |
| UStrings.UString.At | Src/Loyc.Essentials/Collections/HelperClasses/UString.cs:215-223 | this[index] is the code unit at index exactly when 0 <= index < Count, otherwise IndexOutOfRangeException |
| UStrings.UString.AtOr | Src/Loyc.Essentials/Collections/HelperClasses/UString.cs:224-241 | this[index, default] is the code unit or the default |
| UStrings.UString.TryGet | Src/Loyc.Essentials/Collections/HelperClasses/UString.cs:242-251 | fails exactly when this[index] would throw, otherwise gives the same unit |
| UStrings.UString.DecodeAt | Src/Loyc.Essentials/Collections/HelperClasses/UString.cs:199-211 | fails only for an empty slice and decodes the front whatever the index |
| UStrings.UString.Front | Src/Loyc.Essentials/Collections/HelperClasses/UString.cs:131-134 | fails exactly for an empty slice |
| UStrings.UString.Back | Src/Loyc.Essentials/Collections/HelperClasses/UString.cs:135-150 | as written Back is Front |
| UStrings.UString.PopFront | Src/Loyc.Essentials/Collections/HelperClasses/UString.cs:152-163 | fails exactly on an empty slice, leaving it; otherwise returns the front code point and drops its code units from the front |
| UStrings.UString.PopBack | Src/Loyc.Essentials/Collections/HelperClasses/UString.cs:165-175 | fails exactly on an empty slice; otherwise returns Back and drops as many code units from the back |
| UStrings.UString.Equals | Src/Loyc.Essentials/Collections/HelperClasses/UString.cs:274-282 | true exactly when the two slices hold the same code units |
| UStrings.UString.StartsWith | Src/Loyc.Essentials/Collections/HelperClasses/UString.cs:430-450 | true exactly when what's code units are a prefix of this slice's |
| UStrings.UString.EqualsAt | Src/Loyc.Essentials/Collections/HelperClasses/UString.cs:392-399 | true exactly when what occurs in the string at i |
| UStrings.UString.FindChar | Src/Loyc.Essentials/Collections/HelperClasses/UString.cs:345-349 | the slice from the first occurrence of the unit to the original end, or the empty slice at the end |
| UStrings.UString.FindUChar | Src/Loyc.Essentials/Collections/HelperClasses/UString.cs:328-359 | a value up to 0xFFFF is searched for as a (char) cast; a larger one by walking code points |
| UStrings.UString.FindCodePoint | Src/Loyc.Essentials/Collections/HelperClasses/UString.cs:351-358 | the walk stops where WalkFind says |
| UStrings.UString.Find | Src/Loyc.Essentials/Collections/HelperClasses/UString.cs:361-383 | the slice from the first occurrence of what to the original end, or the empty slice at the end; an empty what finds at once |
| UStrings.UString.FindLong | Src/Loyc.Essentials/Collections/HelperClasses/UString.cs:369-383 | the scan for a what of two or more units stops at Search's position |
| UStrings.UString.Substring | Src/Loyc.Essentials/Collections/HelperClasses/UString.cs:297-309 | fails exactly for a negative start; otherwise the clamped range of this slice, a negative count taken as 0 |
| UStrings.UString.SubstringFrom | Src/Loyc.Essentials/Collections/HelperClasses/UString.cs:310-317 | fails exactly for a negative start; otherwise the rest of this slice from the clamped start |
| UStrings.UString.Replace | Src/Loyc.Essentials/Collections/HelperClasses/UString.cs:456-480 | with no replacement allowed or no occurrence, this UString itself; otherwise the text ReplacedIn describes: up to maxReplacements occurrences, leftmost first and not overlapping, replaced |
| UStrings.UString.ReplaceRest | Src/Loyc.Essentials/Collections/HelperClasses/UString.cs:466-479 | the Replace loop after the first match completes the result |
| UStrings.UString.ReplaceNext | Src/Loyc.Essentials/Collections/HelperClasses/UString.cs:469-475 | one round of the loop: the next match, the text before it and the replacement appended |
| UStrings.UString.ReplaceOne | Src/Loyc.Essentials/Collections/HelperClasses/UString.cs:481-484 | Replace with at most one replacement |
| Ranges.ClampedCount | Core/Loyc.Essentials/Collections/Adapters/ArraySlice.cs:48-49 | the count kept is never more than requested nor (when positive) more than is left; a request that fits is kept, one that does not becomes what is left, or 0 |
| ArraySlices.ArraySlice.Contents | Core/Loyc.Essentials/Collections/Adapters/ArraySlice.cs:112-118 | the elements the slice spans, Count of them |
| ArraySlices.ArraySlice.FromArray | Core/Loyc.Essentials/Collections/Adapters/ArraySlice.cs:51-56 | ArraySlice(array) spans the whole array: start 0, Count the array's length, Contents the array's elements |
| ArraySlices.ArraySlice.Raw | Core/Loyc.Essentials/Collections/Adapters/ArraySlice.cs:43-45 | the fields take the array, start and count as given, once the checks have passed |
| ArraySlices.ArraySlice.New | Core/Loyc.Essentials/Collections/Adapters/ArraySlice.cs:41-50 | a negative start or count is an ArgumentException (start checked first); otherwise the start is kept and the count clamped to the elements left |
| ArraySlices.ArraySlice.At | Core/Loyc.Essentials/Collections/Adapters/ArraySlice.cs:112-118 | the element at index exactly when (uint)index < (uint)Count, otherwise IndexOutOfRangeException |
| ArraySlices.ArraySlice.AtOr | Core/Loyc.Essentials/Collections/Adapters/ArraySlice.cs:126-133 | the element or the default |
| ArraySlices.ArraySlice.TryGet | Core/Loyc.Essentials/Collections/Adapters/ArraySlice.cs:134-143 | the element exactly when the index is in range |
| ArraySlices.ArraySlice.First | Core/Loyc.Essentials/Collections/Adapters/ArraySlice.cs:66-70 | the first element, or the indexer's error on an empty slice |
| ArraySlices.ArraySlice.Last | Core/Loyc.Essentials/Collections/Adapters/ArraySlice.cs:71-75 | the last element, or the indexer's error on an empty slice |
| ArraySlices.ArraySlice.Set | Core/Loyc.Essentials/Collections/Adapters/ArraySlice.cs:119-124 | writes the shared array at start + index and nowhere else; out of range it writes nothing and throws |
| ArraySlices.ArraySlice.SetFirst | Core/Loyc.Essentials/Collections/Adapters/ArraySlice.cs:69 | writes the first element of the slice |
| ArraySlices.ArraySlice.SetLast | Core/Loyc.Essentials/Collections/Adapters/ArraySlice.cs:74 | writes the last element of the slice |
| ArraySlices.ArraySlice.PopFirst | Core/Loyc.Essentials/Collections/Adapters/ArraySlice.cs:78-87 | on an empty slice reports empty and changes nothing; otherwise returns the first element and drops it |
| ArraySlices.ArraySlice.PopLast | Core/Loyc.Essentials/Collections/Adapters/ArraySlice.cs:89-98 | on an empty slice reports empty and changes nothing; otherwise returns the last element and drops it |
| ArraySlices.ArraySlice.Slice | Core/Loyc.Essentials/Collections/Adapters/ArraySlice.cs:145-158 | a negative start throws; a negative count is 0; the result shares the array, starts at start + from and holds this slice's elements from there, cut to this slice |
| ArraySlices.ArraySlice.ToArray | Core/Loyc.Essentials/Collections/Adapters/ArraySlice.cs:160-166 | a new array holding the slice's elements in order |
| ListSlices.Slice_.Contents | Src/Loyc.Essentials/Collections/HelperClasses/Slice.cs:93-100 | the elements the slice spans, Count of them |
| ListSlices.Slice_.New | Src/Loyc.Essentials/Collections/HelperClasses/Slice.cs:32-41 | a negative start or count throws (start checked first); otherwise the start is kept and the count clamped to the elements left |
| ListSlices.Slice_.Raw | Src/Loyc.Essentials/Collections/HelperClasses/Slice.cs:34-36 | the fields take the list, start and count as given, once the checks have passed |
| ListSlices.Slice_.At | Src/Loyc.Essentials/Collections/HelperClasses/Slice.cs:93-100 | the element at index exactly when (uint)index < (uint)Count, otherwise ArgumentOutOfRangeException |
| ListSlices.Slice_.AtOr | Src/Loyc.Essentials/Collections/HelperClasses/Slice.cs:101-108 | the element or the default |
| ListSlices.Slice_.TryGet | Src/Loyc.Essentials/Collections/HelperClasses/Slice.cs:109-117 | the element exactly when the index is in range |
| ListSlices.Slice_.Front | Src/Loyc.Essentials/Collections/HelperClasses/Slice.cs:51-54 | the first element exactly when the slice is not empty, otherwise the indexer's ArgumentOutOfRangeException |
| ListSlices.Slice_.Back | Src/Loyc.Essentials/Collections/HelperClasses/Slice.cs:55-58 | the last element exactly when the slice is not empty, otherwise the indexer's ArgumentOutOfRangeException |
| ListSlices.Slice_.PopFront | Src/Loyc.Essentials/Collections/HelperClasses/Slice.cs:60-69 | on an empty slice reports empty and changes nothing; otherwise returns the first element and drops it |
| ListSlices.Slice_.PopBack | Src/Loyc.Essentials/Collections/HelperClasses/Slice.cs:70-79 | on an empty slice reports empty and changes nothing; otherwise returns the last element and drops it |
| ListSlices.Slice_.Slice | Src/Loyc.Essentials/Collections/HelperClasses/Slice.cs:120-131 | a negative start or count throws; the result shares the list, starts at start + from and holds this slice's elements from there, cut to this slice |
| ReversedLists.Reverse | Core/Loyc.Essentials/Collections/Adapters/ReversedListSource.cs:26-29 | the reversed sequence has the same length, element i being element Count - 1 - i of the original |
| ReversedLists.ReverseReverse | Core/Loyc.Essentials/Collections/Adapters/ReversedListSource.cs:26-29 | reversing twice gives back the sequence |
| ReversedLists.Count | Core/Loyc.Essentials/Collections/Adapters/ReversedListSource.cs:35-38 | the view has as many elements as the list it wraps |
| ReversedLists.AtItems | Core/Loyc.Essentials/Collections/Adapters/ReversedListSource.cs:26-29 | the indexer succeeds exactly for 0 <= index < Count and reads the elements the view shows, at every depth of nesting |
| ReversedLists.TryGetAt | Core/Loyc.Essentials/Collections/Adapters/ReversedListSource.cs:30-34 | TryGet fails exactly where the indexer throws and otherwise agrees with it |
| ReversedLists.ReversedTwiceItems | Core/Loyc.Essentials/Collections/Adapters/ReversedListSource.cs:19-29 | a reversed view of a reversed view shows the original list |
| ReversedLists.ReversedTwiceAt | Core/Loyc.Essentials/Collections/Adapters/ReversedListSource.cs:26-29 | ... and yields the original's result at every index, in range or not |
| CPTries.EncodeUnit | Src/Utilities/CPTrie/CPTrie.cs:56-66 | a code unit takes 1 byte below 0x80, 2 below 0x800, 3 otherwise |
| CPTries.EncodeKeyAppend | Src/Utilities/CPTrie/CPTrie.cs:54-67 | the key's bytes are the units' bytes one after another |
| CPTries.EncodeKeyAtMostThree | Src/Utilities/CPTrie/CPTrie.cs:41 | a key of n units takes at most 3n bytes, so 16 units fit the 48-byte scratch buffer (also line 69) |
| CPTries.EncodedLength | Src/Utilities/CPTrie/CPTrie.cs:38-47 | the exact-length loop computes the number of bytes the encoding loop writes |
| CPTries.PutUnit | Src/Utilities/CPTrie/CPTrie.cs:56-66 | one round of the encoding loop appends the unit's bytes and nothing else |
| CPTries.EncodeInto | Src/Utilities/CPTrie/CPTrie.cs:54-67 | the encoding loop writes exactly the key's bytes at the front of the buffer |
| CPTries.StringToBytes | Src/Utilities/CPTrie/CPTrie.cs:36-71 | the returned buffer always holds the whole key; the scratch buffer is created once and reused for every key of at most 16 units or at most 48 bytes; a longer key gets a new buffer of exactly its length |
| CPTries.BytesToStringBuilder | Src/Utilities/CPTrie/CPTrie.cs:85-108 | the decoding loop computes DecodeFrom as written, running out of bytes being IndexOutOfRange |
| CPTries.BytesToString | Src/Utilities/CPTrie/CPTrie.cs:75-83 | "" for length 0, the first byte as a char for length 1, the builder's string otherwise |
| CPTries.PrependAllStep | Src/Utilities/CPTrie/CPTrie.cs:88-106 | appending one more char to the builder commutes with the rest of the decoding |
| CPTries.DecodeUnit | Src/Utilities/CPTrie/CPTrie.cs:56-66 | each unit's bytes decode back to the unit with the two-byte formula and with the three-byte formula that uses all three bytes (also lines 91-105) |
| CPTries.DecodeEncodeFrom | Src/Utilities/CPTrie/CPTrie.cs:85-108 | the corrected decoder gives back every string, after any prefix; the decoder as written only strings without three-byte units |
| CPTries.DecodeEncode | Src/Utilities/CPTrie/CPTrie.cs:54-67 | the corrected decoder inverts StringToBytes on every string (also lines 85-108) |
| CPTries.KeyStringRoundTrip | Src/Utilities/CPTrie/CPTrie.cs:75-108 | BytesToString(StringToBytes(s)) == s for every s whose units are all below 0x800 |
| CPTries.ThreeByteAsWritten | Src/Utilities/CPTrie/CPTrie.cs:104 | U+0800 encodes as E0 A0 80 and decodes as written to U+0820 |
| CPTries.CheckAsWrittenOverflow | Src/Utilities/CPTrie/CPTrie.cs:466 | an offset of int.MaxValue with a length of 1 wraps and passes the check on an empty buffer |
| CPTries.CheckRange | Src/Utilities/CPTrie/CPTrie.cs:462-468 | the check passes exactly for a non-negative offset and length whose sum is within the buffer, the negative case reported first |
| CPTries.CheckAgrees | Src/Utilities/CPTrie/CPTrie.cs:462-468 | where the int addition does not wrap, the check as written is CheckRange |
| CPTries.CPTrie.constructor | Src/Utilities/CPTrie/CPTrie.cs:12 | a new trie is empty, count 0 (also lines 19-21) |
| CPTries.CPTrie.Set | Src/Utilities/CPTrie/CPTrie.cs:140-155 | reports whether the key existed and hands back its old value; the entries change as the mode says; the count goes up exactly when a missing key is created |
| CPTries.CPTrie.Lookup | Src/Utilities/CPTrie/CPTrie.cs:120-125 | finds exactly the present keys and hands back their values, changing nothing |
| CPTries.CPTrie.Remove | Src/Utilities/CPTrie/CPTrie.cs:157-167 | removes exactly a present key, handing back its value; the count goes down only then; the count is 0 exactly when the root is null |
| CPTries.CPTrie.Clear | Src/Utilities/CPTrie/CPTrie.cs:169-173 | no entries, count 0, root null |
| CPTries.CPTrie.AddRange | Src/Utilities/CPTrie/CPTrie.cs:423-429 | the range is checked first; a new key is added and counted; an existing key is the duplicate-key error and changes nothing |
| CPTries.CPTrie.TryAddRange | Src/Utilities/CPTrie/CPTrie.cs:455-460 | the range is checked first; a new key is added and true returned; an existing key returns false with its value |
| CPTries.CPTrie.TryAddIgnoringRange | Src/Utilities/CPTrie/CPTrie.cs:441-444 | as written the four-argument TryAdd adds the whole buffer as the key, whatever the offset and length |
| BaseDictionaries.DictionaryBase.constructor | Core/Loyc.Interfaces/Concrete/BaseDictionary.cs:15-17 | the derived dictionary starts from the map it is given |
| BaseDictionaries.DictionaryBase.Count | Core/Loyc.Interfaces/Concrete/BaseDictionary.cs:21 | the abstract Count is the number of entries |
| BaseDictionaries.DictionaryBase.TryGetValue | Core/Loyc.Interfaces/Concrete/BaseDictionary.cs:26 | the abstract TryGetValue finds exactly the present keys, with their values |
| BaseDictionaries.DictionaryBase.RemoveKey | Core/Loyc.Interfaces/Concrete/BaseDictionary.cs:25 | the abstract Remove(key) reports whether the key was there and removes it |
| BaseDictionaries.DictionaryBase.SetValue | Core/Loyc.Interfaces/Concrete/BaseDictionary.cs:31 | the abstract SetValue maps the key to the value |
| BaseDictionaries.DictionaryBase.AddKey | Core/Loyc.Interfaces/Concrete/BaseDictionary.cs:23 | the abstract Add(key, value) fails exactly on a present key, changing nothing, and adds a new one |
| BaseDictionaries.DictionaryBase.IsReadOnly | Core/Loyc.Interfaces/Concrete/BaseDictionary.cs:33 | a dictionary derived from the base is never read-only |
| BaseDictionaries.DictionaryBase.IsEmptyAsWritten | Core/Loyc.Interfaces/Concrete/BaseDictionary.cs:34 | as written IsEmpty is true exactly when the dictionary has entries |
| BaseDictionaries.DictionaryBase.IsEmpty | Core/Loyc.Interfaces/Concrete/BaseDictionary.cs:34 | corrected: true exactly when there are no entries, the negation of the property as written |
| BaseDictionaries.DictionaryBase.TryGet | Core/Loyc.Interfaces/Concrete/BaseDictionary.cs:35-39 | fails exactly where TryGetValue does, and otherwise gives the key's value |
| BaseDictionaries.DictionaryBase.Get | Core/Loyc.Interfaces/Concrete/BaseDictionary.cs:58-67 | the getter throws KeyNotFoundException exactly for a missing key and otherwise gives its value |
| BaseDictionaries.DictionaryBase.Set | Core/Loyc.Interfaces/Concrete/BaseDictionary.cs:68-71 | the setter is SetValue: afterwards the getter gives the value |
| BaseDictionaries.DictionaryBase.Add | Core/Loyc.Interfaces/Concrete/BaseDictionary.cs:74-77 | Add(pair) is Add(key, value): it fails on a present key and otherwise adds the pair, which Contains then finds |
| BaseDictionaries.DictionaryBase.Contains | Core/Loyc.Interfaces/Concrete/BaseDictionary.cs:79-86 | true exactly when the key is there with an equal value |
| BaseDictionaries.DictionaryBase.Remove | Core/Loyc.Interfaces/Concrete/BaseDictionary.cs:93-99 | removes the key exactly when it holds the pair's value; afterwards the pair is not contained |
| BaseDictionaries.DictionaryBase.CopyTo | Core/Loyc.Interfaces/Concrete/BaseDictionary.cs:88-91 | CopyTo is Copy over the dictionary's enumeration |
| BaseDictionaries.CopyCheck | Core/Loyc.Interfaces/Concrete/BaseDictionary.cs:108-113 | the checks pass exactly for a non-null array, a non-negative index and room for every element after it |
| BaseDictionaries.Copy | Core/Loyc.Interfaces/Concrete/BaseDictionary.cs:106-117 | after the checks, the elements in enumeration order are written from arrayIndex on and nothing else changes; a failed check writes nothing |
| UsingMulti.MergeIdentifiers | Main/LeMP.StdMacros/ecs/UsingMultiMacro.out.cs:58-74 | with no outer name the right name comes back unchanged; a successful merge extends the outer name by dots, the outer name lying down its leftmost chain; a failure carries a part of the right name that is neither the missing identifier nor a one- or two-argument dot, the node the `LogException` names |
| UsingMulti.NamespaceArgs | Main/LeMP.StdMacros/ecs/UsingMultiMacro.out.cs:49-50 | every argument it yields is smaller than the node, so the expansion terminates |
| UsingMulti.GetNamespaces | Main/LeMP.StdMacros/ecs/UsingMultiMacro.out.cs:43-57 | null exactly for a non-call, a dot and a generic (`Of`) call; otherwise the merge results in enumeration order, each successful one lying below the call's target |
| UsingMulti.ExpandArgs | Main/LeMP.StdMacros/ecs/UsingMultiMacro.out.cs:52-53 | the merge results of the arguments from i on, in order, each successful one lying below the target |
| UsingMulti.Collect | Main/LeMP.StdMacros/ecs/UsingMultiMacro.out.cs:34 | enumerating stops at the first exception: every name when every result succeeds, otherwise the first failure, every result before it a success |
| UsingMulti.CollectOk | Main/LeMP.StdMacros/ecs/UsingMultiMacro.out.cs:34 | a sequence of successes enumerates to exactly its names |
| UsingMulti.MergeAll | Main/LeMP.StdMacros/ecs/UsingMultiMacro.out.cs:53 | one result per item, in order: a success is merged below the outer name, a failure passed on unchanged; every success lies below the outer name |
| UsingMulti.Imports | Main/LeMP.StdMacros/ecs/UsingMultiMacro.out.cs:34 | one import of each namespace, in order |
| UsingMulti.UsingMultiMacro | Main/LeMP.StdMacros/ecs/UsingMultiMacro.out.cs:25-41 | applies only to a one-argument import; null when GetNamespaces gives null; the first malformed name in enumeration order is a note and no result; otherwise a splice of one import per name, in order |
| UsingMulti.MergeRelative | Main/LeMP.StdMacros/ecs/UsingMultiMacro.out.cs:58-74 | merging a relative name (empty, .B, .B.C, ...) below a namespace succeeds and gives the namespace whose parts are the outer parts followed by the relative ones |
| UsingMulti.PlainNameMalformed | Main/LeMP.StdMacros/ecs/UsingMultiMacro.out.cs:70-72 | a name inside the parentheses without a leading dot is malformed |
| UsingMulti.ExpandArgsStep | Main/LeMP.StdMacros/ecs/UsingMultiMacro.out.cs:52-53 | an argument that does not expand stands for itself, merged, ahead of the rest |
| UsingMulti.ExpandFlat | Main/LeMP.StdMacros/ecs/UsingMultiMacro.out.cs:43-57 | a namespace followed by relative names expands to one namespace per argument, each the outer parts followed by the argument's |
| UsingMulti.MergedCons | Main/LeMP.StdMacros/ecs/UsingMultiMacro.out.cs:52-53 | the expansion of a list is the merge of its head before the expansion of its tail |
| UsingMulti.NestedGroup | Main/LeMP.StdMacros/ecs/UsingMultiMacro.out.cs:52-53 | a group of relative names below a relative name, inside an absolute namespace, expands to one absolute namespace per argument: the outer parts, the group target's, then the argument's |
| UsingMulti.NestedExample | Main/LeMP.StdMacros/ecs/UsingMultiMacro.out.cs:52-53 | using System(.Collections(.Generic, .Specialized), .Linq) gives System.Collections.Generic, System.Collections.Specialized and System.Linq |
| UsingMulti.LazyMergeOrder | Main/LeMP.StdMacros/ecs/UsingMultiMacro.out.cs:52-53 | in using A(B(.C, D)) the note is on B, merged below A before D is enumerated |
| UsingMulti.DocumentedExample | Main/LeMP.StdMacros/ecs/UsingMultiMacro.out.cs:22 | using System(, .Collections.Generic, .Linq, .Text) becomes using System; using System.Collections.Generic; using System.Linq; using System.Text |
| LexerCore.Run | Core/Loyc.Syntax/LES/LesLexerGrammar.out.cs:101-108 | the greedy run of class characters stops on the first non-class character or the end |
| LexerCore.Groups | Core/Loyc.Syntax/LES/LesLexerGrammar.out.cs:109-129 | the underscore-group loop stays within the input |
| LexerCore.RunAdvances | Core/Loyc.Syntax/LES/LesLexerGrammar.out.cs:97-108 | a digit rule started on a class character takes at least that character |
| LexerCore.BinGroupsEnd | Core/Loyc.Syntax/LES/LesLexerGrammar.out.cs:228-244 | the BinDigits group loop stays within the input |
| LexerCore.NewlineEnd | Core/Loyc.Syntax/LES/LesLexerGrammar.out.cs:22-34 | a newline takes at most what is there |
| LexerCore.LineEnd | Core/Loyc.Syntax/LES/LesLexerGrammar.out.cs:43-50 | the rest of the line stops at the first newline character or the end, and contains none |
| LexerCore.CloseAt | Core/Loyc.Syntax/LES/LesLexerGrammar.out.cs:92-93 | closing a comment takes at most "*/" |
| LexerCore.GroupsShape | Core/Loyc.Syntax/LES/LesLexerGrammar.out.cs:109-129 | each round of the group loop keeps the text taken a D+(_D+)* text and stops where no more of it continues |
| LexerCore.DigitsAccept | Core/Loyc.Syntax/LES/LesLexerGrammar.out.cs:97-130 | DecDigits and HexDigits started on a digit take a D+(_D+)* text without errors and stop where nothing more of that form continues (also lines 142-175) |
| LexerCore.GroupsUnique | Core/Loyc.Syntax/LES/LesLexerGrammar.out.cs:109-129 | a D+(_D+)* text that cannot be continued is where the group loop stops |
| LexerCore.DigitsUnique | Core/Loyc.Syntax/LES/LesLexerGrammar.out.cs:97-130 | conversely, every maximal D+(_D+)* text at p is exactly what DecDigits and HexDigits take (also lines 142-175) |
| LexerCore.GroupsChars | Core/Loyc.Syntax/LES/LesLexerGrammar.out.cs:109-129 | the group loop takes only class characters and '_' |
| LexerCore.DigitsChars | Core/Loyc.Syntax/LES/LesLexerGrammar.out.cs:97-130 | the digit rules take only class characters and '_' |
| LexerCore.BinGroupsAgree | Core/Loyc.Syntax/LES/LesLexerGrammar.out.cs:216-245 | without errors the BinDigits loop stops where the DecDigits loop over [01] would |
| LexerCore.BinGroupsStop | Core/Loyc.Syntax/LES/LesLexerGrammar.out.cs:229-243 | BinDigits never stops on a '_' |
| LexerCore.BinDigitsAccept | Core/Loyc.Syntax/LES/LesLexerGrammar.out.cs:216-245 | BinDigits without errors takes a [01]+(_[01]+)* text that cannot be continued |
| LexerCore.BinTrailingUnderscore | Core/Loyc.Syntax/LES/LesLexerGrammar.out.cs:231-233 | unlike DecDigits, BinDigits takes a '_' that no binary digit follows, and its Match reports an error |
| LexerCore.Cursor.MatchClass | Core/Loyc.Syntax/LES/LesLexerGrammar.out.cs:100 | MatchRange('0','9') (or the hex set, or '0','1') advances over a class character, otherwise reports an error and stays (also line 219) |
| LexerCore.Cursor.SkipRun | Core/Loyc.Syntax/LES/LesLexerGrammar.out.cs:101-108 | the greedy loop stops where Run says, no error |
| LexerCore.Cursor.Digits | Core/Loyc.Syntax/LES/LesLexerGrammar.out.cs:97-130 | DecDigits and HexDigits stop at DigitsEnd, with DigitsErrors errors (also lines 142-175) |
| LexerCore.Cursor.DecDigits | Core/Loyc.Syntax/LES/LesLexerGrammar.out.cs:97-130 | as Digits over [0-9] |
| LexerCore.Cursor.HexDigits | Core/Loyc.Syntax/LES/LesLexerGrammar.out.cs:142-175 | as Digits over the hex digit set |
| LexerCore.Cursor.BinDigits | Core/Loyc.Syntax/LES/LesLexerGrammar.out.cs:216-245 | stops at BinDigitsEnd, with BinDigitsErrors errors |
| LexerCore.Cursor.SkipLine | Core/Loyc.Syntax/LES/LesLexerGrammar.out.cs:43-50 | stops at LineEnd, no error |
| LexerCore.Cursor.NewlineChars | Core/Loyc.Syntax/LES/LesLexerGrammar.out.cs:25-34 | takes "\r\n", "\r" or "\n"; anything else is one error and no advance |
| NumberSyntax.DecMantissa | Core/Loyc.Syntax/LES/LesLexerGrammar.out.cs:251-271 | the mantissa stays within the input |
| NumberSyntax.Exponent | Core/Loyc.Syntax/LES/LesLexerGrammar.out.cs:272-286 | the exponent only extends the number |
| NumberSyntax.ExponentErrors | Core/Loyc.Syntax/LES/LesLexerGrammar.out.cs:272-286 | the exponent adds its own errors to whatever came before |
| NumberSyntax.DecNumberScan | Core/Loyc.Syntax/LES/LesLexerGrammar.out.cs:246-287 | DecNumber stays within the input |
| NumberSyntax.HexMantissa | Core/Loyc.Syntax/LES/LesLexerGrammar.out.cs:291-311 | HexNumber's digits and fraction come after "0x" and stay within the input |
| NumberSyntax.HexNumberScan | Core/Loyc.Syntax/LES/LesLexerGrammar.out.cs:288-327 | HexNumber stays within the input |
| NumberSyntax.BinNumberScan | Core/Loyc.Syntax/LES/LesLexerGrammar.out.cs:328-371 | BinNumber stays within the input |
| NumberSyntax.DigitsNoMark | Core/Loyc.Syntax/LES/LesLexerGrammar.out.cs:97-130 | digits never contain a '.' or the base's exponent letter (also lines 142-175) |
| NumberSyntax.DecMantissaFloat | Core/Loyc.Syntax/LES/LesLexerGrammar.out.cs:251-271 | the mantissa is a float exactly when it took a '.' |
| NumberSyntax.HexMantissaFloat | Core/Loyc.Syntax/LES/LesLexerGrammar.out.cs:295-311 | the hex mantissa is a float exactly when it took a '.' |
| NumberSyntax.ExponentFloat | Core/Loyc.Syntax/LES/LesLexerGrammar.out.cs:272-286 | after the exponent, the number is a float exactly when its text holds a '.' or the exponent letter (also lines 312-326) |
| NumberSyntax.DecMantissaRule | Core/Loyc.Syntax/LES/LesLexerGrammar.out.cs:251-271 | the rule stops where DecMantissa says, with its errors and its float flag |
| NumberSyntax.ExponentRule | Core/Loyc.Syntax/LES/LesLexerGrammar.out.cs:272-286 | the rule stops where Exponent says and sets the float flag when it takes an exponent |
| NumberSyntax.HexMantissaRule | Core/Loyc.Syntax/LES/LesLexerGrammar.out.cs:295-311 | the rule stops where HexMantissa says, without errors |
| LesLexers.SuffixAt | Core/Loyc.Syntax/LES/LesLexerGrammar.out.cs:405-464 | the suffix takes 0 to 2 characters: none exactly when there is no suffix, two exactly for UL / LU |
| LesLexers.OpRun | Core/Loyc.Syntax/LES/LesLexerGrammar.out.cs:778-803 | the operator loop takes only operator characters and stops on the first other one |
| LesLexers.LesLexer.constructor | Core/Loyc.Syntax/LES/LesLexerGrammar.out.cs:20-21 | a new lexer is at position 0 with no errors and cleared number flags |
| LesLexers.LesLexer.DecNumber | Core/Loyc.Syntax/LES/LesLexerGrammar.out.cs:246-287 | DecNumber moves the cursor as DecNumberScan says, sets base 10 and the float flag, and changes nothing else |
| LesLexers.LesLexer.HexNumber | Core/Loyc.Syntax/LES/LesLexerGrammar.out.cs:288-327 | HexNumber moves the cursor as HexNumberScan says, sets base 16 and the float flag |
| LesLexers.LesLexer.BinNumber | Core/Loyc.Syntax/LES/LesLexerGrammar.out.cs:328-371 | BinNumber moves the cursor as BinNumberScan says, sets base 2 and the float flag |
| LesLexers.LesLexer.Suffix | Core/Loyc.Syntax/LES/LesLexerGrammar.out.cs:405-464 | the suffix switch sets _typeSuffix as SuffixAt says and the float flag for F, D and M |
| LesLexers.LesLexer.Number | Core/Loyc.Syntax/LES/LesLexerGrammar.out.cs:372-467 | Number's end, numberEndPosition, errors, _isFloat, _isNegative, _numberBase and _typeSuffix are those of NumberAt |
| LesLexers.LesLexer.NumberBody | Core/Loyc.Syntax/LES/LesLexerGrammar.out.cs:385-402 | the base dispatch: "0x" HexNumber, "0b" BinNumber, otherwise DecNumber |
| LesLexers.LesLexer.Operator | Core/Loyc.Syntax/LES/LesLexerGrammar.out.cs:775-807 | Operator takes its first character and then every operator character after it, without errors |
| LesLexers.LesLexer.MLComment | Core/Loyc.Syntax/LES/LesLexerGrammar.out.cs:54-96 | MLComment moves the cursor and reports errors as CommentFrom says, with nested comments, and sets the whitespace value |
| LesLexers.LesLexer.Newline | Core/Loyc.Syntax/LES/LesLexerGrammar.out.cs:22-37 | takes "\r\n", "\r" or "\n", else one error; sets the whitespace value |
| LesLexers.LesLexer.SLComment | Core/Loyc.Syntax/LES/LesLexerGrammar.out.cs:38-53 | takes "//" and the rest of the line, without errors |
| LesLexers.LesLexer.Shebang | Core/Loyc.Syntax/LES/LesLexerGrammar.out.cs:814-831 | takes "#!", the rest of the line and its newline if any |
| LesLexers.LesLexer.MLCommentLine | Core/Loyc.Syntax/LES/LesLexerGrammar.out.cs:1229-1293 | the line's end, nesting level, result and errors are those of CommentLineAt |
| LesLexers.LesLexer.LongRule | Core/Loyc.Syntax/LES/LesLexerGrammar.out.cs:845-1132 | the rules of more than one character leave the token TokenAt gives |
| LesLexers.LesLexer.ShortRule | Core/Loyc.Syntax/LES/LesLexerGrammar.out.cs:845-1132 | the one-character rules leave the token TokenAt gives |
| LesLexers.LesLexer.NextToken | Core/Loyc.Syntax/LES/LesLexerGrammar.out.cs:834-1136 | NextToken is TokenAt: no token at the end, a token the lexer holds, or the rule it hands over to with _type set and nothing consumed |
| LesProperties.NumberAdvances | Core/Loyc.Syntax/LES/LesLexerGrammar.out.cs:372-467 | a number NextToken starts takes at least one character (also line 1134) |
| LesProperties.TokenExtent | Core/Loyc.Syntax/LES/LesLexerGrammar.out.cs:1134-1135 | Debug.Assert(InputPosition > _startPosition): every token starts where NextToken was called, is non-empty and ends inside the input |
| LesProperties.TokenAtEnd | Core/Loyc.Syntax/LES/LesLexerGrammar.out.cs:841-844 | NextToken returns no token exactly at the end of the input |
| LesProperties.ShebangOnlyFirst | Core/Loyc.Syntax/LES/LesLexerGrammar.out.cs:845-851 | a shebang token is produced exactly at position 0 on "#!" |
| LesProperties.NumberStart | Core/Loyc.Syntax/LES/LesLexerGrammar.out.cs:845-1132 | a number starts exactly on a digit, on '.' before a digit, or on '-' before either; any other '-' or '.' starts an operator |
| LesProperties.BodyFloat | Core/Loyc.Syntax/LES/LesLexerGrammar.out.cs:246-371 | the number body is a float exactly when its text holds a '.' or the base's exponent letter |
| LesProperties.NumberFloat | Core/Loyc.Syntax/LES/LesLexerGrammar.out.cs:372-464 | _isFloat means a fraction, an exponent or an F, D or M suffix |
| LesProperties.NumberSignAndBase | Core/Loyc.Syntax/LES/LesLexerGrammar.out.cs:376-402 | _isNegative exactly for a leading '-'; base 16 exactly after "0x", 2 exactly after "0b" |
| LesProperties.CommentLineLoopFacts | Core/Loyc.Syntax/LES/LesLexerGrammar.out.cs:1232-1280 | the MLCommentLine loop's Check never fails, the loop never passes a newline and a non-negative nesting level stays non-negative |
| LesProperties.CommentLineLevel | Core/Loyc.Syntax/LES/LesLexerGrammar.out.cs:1232-1280 | from a level of zero or more, the loop ends at the starting level plus the "/*" it took minus the "*/", read as pairs, and the level never drops below zero on the way |
| LesProperties.CommentLineStopsOnClose | Core/Loyc.Syntax/LES/LesLexerGrammar.out.cs:1232-1280 | the loop stops on "*/" only at a level of zero or less |
| LesProperties.CommentLineClosesAtZero | Core/Loyc.Syntax/LES/LesLexerGrammar.out.cs:1229-1293 | a line that closes without error from a level of zero or more closes at level zero, just after a "*/", with as many "*/" before it as the starting level plus the "/*" |
| LesProperties.CommentLineEnds | Core/Loyc.Syntax/LES/LesLexerGrammar.out.cs:1281-1292 | MLCommentLine returns false exactly when the line ends in a newline; true without error means the line ends in "*/" with no newline in it |
| LesProperties.CommentBodyStop | Core/Loyc.Syntax/LES/LesLexerGrammar.out.cs:60-91 | the MLComment loop stops at the end or on a '*' before '/' or the end |
| LesProperties.CommentCloses | Core/Loyc.Syntax/LES/LesLexerGrammar.out.cs:54-96 | a comment without errors ends with "*/"; one whose body runs to the end reports both failed Matches |
| LesLexers.NumberAt | Core/Loyc.Syntax/LES/LesLexerGrammar.out.cs:372-467 | a number's digits end inside its extent, which stays inside the input |
| LesLexers.BodyScan | Core/Loyc.Syntax/LES/LesLexerGrammar.out.cs:385-404 | the digits of a number stay inside the input |
| LesLexers.CommentFrom | Core/Loyc.Syntax/LES/LesLexerGrammar.out.cs:54-96 | a comment takes at least "/*" and stays inside the input |
| LesLexers.CommentBody | Core/Loyc.Syntax/LES/LesLexerGrammar.out.cs:60-91 | the comment loop stays inside the input |
| LesLexers.CommentLineLoop | Core/Loyc.Syntax/LES/LesLexerGrammar.out.cs:1232-1280 | the loop of MLCommentLine stays inside the input |
| LesLexers.StarStep | Core/Loyc.Syntax/LES/LesLexerGrammar.out.cs:1275-1280 | a '*' that does not close the comment is taken, with an error when a '/' follows it |
| LesLexers.CommentLineAt | Core/Loyc.Syntax/LES/LesLexerGrammar.out.cs:1229-1293 | one line of a comment stays inside the input |
| EcsOperators.OperatorTree | Main/Ecs/Parser/EcsLexerGrammar.out.cs:1105-1744 | the operator switch picks an alternative of the grammar's operator list, takes at most four characters and reports at most one error |
| EcsOperators.TreeMatches | Main/Ecs/Parser/EcsLexerGrammar.out.cs:1105-1744 | when the switch reports no error, the operator it chose is the text at the position and it took exactly that text's characters |
| EcsOperators.EntryNoLonger | Main/Ecs/Parser/EcsLexerGrammar.out.cs:1105-1744 | no operator of the list that matches at the position is longer than the one taken, and an equally long one is the one taken (the "?\|=" gap aside) |
| EcsOperators.OperatorLongestMatch | Main/Ecs/Parser/EcsLexerGrammar.out.cs:1105-1744 | Operator takes the longest matching operator, which is unique; it reports an error exactly when no operator matches, and then takes nothing |
| EcsOperators.OperatorLookaheadGap | Main/Ecs/Parser/EcsLexerGrammar.out.cs:1646-1657 | on "?\|=" without a '>' after it, Operator takes three characters as ForwardNullCoalesceAssign and reports an error, though only "?" matches there |
| EcsOperators.GapEntry | Main/Ecs/Parser/EcsLexerGrammar.out.cs:1646-1657 | in the "?\|=" gap the only operator of the list that matches is "?" |
| EcsOperators.ShiftIsTwoGreater | Main/Ecs/Parser/EcsLexerGrammar.out.cs:1153-1168 | ">>" not followed by '=' or '>' is two GT tokens of one character each |
| EcsKeywords.KeywordInfo | Main/Ecs/Parser/EcsLexerGrammar.out.cs:1774-5314 | the keyword table: every keyword is a word of [#0-9A-Z_a-z], starts with a lower-case letter or is a '#' word of two or more characters, and needs AllowPP exactly when it starts with '#' |
| EcsKeywords.KeywordsA | Main/Ecs/Parser/EcsLexerGrammar.out.cs:1779-1974 | the keywords under 'a' are words of [#0-9A-Z_a-z] and none needs AllowPP |
| EcsKeywords.KeywordsB | Main/Ecs/Parser/EcsLexerGrammar.out.cs:1975-2082 | the keywords under 'b' are words of [#0-9A-Z_a-z] and none needs AllowPP |
| EcsKeywords.KeywordsC | Main/Ecs/Parser/EcsLexerGrammar.out.cs:2083-2277 | the keywords under 'c' are words of [#0-9A-Z_a-z] and none needs AllowPP |
| EcsKeywords.KeywordsD | Main/Ecs/Parser/EcsLexerGrammar.out.cs:2278-2517 | the keywords under 'd' are words of [#0-9A-Z_a-z] and none needs AllowPP |
| EcsKeywords.KeywordsE | Main/Ecs/Parser/EcsLexerGrammar.out.cs:2518-2714 | the keywords under 'e' are words of [#0-9A-Z_a-z] and none needs AllowPP |
| EcsKeywords.KeywordsF | Main/Ecs/Parser/EcsLexerGrammar.out.cs:2715-2920 | the keywords under 'f' are words of [#0-9A-Z_a-z] and none needs AllowPP |
| EcsKeywords.KeywordsG | Main/Ecs/Parser/EcsLexerGrammar.out.cs:2921-2976 | the keywords under 'g' are words of [#0-9A-Z_a-z] and none needs AllowPP |
| EcsKeywords.KeywordsI | Main/Ecs/Parser/EcsLexerGrammar.out.cs:2977-3153 | the keywords under 'i' are words of [#0-9A-Z_a-z] and none needs AllowPP |
| EcsKeywords.KeywordsL | Main/Ecs/Parser/EcsLexerGrammar.out.cs:3154-3217 | the keywords under 'l' are words of [#0-9A-Z_a-z] and none needs AllowPP |
| EcsKeywords.KeywordsN | Main/Ecs/Parser/EcsLexerGrammar.out.cs:3218-3310 | the keywords under 'n' are words of [#0-9A-Z_a-z] and none needs AllowPP |
| EcsKeywords.KeywordsO | Main/Ecs/Parser/EcsLexerGrammar.out.cs:3311-3519 | the keywords under 'o' are words of [#0-9A-Z_a-z] and none needs AllowPP |
| EcsKeywords.KeywordsP | Main/Ecs/Parser/EcsLexerGrammar.out.cs:3520-3670 | the keywords under 'p' are words of [#0-9A-Z_a-z] and none needs AllowPP |
| EcsKeywords.KeywordsR | Main/Ecs/Parser/EcsLexerGrammar.out.cs:3671-3760 | the keywords under 'r' are words of [#0-9A-Z_a-z] and none needs AllowPP |
| EcsKeywords.KeywordsS | Main/Ecs/Parser/EcsLexerGrammar.out.cs:3761-4093 | the keywords under 's' are words of [#0-9A-Z_a-z] and none needs AllowPP |
| EcsKeywords.KeywordsT | Main/Ecs/Parser/EcsLexerGrammar.out.cs:4094-4235 | the keywords under 't' are words of [#0-9A-Z_a-z] and none needs AllowPP |
| EcsKeywords.KeywordsU | Main/Ecs/Parser/EcsLexerGrammar.out.cs:4236-4421 | the keywords under 'u' are words of [#0-9A-Z_a-z] and none needs AllowPP |
| EcsKeywords.KeywordsV | Main/Ecs/Parser/EcsLexerGrammar.out.cs:4422-4542 | the keywords under 'v' are words of [#0-9A-Z_a-z] and none needs AllowPP |
| EcsKeywords.KeywordsW | Main/Ecs/Parser/EcsLexerGrammar.out.cs:4543-4635 | the keywords under 'w' are words of [#0-9A-Z_a-z] and none needs AllowPP |
| EcsKeywords.KeywordsHash | Main/Ecs/Parser/EcsLexerGrammar.out.cs:4636-5241 | the '#' directives are words of two or more characters of [#0-9A-Z_a-z], and every one needs AllowPP |
| EcsKeywords.KeywordsM | Main/Ecs/Parser/EcsLexerGrammar.out.cs:5242-5280 | the keywords under 'm' are words of [#0-9A-Z_a-z] and none needs AllowPP |
| EcsKeywords.KeywordsJ | Main/Ecs/Parser/EcsLexerGrammar.out.cs:5281-5309 | the keywords under 'j' are words of [#0-9A-Z_a-z] and none needs AllowPP |
| EcsKeywords.WordEnd | Main/Ecs/Parser/EcsLexerGrammar.out.cs:1771 | the end of the word at p: every character before it is in [#0-9A-Z_a-z] and the one at it is not |
| EcsKeywords.WordText | Main/Ecs/Parser/EcsLexerGrammar.out.cs:1771 | a run of word characters read as text, character for character |
| EcsKeywords.KeywordAtSound | Main/Ecs/Parser/EcsLexerGrammar.out.cs:1774-5314 | a recognised keyword's text is at p with no word character after it, and a directive is recognised only under AllowPP |
| EcsKeywords.WordMatches | Main/Ecs/Parser/EcsLexerGrammar.out.cs:1771 | the word at p is at p and a non-word character follows it |
| EcsKeywords.KeywordAtComplete | Main/Ecs/Parser/EcsLexerGrammar.out.cs:1774-5314 | every keyword whose text is at p with no word character after it is recognised, a directive provided AllowPP holds |
| EcsKeywords.WordEndAfter | Main/Ecs/Parser/EcsLexerGrammar.out.cs:1771 | a word at p with no word character after it ends the word from any position inside it |
| EcsKeywords.DirectivesNeedAllowPP | Main/Ecs/Parser/EcsLexerGrammar.out.cs:4636-5241 | without AllowPP exactly the directives are lost: a '#' gives no keyword and every other keyword is recognised as with AllowPP |
| EcsLexers.EcsHexNumberScan | Main/Ecs/Parser/EcsLexerGrammar.out.cs:391-429 | HexNumber stays inside the input and takes at least "0x" |
| EcsLexers.EcsBodyScan | Main/Ecs/Parser/EcsLexerGrammar.out.cs:468-487 | the digits of a number stay inside the input |
| EcsLexers.SuffixAt | Main/Ecs/Parser/EcsLexerGrammar.out.cs:493-559 | the suffix takes 0 to 2 characters: none exactly when _value is "_", two exactly when it is "_uL" |
| EcsLexers.NumberAt | Main/Ecs/Parser/EcsLexerGrammar.out.cs:468-560 | a number's _textValue lies inside its extent, which stays inside the input |
| EcsLexers.CommentFrom | Main/Ecs/Parser/EcsLexerGrammar.out.cs:155-200 | a comment takes at least "/*" and stays inside the input |
| EcsLexers.CommentBody | Main/Ecs/Parser/EcsLexerGrammar.out.cs:160-194 | the comment loop stays inside the input |
| EcsLexers.OperatorInside | Main/Ecs/Parser/EcsLexerGrammar.out.cs:1105-1744 | Operator never reads past the end of the input |
| EcsLexers.EcsLexer.constructor | Main/Ecs/Parser/EcsLexerGrammar.out.cs:22 | a new lexer of the partial class is at position 0 with no errors, with _allowPPAt and _lineStartAt at their default 0 and no value (the constructor itself is in `EcsLexer.cs`, which is not part of this model) |
| EcsLexers.EcsLexer.AllowPP | Main/Ecs/Parser/EcsLexerGrammar.out.cs:29 | a directive may start exactly when the token starts at _allowPPAt |
| EcsLexers.EcsLexer.Newline | Main/Ecs/Parser/EcsLexerGrammar.out.cs:25-28 | Newline takes the newline (or reports an error) and moves _allowPPAt to the position after it; nothing else changes |
| EcsLexers.EcsLexer.UTF_BOM | Main/Ecs/Parser/EcsLexerGrammar.out.cs:124-134 | UTF_BOM skips one character, moves _lineStartAt past it when the line started at the token, and sets WhitespaceTag |
| EcsLexers.EcsLexer.SLComment | Main/Ecs/Parser/EcsLexerGrammar.out.cs:136-152 | SLComment takes "//" and the rest of the line without its newline, and sets WhitespaceTag |
| EcsLexers.EcsLexer.MLComment | Main/Ecs/Parser/EcsLexerGrammar.out.cs:155-200 | MLComment moves the cursor, counts errors and moves _allowPPAt as CommentFrom says, and sets WhitespaceTag |
| EcsLexers.EcsLexer.Shebang | Main/Ecs/Parser/EcsLexerGrammar.out.cs:1748-1768 | Shebang takes the first line and its newline, moving _allowPPAt after the newline when there is one |
| EcsLexers.EcsLexer.HexNumber | Main/Ecs/Parser/EcsLexerGrammar.out.cs:391-429 | HexNumber moves the cursor and reports errors as EcsHexNumberScan says |
| EcsLexers.EcsLexer.NumberBody | Main/Ecs/Parser/EcsLexerGrammar.out.cs:468-487 | the number's digits move the cursor and report errors as EcsBodyScan says |
| EcsLexers.EcsLexer.Suffix | Main/Ecs/Parser/EcsLexerGrammar.out.cs:491-559 | the suffix moves the cursor as SuffixAt says and leaves its symbol in _value |
| EcsLexers.EcsLexer.Number | Main/Ecs/Parser/EcsLexerGrammar.out.cs:468-560 | Number leaves the end, _textValue, _value and the errors NumberAt gives, and nothing else changes |
| EcsLexers.EcsLexer.Operator | Main/Ecs/Parser/EcsLexerGrammar.out.cs:1105-1744 | Operator takes the characters of the switch's choice and sets that operator's _type and _value |
| EcsLexers.EcsLexer.RestOfPPLine | Main/Ecs/Parser/EcsLexerGrammar.out.cs:5316-5333 | RestOfPPLine returns the text from the cursor to the end of the line and leaves the cursor there |
| EcsLexers.EcsLexer.IdOrKeyword | Main/Ecs/Parser/EcsLexerGrammar.out.cs:1774-5314 | a keyword sets the token IdOrKeywordAt gives; otherwise nothing is consumed and Id takes over |
| EcsLexers.EcsLexer.Token | Main/Ecs/Parser/EcsLexerGrammar.out.cs:5339-5648 | Token leaves the token TokenAt gives for the lookahead, or hands over the rules outside the model with _type set |
| EcsLexers.EcsLexer.LongRule | Main/Ecs/Parser/EcsLexerGrammar.out.cs:5339-5648 | the Token alternatives that call a rule (Newline, Number, comments, Shebang, IdOrKeyword, Operator) leave TokenAt's token |
| EcsLexers.EcsLexer.ShortRule | Main/Ecs/Parser/EcsLexerGrammar.out.cs:5339-5648 | the Token alternatives that skip one character, report "Unrecognized token" or hand over leave TokenAt's token |
| EcsProperties.SuffixSymbols | Main/Ecs/Parser/EcsLexerGrammar.out.cs:493-559 | the suffix is "_uL" exactly for L and U in either order, "_" exactly when no suffix letter follows, and always one of the eight suffix symbols |
| EcsProperties.NumberText | Main/Ecs/Parser/EcsLexerGrammar.out.cs:488-491 | _textValue is the text before the suffix, and _value is the suffix symbol found there |
| EcsProperties.HexNeedsDigits | Main/Ecs/Parser/EcsLexerGrammar.out.cs:391-414 | "Expected digits or '.'" is reported after "0x" exactly when neither a hex digit nor a fraction follows, on top of the rule's other errors |
| EcsProperties.WordAt | Main/Ecs/Parser/EcsLexerGrammar.out.cs:1774-5314 | for a word t at p, IdOrKeyword yields t's keyword when t is one and AllowPP admits it, and hands over to Id otherwise |
| EcsProperties.KeywordToken | Main/Ecs/Parser/EcsLexerGrammar.out.cs:1774-5314 | a keyword's token has the table's type and value and spans its text, or runs to the end of the line for RestOfPPLine directives |
| EcsProperties.InExample | Main/Ecs/Parser/EcsLexerGrammar.out.cs:3128-3135 | "in" followed by a space is the In token with value S.In |
| EcsProperties.IntExample | Main/Ecs/Parser/EcsLexerGrammar.out.cs:3103-3111 | "int" followed by a space is a TypeKeyword with value S.Int32 |
| EcsProperties.IntoExample | Main/Ecs/Parser/EcsLexerGrammar.out.cs:3112-3123 | "into" is a LinqKeyword with value into |
| EcsProperties.AsExample | Main/Ecs/Parser/EcsLexerGrammar.out.cs:1824-1833 | "as" is the As token with value S.As |
| EcsProperties.IntyExample | Main/Ecs/Parser/EcsLexerGrammar.out.cs:3103-3127 | "inty" runs on past "int" and is handed to Id |
| EcsProperties.DirectiveNeedsAllowPP | Main/Ecs/Parser/EcsLexerGrammar.out.cs:4636-5241 | a '#' word away from _allowPPAt is never a directive and goes to Id, the shebang aside |
| EcsProperties.NewlineAllowsPP | Main/Ecs/Parser/EcsLexerGrammar.out.cs:25-28 | a newline token moves _allowPPAt to the position just after it |
| EcsProperties.NewlineBeforeDirective | Main/Ecs/Parser/EcsLexerGrammar.out.cs:25-28 | in "a\n#if b" the newline token moves _allowPPAt to the '#' |
| EcsProperties.DirectiveAfterNewline | Main/Ecs/Parser/EcsLexerGrammar.out.cs:4636-4655 | in "a\n#if b", "#if" at the start of the line is the PPif token |
| EcsProperties.DirectiveMidLine | Main/Ecs/Parser/EcsLexerGrammar.out.cs:4636-4655 | in "a #if b", "#if" after a space is handed to Id |
| EcsProperties.DotNumberOrOperator | Main/Ecs/Parser/EcsLexerGrammar.out.cs:5359-5366 | '.' starts a number exactly when a digit follows it, and an operator otherwise |
| EcsProperties.ShebangOnlyFirst | Main/Ecs/Parser/EcsLexerGrammar.out.cs:5393-5406 | "#!" is a Shebang exactly at the start of the input, and the token takes the first line with its newline |
| EcsProperties.UnknownChar | Main/Ecs/Parser/EcsLexerGrammar.out.cs:5638-5646 | an unrecognised character is an Unknown token of one character with one error |
| EcsProperties.UnknownExamples | Main/Ecs/Parser/EcsLexerGrammar.out.cs:5638-5646 | a control character, and a quote at the end of a line or of the input, are unrecognised |
| EcsProperties.OperatorToken | Main/Ecs/Parser/EcsLexerGrammar.out.cs:5339-5648 | on an operator character Token yields the longest operator at p as its token, the "?\|=" gap aside |
| EcsProperties.SingleCharOperator | Main/Ecs/Parser/EcsLexerGrammar.out.cs:1105-1744 | every character Token sends to Operator is itself a one-character operator of the list |
| EcsProperties.OperatorExamples | Main/Ecs/Parser/EcsLexerGrammar.out.cs:1110-1175 | "...", "..", "." and ">>=", ">=", ">" are taken as the longest of the dot and '>' operators |
| EcsProperties.BodyWithoutNesting | Main/Ecs/Parser/EcsLexerGrammar.out.cs:160-194 | without nesting the comment body runs to the first "*/", or to the end of the input, with no errors |
| EcsProperties.CommentWithoutNesting | Main/Ecs/Parser/EcsLexerGrammar.out.cs:155-200 | without nesting a comment ends just after its first "*/"; an unclosed one runs to the end with the two errors of the closing Match |
| EcsProperties.NestedBody | Main/Ecs/Parser/EcsLexerGrammar.out.cs:160-194 | with nesting, a body that ends on "*/" without error took as many "*/" as "/*" and at no point more |
| EcsProperties.NestedComment | Main/Ecs/Parser/EcsLexerGrammar.out.cs:155-200 | with nesting, a comment that closes without error ends on the "*/" where the depth first returns to zero; inside it the depth is at least one, and a "*/" there closes a nested "/*" |
| EcsProperties.NestingExamples | Main/Ecs/Parser/EcsLexerGrammar.out.cs:176-184 | "/*/**/*/" is one comment with nesting, and six characters without |
| EcsProperties.NumberAdvances | Main/Ecs/Parser/EcsLexerGrammar.out.cs:468-560 | a number takes at least its first character |
| EcsProperties.IdOrKeywordAdvances | Main/Ecs/Parser/EcsLexerGrammar.out.cs:1774-5314 | a keyword takes at least its text |
| EcsProperties.TokenExtent | Main/Ecs/Parser/EcsLexerGrammar.out.cs:5339-5648 | every token starts at p, stays inside the input and, before the end, takes at least one character |

## Left out

- Floating-point (`float`, `double`), `decimal` and `BigInteger` reads and writes of SyncBinary: floating point has no faithful model in Dafny's types; the integer format they build on is modelled.
- SyncBinary strings: the UTF-8/WTF-8 transcoding is a parameter (the encoded bytes), not modelled; the length prefix and markers around it are.
- The `IBufferWriter` and the scanner behind `ReaderState`: modelled by the bytes they would hold (the output sequence; the input and the scanner's block size), without their memory management or `GetOutSpan` sizes.
- `BeginSubObject`, `EndSubObject` and `SetCurrentObject` of the reader and writer, and the object-id bookkeeping: they belong to the object-graph layer above the integer codec.
- BinaryFormat.LargeSized: a length prefix of 2^31 or more, which `(int)` makes negative and the source then passes on to `ExpectBytes`, is reported as the `NegativeLengthPrefix` error instead of following the negative size into the span arithmetic.
- Concurrency aspects of `ReaderState`/`WriterState` and the `SyncManager` context types: everything is single-threaded here.
- `UString`'s case-insensitive paths (`ignoreCase`, `ToUpper`), `ShedExcessMemory`, `GetHashCode`, the enumerators and the `IListSource` adapters: they depend on culture tables or .NET runtime services.
- Unicode tables in `UString`: the decoder is modelled on UTF-16 code units, with the value and width the source computes for a surrogate pair (which is not the pair's code point; see Findings); no character properties are involved.
- The CPTrie node structures (`CPNode`, `CPLinear`, `CPSNode`, `CPBitArrayLeaf`): the root is an abstract map from byte keys to values, so node splitting and compaction are not modelled; the key encoding and the count are.
- `CPStringTrie` wrapper members beyond those in the table (enumerators, `Keys`, `Values`, `FindAtLeast`, `Clone`): they forward to node code that is not modelled.
- DictionaryBase's abstract `Clear`, `ContainsKey`, `Keys` and `Values`: the derived class defines them; the model gives their effect on the map only where a defined member relies on them.
- `BaseLexer.cs` is not part of this model: its `Skip`, `Match`, `MatchExcept`, `Check` and `Newline` are stood in for by `LexerCore.Cursor`, with the error counting the generated code relies on (a failed `Match` or `Check` reports one error and does not advance).
- Line and column tracking of the lexers (`LineNumber`, `_lineStartAt` beyond `UTF_BOM`): positions are absolute indices.
- LES: `Spaces`, `AfterNewline` bookkeeping, `ParseNumberValue`, `ParseNormalOp` and the string, identifier and symbol recognizers: the values they compute are outside the rules modelled; `char.IsLetter` is a parameter of the dispatch.
- EC#: `Spaces`, `DotIndent` and indentation measurement; the string, backquoted-identifier, symbol and `Id` recognizers, which Token hands over to (the model records the hand-over and the `_type` set before it).
- EC#: the keyword trie is modelled as a lookup of the word at the position in the grammar's keyword table, split by first character as the switch is; the two agree because every keyword is a word of `[#a-z]` and a keyword is taken only when no character of `[#0-9A-Z_a-z]` follows.
- EcsLexers.EcsLexer.Token: requires `_value` to be cleared on entry, as `NextToken` does before calling it; `EcsLexer.cs`, which holds `NextToken`, is not part of this model.
- UStrings.UString.New: builds the slice on the corrected `ConstructorRange`, so a start past the end of the string gives the empty slice at the end, where the source's constructor gives a start of 2*start - length (`UStrings.StartPastEndAsWritten`); a class whose start lies outside its string has no valid state to model. For a start within the string the two agree.
- CPTries.CPTrie.AddRange: checks the range with the corrected `CheckRange`, so an offset and length whose `int` sum wraps are reported as a range error, where the source's `Check` passes them (`CPTries.CheckAsWrittenOverflow`) and the walk over the key then goes outside the buffer; whenever the sum does not wrap the two checks agree (`CPTries.CheckAgrees`).
- CPTries.CPTrie.TryAddRange: the same corrected range check as `AddRange`, for the same reason.
- UsingMulti: the `LNode` attributes, trivia and source ranges are not carried; the `LogException` for a malformed name is an `Err` item carrying the offending node, without the message text. The lazy enumeration of `SelectMany` and `Select` is modelled as the sequence of per-name results in enumeration order, and the exception that escapes is the first `Err` in that order (`UsingMulti.Collect`).
- The old-framework fallback of `LeadingOneCount` (without `BitOperations`): the `BitOperations` branch is the one modelled.

## Findings

| source | as written | input that shows it | evidently intended | confidence | as-written member | corrected member |
|---|---|---|---|---|---|---|
| Src/Loyc.Essentials/Collections/HelperClasses/UString.cs:84-89 | when the start is past the end, `_start -= count` runs with a negative count, moving the start further past the end | `new UString("abc", 5, 0)` gives start 7 | the start moved back to the end of the string (start 3, count 0), as the remarks and `Substring`'s assertion `_start <= _str.Length` expect | not executed | UStrings.StartPastEndAsWritten | UStrings.ConstructorRange |
| Src/Utilities/CPTrie/CPTrie.cs:104 | the three-byte decoding adds the second byte's bits shifted by 6 where the third byte's belong | U+0800 encodes as E0 A0 80 and decodes to U+0820 | `BytesToString` inverts `StringToBytes` on every string | not executed | CPTries.ThreeByteAsWritten | CPTries.DecodeEncode |
| Src/Utilities/CPTrie/CPTrie.cs:466 | `Offset + Left` is an `int` addition that wraps | offset `int.MaxValue`, length 1, empty buffer: the sum wraps to `int.MinValue` and the check passes | reject every range that does not lie inside the buffer | not executed | CPTries.CheckAsWrittenOverflow | CPTries.CheckRange |
| Core/Loyc.Interfaces/Concrete/BaseDictionary.cs:34 | `IsEmpty` returns `Count != 0` | an empty dictionary reports `IsEmpty == false` | `Count == 0` | not executed | BaseDictionaries.DictionaryBase.IsEmptyAsWritten | BaseDictionaries.DictionaryBase.IsEmpty |
| Src/Loyc.Essentials/Collections/HelperClasses/UString.cs:208 | a surrogate pair decodes as `0x10000 + (c << 10) + c1`, keeping the surrogate bits of both units | D83D DE00 (U+1F600) decodes to 0x362D200, so `Find` of U+1F600 does not find it | `0x10000 + ((c - 0xD800) << 10) + (c1 - 0xDC00)`, the pair's code point | not executed | UStrings.SurrogatePairAsWritten | UStrings.DecodePairIntended |
