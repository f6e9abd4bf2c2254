# MDict reader core, modelled in Dafny

This project models the core of MDict.Csharp, a reader for MDict `.mdx`
dictionary files. The model covers:

- **the file layout** (`basedict.dfy`, `keyinfo.dfy`, `keyblocks.dfy`,
  `keyblocklist.dfy`, `recordinfo.dfy`, `reader.dfy`):
  - the header-derived settings;
  - the key header and the key-block-info table, with its running accumulators;
  - splitting a key block into keyword entries, with `RecordEndOffset` back-filled;
  - reading every key block;
  - the record header and the record-info table;
  - the final ordinal sort of the keyword list.
- **the search layer of `Dict`** (`dict.dfy`):
  - the three binary searches;
  - the compression-magic dispatch;
  - slicing a record out of its block;
  - `Close`.
- **the query layer of `MdxDict`** (`mdxdict.dfy`): lookup, fetch, associate,
  prefix, suggest and fuzzy search.
- **the LZO1X decompressor and the short-input compressor** (`lzospec.dfy` is
  the byte-level semantics, `lzo1x.dfy` the class over arrays).
- **the numeric and cipher helpers** (`utils.dfy`): the big-endian readers,
  the MDX stream cipher, Levenshtein distance, `IsTrue`, `WordCompare` and
  `UnescapeEntities`.
- **RIPEMD-128** (`ripemd128.dfy`).

The dictionary file is modelled as a byte sequence `file: seq<byte>`.
`Common.ReadBuffer` returns the bytes from an offset up to a length, cut short
at the end of the file, as the file scanner does.

Services the core takes from .NET are fields of the `Records.Host` parameter
and stay uninterpreted:

- text decoding and zlib inflation;
- the header's XML parsing;
- `int.Parse` and `float.Parse`;
- culture-sensitive lower-casing, `StartsWith` and the key-stripping regex.

Strings are sequences of UTF-16 code units (`Text`), compared ordinally by
`Common.CompareOrdinal`. A raised exception becomes a `Failure` of the
`Common.Result` datatype. Its `Error` names the check that failed.

How the imperative C# becomes Dafny:

- Loops over byte buffers are methods. Each is proved equal to a function
  over sequences, and the properties are lemmas about that function.
- The LZO1X decoder is a class `Lzo.Lzo1x`. It has the C# fields: `buf`,
  `buf32`, `outBuf`, `out32`, `ip`, `op`, `t`, `mPos` and `cbl`. Every method
  is proved to agree with the `LzoSpec` semantics on the registers
  `Machine(ip, t, mPos, outBuf[..op])`.
- An open dictionary is a class `Dict.Dict` whose fields are the lists the
  reader fills in.

`lzospec.dfy` has a flag `shared`. With `shared == false` it models the
decoder as written: the aligned word copies go into `out32`, a separate
copy, so they never reach `outBuf` (see "## Findings"). With
`shared == true` the words land in `outBuf`, which is the evident intent.
The class `Lzo.Lzo1x` follows the code as written. The key-block reader
`KeyBlocks.UnpackKeyBlock` and the record reader `Dict.DecompressBuff` use
the intended semantics; "## Left out" lists what that leaves unmodelled.

Two quirks of the source are kept as written:

- `DecodeKeyInfo` cuts each key out with `Skip(o).Take(o + size)`
  (BaseDict.cs:854, 868). That window is longer than the key.
  `KeyInfos.KeyWindowAsWritten` models it, and `KeyInfos.KeyWindowOverreads`
  shows the over-read.
- The 2-byte terminator test reads `keyBlock[i + 1]` unguarded. A final odd
  byte that is zero therefore fails as "out of range"
  (`KeyBlocks.FindTerminatorFinds`).

## Model

| member | source | states |
|---|---|---|
| Common.ToInt32 | MDict.Csharp/Models/Dict.cs:91-95 | the C# `(int)` cast: the result is a 32-bit signed value congruent to the input modulo 2^32, and equals the input when it already fits |
| Common.Skip | MDict.Csharp/Models/BaseDict.cs:540 | LINQ `Skip(n)`: the whole sequence for n ≤ 0, nothing past the end, otherwise the elements after the first n |
| Common.Take | MDict.Csharp/Models/BaseDict.cs:540 | LINQ `Take(n)`: nothing for n ≤ 0, otherwise as many as n, or all when fewer remain |
| Common.TakeSkipSlice | MDict.Csharp/Models/BaseDict.cs:540 | `Take(Skip(s, i), j - i)` is the slice `s[i..j]` inside the sequence |
| Common.ReadBuffer | MDict.Csharp/Models/FileScanner.cs:50-67 | fails exactly for a negative offset or length; otherwise returns length bytes, or all that remain after the offset when fewer do, each equal to the file byte at its position |
| Common.CompareOrdinal | MDict.Csharp/Models/Dict.cs:149-152 | ordinal comparison yields -1, 0 or 1, and 0 exactly for equal texts |
| Common.CompareOrdinalAntisymmetric | MDict.Csharp/Models/Dict.cs:149-152 | swapping the operands negates the comparison |
| Common.CompareOrdinalTransitive | MDict.Csharp/Models/Dict.cs:149-152 | ordinal ≤ is transitive |
| Common.CompareOrdinalBeforeStrict | MDict.Csharp/Models/Dict.cs:149-152 | a ≤ b < c gives a < c |
| Common.CompareOrdinalStrictBefore | MDict.Csharp/Models/Dict.cs:149-152 | a < b ≤ c gives a < c |
| Common.OrdinalTotal | MDict.Csharp/Models/Dict.cs:149-152 | any two texts are ordered one way or the other |
| Common.PrefixGrows | MDict.Csharp/Models/BaseDict.cs:565-571 | a list prefix one longer is the shorter prefix plus the next element |
| Utils.BeValueOfBytes | MDict.Csharp/Utils/Utils.cs:106-128 | decoding the k-byte big-endian encoding of n < 256^k gives n back |
| Utils.BytesOfBeValue | MDict.Csharp/Utils/Utils.cs:106-128 | encoding the big-endian value of a byte string gives the string back |
| Utils.BeValueAppend | MDict.Csharp/Utils/Utils.cs:120-125 | the value of x followed by y is value(x) shifted left by the bytes of y, plus value(y): the shift-and-or accumulation |
| Utils.UInt8BE | MDict.Csharp/Utils/Utils.cs:106 | fails exactly on an empty array; otherwise byte 0, below 256 |
| Utils.UInt16BE | MDict.Csharp/Utils/Utils.cs:108-109 | fails exactly on fewer than 2 bytes; a success is below 2^16 |
| Utils.UInt32BE | MDict.Csharp/Utils/Utils.cs:111-112 | fails exactly on fewer than 4 bytes; a success is below 2^32 |
| Utils.UInt64BE | MDict.Csharp/Utils/Utils.cs:114-128 | a success has at least 8 bytes and is their big-endian value, below 2^53 |
| Utils.UInt64Guard | MDict.Csharp/Utils/Utils.cs:116-117 | with 8 bytes, the "larger than 2^53" error is raised exactly when the value is at least 2^53, and otherwise the value is returned |
| Utils.UInt64BEtoNumber | MDict.Csharp/Utils/Utils.cs:114-128 | the shift-and-or loop computes `UInt64BE`, including the guard |
| Utils.ReadNumber | MDict.Csharp/Utils/Utils.cs:130-140 | a success is the big-endian value of the first width-of-format bytes, below 256^width |
| Utils.B2N | MDict.Csharp/Utils/Utils.cs:142-152 | lengths 1, 2, 4 and 8 decode big-endian, any other length gives 0, and only length 8 can fail (too large) |
| Utils.B2NOfBeBytes | MDict.Csharp/Utils/Utils.cs:142-152 | B2N of the 1-, 2- or 4-byte encoding of n, or the 8-byte one below 2^53, is n |
| Utils.Decrypted | MDict.Csharp/Utils/Utils.cs:157-170 | the decrypted stream has the length of the cipher text |
| Utils.Encrypted | MDict.Csharp/Utils/Utils.cs:157-170 | the inverse cipher keeps the length |
| Utils.DecryptsPrefix | MDict.Csharp/Utils/Utils.cs:157-170 | each output byte depends only on the cipher text up to it: decryption commutes with taking a prefix |
| Utils.SwapNibblesInvolution | MDict.Csharp/Utils/Utils.cs:162 | swapping the nibbles twice is the identity |
| Utils.DecryptEncrypt | MDict.Csharp/Utils/Utils.cs:157-170 | decrypting the encryption of p with the same key gives p |
| Utils.EncryptDecrypt | MDict.Csharp/Utils/Utils.cs:157-170 | encrypting the decryption of c gives c back, so the cipher is a bijection for each key |
| Utils.EncryptsTo | MDict.Csharp/Utils/Utils.cs:157-170 | a plain text whose bytes satisfy the per-byte decryption equation against c is a solution, and its encryption is c |
| Utils.FastDecrypt | MDict.Csharp/Utils/Utils.cs:157-170 | the in-place loop returns the same array, now holding `Decrypted(old contents, key)`, so `DecryptEncrypt` and `EncryptDecrypt` apply to it |
| Utils.SwapNibbles | MDict.Csharp/Utils/Utils.cs:162 | the nibble swap of the decrypt step; `SwapNibblesInvolution` proves applying it twice is the identity, which `EncryptDecrypt` relies on |
| Utils.Prev | MDict.Csharp/Utils/Utils.cs:159-167 | the `previous` byte at position i: 0x36 first, then the previous ciphertext byte, the one the loop saved before overwriting it |
| Utils.LowByte | MDict.Csharp/Utils/Utils.cs:164 | `(byte)(i & 0xff)` for the index of the step |
| Utils.MdxKey | MDict.Csharp/Utils/Utils.cs:186-193 | the derived key, a RIPEMD-128 digest, is 16 bytes long |
| Utils.MdxDecrypt | MDict.Csharp/Utils/Utils.cs:184-197 | fails exactly below 8 bytes; otherwise keeps the length and the first 8 bytes, and the rest is `Decrypted(block[8..], MdxKey(block))` |
| Utils.MdxEncrypt | MDict.Csharp/Utils/Utils.cs:184-197 | the inverse direction keeps the length and the 8-byte prefix |
| Utils.MdxRoundTrip | MDict.Csharp/Utils/Utils.cs:184-197 | MdxDecrypt undoes MdxEncrypt on every block of 8 or more bytes |
| Utils.TripleMin | MDict.Csharp/Utils/Utils.cs:48-51 | the result is at most each argument and equal to one of them |
| Utils.EditDistanceSelf | MDict.Csharp/Utils/Utils.cs:56-78 | the edit distance of a text to itself is 0 |
| Utils.EditDistance | MDict.Csharp/Utils/Utils.cs:60-77 | the value the dp table holds at [m, n], defined by the recurrence over prefixes; its properties are `EditDistanceSelf`, `EditDistanceSymmetric`, `EditDistanceBounds`, `EditDistanceStep` and `EditDistanceEmpty`, and `Levenshtein` returns it for two non-empty texts |
| Utils.EditDistanceSymmetric | MDict.Csharp/Utils/Utils.cs:56-78 | the edit distance is symmetric |
| Utils.EditDistanceBounds | MDict.Csharp/Utils/Utils.cs:56-78 | the distance is at least the length difference and at most the longer length |
| Utils.EditDistanceStep | MDict.Csharp/Utils/Utils.cs:70-73 | the prefix distances satisfy the table's recurrence, with TripleMin on a mismatch |
| Utils.EditDistanceEmpty | MDict.Csharp/Utils/Utils.cs:63-64 | the first row and column hold the prefix lengths |
| Utils.Levenshtein | MDict.Csharp/Utils/Utils.cs:56-78 | 9999 when either text is empty; otherwise the edit distance, with its length bounds |
| Utils.LevenshteinDistance | MDict.Csharp/Utils/Utils.cs:56-78 | the dynamic programme over the `(m+1)×(n+1)` table returns `Levenshtein(a, b)` |
| Utils.FillRow | MDict.Csharp/Utils/Utils.cs:68-74 | the inner loop fills row i with the prefix distances and changes no other row |
| Utils.Lowered | MDict.Csharp/Utils/Utils.cs:215 | lower-casing keeps the length |
| Utils.IsTrue | MDict.Csharp/Utils/Utils.cs:212-217 | true exactly when the value is present and lower-cases to "yes" or "true"; null and empty are false |
| Utils.AsciiLower | MDict.Csharp/Utils/Utils.cs:215 | an ASCII lower-casing: A..Z map to a..z, everything else is unchanged |
| Utils.IsTrueExamples | MDict.Csharp/Utils/Utils.cs:212-217 | with ASCII lower-casing, "YES" and "True" are true, and "yess" and "no" are false |
| Utils.IsTrueCaseInsensitive | MDict.Csharp/Utils/Utils.cs:212-217 | texts equal after lower-casing get the same answer |
| Utils.WordCompare | MDict.Csharp/Utils/Utils.cs:228-266 | fails exactly when a word is empty; 0 exactly for equal words; otherwise the sign of the first case-insensitively different unit, or -1/1 by length when one word is a case-insensitive prefix of the other |
| Utils.ReplaceHit | MDict.Csharp/Utils/Utils.cs:275-279 | `Replace` substitutes an occurrence at the front and continues after it |
| Utils.ReplacePassThrough | MDict.Csharp/Utils/Utils.cs:275-279 | text without `&` passes through a replacement of an entity unchanged |
| Utils.ReplaceSkip | MDict.Csharp/Utils/Utils.cs:275-279 | where the pattern does not start, `Replace` keeps the unit and continues |
| Utils.ReplaceToken | MDict.Csharp/Utils/Utils.cs:275-279 | replacing entity k turns a unit escaped k times into one escaped k + 1 times |
| Utils.EncodeFinal | MDict.Csharp/Utils/Utils.cs:273-280 | after all four replacements the text is unchanged |
| Utils.ReplaceOtherEntity | MDict.Csharp/Utils/Utils.cs:275-279 | replacing one entity leaves a different entity intact |
| Utils.ReplacePass | MDict.Csharp/Utils/Utils.cs:275-279 | each of the four replacements, in the source's order, undoes one stage of the escaping |
| Utils.UnescapeEscape | MDict.Csharp/Utils/Utils.cs:273-280 | unescaping the escaped form of any text gives the text back |
| Utils.UnescapeEntities | MDict.Csharp/Utils/Utils.cs:273-280 | the four `Replace` calls in the source's order (&lt;, &gt;, &quot;, then &amp;); `UnescapeEscape` proves it inverts `EscapeEntities` and `UnescapeAmpLt` shows the effect of the order |
| Utils.EscapeEntities | MDict.Csharp/Utils/Utils.cs:273-280 | the independent partner of `UnescapeEntities`: &, <, > and " written as entities; `UnescapeEscape` proves unescaping undoes it for every text |
| Utils.Replace | MDict.Csharp/Utils/Utils.cs:276-279 | `String.Replace`: every non-overlapping occurrence from the left; `ReplaceSkip`, `ReplaceHit` and `ReplacePassThrough` state when it keeps or rewrites a position |
| Utils.UnescapeAmpLt | MDict.Csharp/Utils/Utils.cs:273-280 | the order matters: "&amp;lt;" unescapes to "&lt;", not "<" |
| Ripemd128.Shift | MDict.Csharp/Utils/Ripemd128.cs:28-38 | every shift amount in the S table lies in 5..15 |
| Ripemd128.S | MDict.Csharp/Utils/Ripemd128.cs:28-38 | the S table of shift amounts, row by row as in the source; `Shift` bounds every entry to 5..15 |
| Ripemd128.K | MDict.Csharp/Utils/Ripemd128.cs:52-62 | the eight additive constants, one per round and parallel round |
| Ripemd128.F | MDict.Csharp/Utils/Ripemd128.cs:64-70 | the four boolean round functions; `LeftNext` and `RightNext` state which one each step uses |
| Ripemd128.Rotl | MDict.Csharp/Utils/Ripemd128.cs:75-78 | the shift-or rotation; `RotlBit` proves it is a 32-bit left rotation for every amount below 32 |
| Ripemd128.X | MDict.Csharp/Utils/Ripemd128.cs:40-50 | every message-word index in the X table is below 16 |
| Ripemd128.RotlBit | MDict.Csharp/Utils/Ripemd128.cs:75-78 | `Rotl(x, n)` is a 32-bit left rotation: bit i of the result is bit (i - n) mod 32 of x |
| Ripemd128.Concat | MDict.Csharp/Utils/Ripemd128.cs:83-94 | fails exactly when both arrays are empty; otherwise the concatenation |
| Ripemd128.Padding | MDict.Csharp/Utils/Ripemd128.cs:106-108 | 0x80 then zeros, 1..64 bytes, so that the input plus padding is 56 modulo 64 (section 3.1 of RFC 1320) |
| Ripemd128.LittleEndianRoundTrip | MDict.Csharp/Utils/Ripemd128.cs:113-114 | the 8-byte little-endian length field decodes back to the bit length |
| Ripemd128.LittleEndian | MDict.Csharp/Utils/Ripemd128.cs:113-114 | `BitConverter.GetBytes` as k little-endian bytes, exactly k of them; `LittleEndianRoundTrip` decodes them back |
| Ripemd128.Message | MDict.Csharp/Utils/Ripemd128.cs:106-116 | the padded message is a multiple of 64 bytes, starts with the input and ends with the 64-bit little-endian bit length (section 3.2 of RFC 1320) |
| Ripemd128.LengthFieldCompletes | MDict.Csharp/Utils/Ripemd128.cs:106-116 | 56 modulo 64 plus the 8-byte length field completes a 64-byte block |
| Ripemd128.MessageWords | MDict.Csharp/Utils/Ripemd128.cs:117-121 | the padded message is whole words and a whole number of 16-word blocks |
| Ripemd128.Words | MDict.Csharp/Utils/Ripemd128.cs:117-118 | the message is read as one little-endian word per 4 bytes |
| Ripemd128.Step | MDict.Csharp/Utils/Ripemd128.cs:131-132 | one step rotates the registers: a, c, d take the old d, b, c |
| Ripemd128.LeftNext | MDict.Csharp/Utils/Ripemd128.cs:128-133 | step t of the left line uses F, X, S and K of row t/16 |
| Ripemd128.RightNext | MDict.Csharp/Utils/Ripemd128.cs:135-141 | step t of the right line uses F[(63 - t%64)/16] with the X, S and K row t/16 |
| Ripemd128.LeftLine | MDict.Csharp/Utils/Ripemd128.cs:128-133 | the first 64-step loop computes the left line |
| Ripemd128.Left | MDict.Csharp/Utils/Ripemd128.cs:128-133 | the left line after n steps; `LeftNext` unfolds one step and `LeftLine` proves the first loop computes it |
| Ripemd128.Mix | MDict.Csharp/Utils/Ripemd128.cs:131 | the word one step rotates in, `Rotl(a + F(b, c, d) + x[X[r][k]] + K[r], S[r][k])`; `LeftNext` and `RightNext` state which row each step uses |
| Ripemd128.Right | MDict.Csharp/Utils/Ripemd128.cs:135-141 | the right line after steps 64..t-1, with function row (63 - t % 64) / 16; `RightNext` unfolds one step and `RightLine` proves the second loop computes it |
| Ripemd128.Combine | MDict.Csharp/Utils/Ripemd128.cs:143-147 | the final mixing of the chaining state with both lines, as the four assignments write it; `CompressInto` proves the array updates compute it |
| Ripemd128.CompressBlock | MDict.Csharp/Utils/Ripemd128.cs:121-147 | one block: both lines from the same chaining state, then `Combine`; `CompressInto` ties the loop body to it |
| Ripemd128.Blocks | MDict.Csharp/Utils/Ripemd128.cs:121-148 | the chaining state after every 16-word block in order; `BlocksNext` adds one block and `HashBlocks` proves the block loop computes it |
| Ripemd128.RightLine | MDict.Csharp/Utils/Ripemd128.cs:135-141 | the second loop, t from 64 to 127, computes the right line |
| Ripemd128.PadMessage | MDict.Csharp/Utils/Ripemd128.cs:106-116 | the two `Concat` calls build `Message(input)` |
| Ripemd128.CompressInto | MDict.Csharp/Utils/Ripemd128.cs:121-147 | one block updates the `hash` array by the combination of lines 143-147 |
| Ripemd128.BlocksNext | MDict.Csharp/Utils/Ripemd128.cs:121-148 | hashing one more 16-word block compresses it into the state of the blocks before |
| Ripemd128.HashBlocks | MDict.Csharp/Utils/Ripemd128.cs:101-148 | from the initial chaining state 67452301, efcdab89, 98badcfe, 10325476, the block loop leaves the state of all blocks |
| Ripemd128.WordBytes | MDict.Csharp/Utils/Ripemd128.cs:150-151 | each chaining word is output as 4 little-endian bytes |
| Ripemd128.Digest | MDict.Csharp/Utils/Ripemd128.cs:96-153 | the digest is 16 bytes |
| Ripemd128.ComputeHash | MDict.Csharp/Utils/Ripemd128.cs:96-153 | the in-place computation returns `Digest(input)` |
| BaseDict.Field | MDict.Csharp/Models/BaseDict.cs:718-719 | reading a number field can only fail as too large, that is an 8-byte value of 2^53 or more |
| BaseDict.FieldIsLinq | MDict.Csharp/Models/BaseDict.cs:718-719 | the field is exactly `B2N(Take(Skip(buf, off), width))` |
| BaseDict.FieldOf | MDict.Csharp/Models/BaseDict.cs:718-719 | a number written big-endian at an offset is read back |
| BaseDict.FieldOfLayout | MDict.Csharp/Models/BaseDict.cs:716-746 | in a table of numbers at a fixed width, field i reads number i |
| BaseDict.FieldAt | MDict.Csharp/Models/BaseDict.cs:718-719 | a field whose bytes are the big-endian encoding of a storable n reads n |
| BaseDict.LayoutSlice | MDict.Csharp/Models/BaseDict.cs:716-746 | field i of a fixed-width table holds the big-endian encoding of number i |
| BaseDict.WithDefaults | MDict.Csharp/Models/BaseDict.cs:617-618 | `KeyCaseSensitive` defaults to "No" and `StripKey` to "Yes"; present keys are kept |
| BaseDict.EncryptOf | MDict.Csharp/Models/BaseDict.cs:624-634 | an `EncryptType` option other than -1 overrides the header; otherwise null, "" and "No" map to 0, "Yes" to 1, anything else to `int.Parse` |
| BaseDict.EncryptFlag | MDict.Csharp/Models/BaseDict.cs:624-629 | the `Encrypted` switch: null, "" and "No" give 0, "Yes" 1, anything else `int.Parse`, a failure when that does not parse; `EncryptOf` adds the option override |
| BaseDict.EncodingOf | MDict.Csharp/Models/BaseDict.cs:662-694 | UTF-16 exactly for mdd or "utf16"/"utf-16"; GB18030 exactly for "gbk"/"gb2312"; BIG5 exactly for "big5"; otherwise UTF-8 (case-insensitive) |
| BaseDict.ReadHeaderSpec | MDict.Csharp/Models/BaseDict.cs:588-695 | the header end is the big-endian size plus 8; width 8 with UInt64 exactly from version 2.0, else 4 with UInt32; the defaults and the option override hold; mdd forces UTF-16 |
| BaseDict.WidthOk | MDict.Csharp/Models/BaseDict.cs:650-660 | the number width the version fixes, 8 from 2.0 on and 4 before; `ReadHeaderSpec` proves every header read establishes it and the readers downstream require it |
| BaseDict.ParsedFloat | MDict.Csharp/Models/BaseDict.cs:650 | `float.Parse` of the engine version: a text it rejects is a format error, so no header read succeeds without a version |
| BaseDict.KeyHeaderFields | MDict.Csharp/Models/BaseDict.cs:716-746 | before version 2.0 there is no key-info unpack size |
| BaseDict.KeyHeaderNumbers | MDict.Csharp/Models/BaseDict.cs:716-746 | the key header's numbers in file order, the unpacked info size only from 2.0 on; `KeyHeaderRoundTrip` proves a header laid out in this order reads back exactly |
| BaseDict.KeyHeaderSize | MDict.Csharp/Models/BaseDict.cs:707 | the `headerMetaSize` of the key header: five 8-byte numbers from version 2.0 on, four 4-byte numbers before; `ReadKeyHeaderSpec` reads exactly that many bytes |
| BaseDict.KeyHeaderEnd | MDict.Csharp/Models/BaseDict.cs:750-751 | the key header end offset: start, header size, and the 4-byte checksum only from version 2.0 on |
| BaseDict.KeyHeaderFieldsV2 | MDict.Csharp/Models/BaseDict.cs:716-746 | from version 2.0 five fields are read in order: blocks, keywords, info unpack size, info packed size, block packed size |
| BaseDict.KeyHeaderFieldsV1 | MDict.Csharp/Models/BaseDict.cs:716-746 | before version 2.0 four fields are read in order: blocks, keywords, info packed size, block packed size, with unpack size 0 |
| BaseDict.ReadKeyHeaderSpec | MDict.Csharp/Models/BaseDict.cs:703-752 | with the 40- or 16-byte header readable, the read fails with a passcode or not-supported error exactly when bit 0 of `Encrypt` is set |
| BaseDict.KeyHeaderRoundTrip | MDict.Csharp/Models/BaseDict.cs:716-746 | a key header laid out at the file's width (4 or 5 fields) is read back exactly |
| BaseDict.RecordHeaderFields | MDict.Csharp/Models/BaseDict.cs:1012-1036 | a success has `EntriesNum == KeywordNum`, and the mismatch error is raised exactly when they differ |
| BaseDict.RecordHeaderFieldsOf | MDict.Csharp/Models/BaseDict.cs:1012-1036 | the four fields are read in order: blocks, entries, info size, block size |
| BaseDict.ReadRecordHeaderSpec | MDict.Csharp/Models/BaseDict.cs:1003-1037 | a read record header agrees with the key header's keyword count |
| BaseDict.RecordHeaderRoundTrip | MDict.Csharp/Models/BaseDict.cs:1012-1036 | a record header laid out at the file's width is read back exactly |
| BaseDict.RecordHeaderSize | MDict.Csharp/Models/BaseDict.cs:1007 | the `recordHeaderLen`: 32 bytes from version 2.0 on and 16 before, four numbers at the file's width |
| BaseDict.RecordHeaderNumbers | MDict.Csharp/Models/BaseDict.cs:1013-1036 | the record header's four numbers in the order the reads take them; `RecordHeaderRoundTrip` proves a header laid out in this order reads back exactly |
| KeyInfos.WordSize | MDict.Csharp/Models/BaseDict.cs:843-852 | the key size gains 1 from version 2.0 and is doubled for UTF-16 |
| KeyInfos.KeyWindowAsWritten | MDict.Csharp/Models/BaseDict.cs:854 | `Skip(o).Take(o + size)` has o + size bytes, or all that remain after o when fewer do |
| KeyInfos.KeyWindowOverreads | MDict.Csharp/Models/BaseDict.cs:854 | the window starts with the key's bytes and, inside the table with o > 0, is longer than the key |
| KeyInfos.KeyAt | MDict.Csharp/Models/BaseDict.cs:843-855 | a key is read at its size field, through the as-written window, and the offset moves past the size field and the key |
| KeyInfos.KeyInfoBytes | MDict.Csharp/Models/BaseDict.cs:795-829 | other versions use the buffer as is; version 2.0 fails below 4 bytes, succeeds only when `KeyInfoPackedSize` equals the buffer length, decrypts with `MdxDecrypt` when `Encrypt == 2`, and for pack tag "2000" inflates to exactly `KeyInfoUnpackSize` bytes |
| KeyInfos.DecodeKeyInfoSpec | MDict.Csharp/Models/BaseDict.cs:791-909 | a success has `KeywordBlocksNum` items whose pack sizes sum to `KeywordBlockPackedSize`, and item k carries index k and the sums of the pack, unpack and entry counts of items 0..k-1 |
| KeyInfos.DecodeKeyInfo | MDict.Csharp/Models/BaseDict.cs:791-909 | the while loop with its running accumulators computes `DecodeKeyInfoSpec` |
| KeyInfos.ReadKey | MDict.Csharp/Models/BaseDict.cs:843-869 | reads one first or last key and advances the offset as `KeyAt` does |
| KeyInfos.ReadNumber | MDict.Csharp/Models/BaseDict.cs:871-875 | reads one number field and advances the offset by the width |
| KeyInfos.ReadEntry | MDict.Csharp/Models/BaseDict.cs:838-897 | one loop iteration appends exactly the item the specification appends, or fails with its error |
| KeyInfos.ReadEntries | MDict.Csharp/Models/BaseDict.cs:831-897 | the loop produces the table of the specification, and its pack accumulator is the sum of the pack sizes |
| KeyInfos.ReadKeyInfosSpec | MDict.Csharp/Models/BaseDict.cs:760-781 | the key-info list read from the file has `KeywordBlocksNum` accumulated items whose pack sizes sum to the header's |
| KeyInfos.KeyInfoFrom | MDict.Csharp/Models/BaseDict.cs:838-897 | the rest of the table: a success has n items, keeps the items already read and keeps the table accumulated; numbers can only fail as too large |
| KeyInfos.SumsAppend | MDict.Csharp/Models/BaseDict.cs:880-896 | the running pack, unpack and entry sums grow by the new item's sizes |
| KeyInfos.AccumulatedAppend | MDict.Csharp/Models/BaseDict.cs:880-891 | an item with index and accumulators equal to the sums of the items before extends an accumulated table |
| KeyInfos.ReadKeys | MDict.Csharp/Models/BaseDict.cs:843-869 | reads the first and then the last key exactly as the specification's two key steps |
| KeyInfos.Zipped | MDict.Csharp/Models/BaseDict.cs:797-811 | the pack type "2000" (the first four bytes joined as decimals) that selects the zlib unpack; `KeyInfoBytes` states the dispatch |
| KeyInfos.FirstKeyFrom | MDict.Csharp/Models/BaseDict.cs:843-856 | after the count field, the first key read through the as-written window: a failure is only "too large", a success keeps the entries read so far as its prefix, has n entries and keeps the accumulators running |
| KeyInfos.LastKeyFrom | MDict.Csharp/Models/BaseDict.cs:857-869 | after the first key, the last key: the same three promises as `FirstKeyFrom` |
| KeyInfos.PackFrom | MDict.Csharp/Models/BaseDict.cs:871-872 | after the last key, the packed size: the same three promises as `FirstKeyFrom` |
| KeyInfos.UnpackFrom | MDict.Csharp/Models/BaseDict.cs:874-896 | the unpacked size, then the item appended with its accumulators: the same three promises as `FirstKeyFrom`, the accumulation through `AccumulatedAppend` |
| KeyInfos.ItemAfter | MDict.Csharp/Models/BaseDict.cs:880-893 | the item added after the entries so far: its own fields, the three accumulators as the sums over those entries, and its index as their count |
| KeyInfos.ReadSizes | MDict.Csharp/Models/BaseDict.cs:871-891 | reads pack and unpack size and appends the next item as the specification does, or fails with its error |
| KeyBlocks.UnpackKeyBlock | MDict.Csharp/Models/BaseDict.cs:919-939 | a success has one of the magics 00000000, 01000000, 02000000; any other magic raises "cannot determine the compress type" |
| KeyBlocks.UnpackStored | MDict.Csharp/Models/BaseDict.cs:923-926 | magic 00000000 returns bytes [8..] |
| KeyBlocks.UnpackLzo | MDict.Csharp/Models/BaseDict.cs:927-930 | magic 01000000 decompresses LZO1X: a short input compressed by `Compress` comes back |
| KeyBlocks.UnpackLostWordStream | MDict.Csharp/Models/BaseDict.cs:927-930 | an LZO block holding the 10-byte stream of "## Findings" unpacks to "abcd" three times, while the as-written decoder gives "abcd" and eight zero bytes for the same data |
| KeyBlocks.UnpackZlib | MDict.Csharp/Models/BaseDict.cs:931-934 | magic 02000000 inflates bytes [8..] |
| KeyBlocks.TerminatorWidth | MDict.Csharp/Models/BaseDict.cs:534 | the terminator is 2 bytes exactly for UTF-16 or mdd, otherwise 1 |
| KeyBlocks.FindTerminator | MDict.Csharp/Models/BaseDict.cs:543-553 | a found terminator lies inside the block at or after the scan start; the only failure is out of range |
| KeyBlocks.FindTerminatorFinds | MDict.Csharp/Models/BaseDict.cs:543-553 | the scan stops at the first terminator on the width grid, reports none when there is none, and fails when the unguarded `keyBlock[i + 1]` falls past the end |
| KeyBlocks.TerminatorAt | MDict.Csharp/Models/BaseDict.cs:547 | the terminator test: a zero byte, followed by a second one for width 2; `FindTerminatorFinds` states which position the scan picks |
| KeyBlocks.ScanTerminator | MDict.Csharp/Models/BaseDict.cs:543-553 | the inner while loop computes `FindTerminator` |
| KeyBlocks.NextKey | MDict.Csharp/Models/BaseDict.cs:540-557 | a found key lies between the offset field and a terminator inside the block |
| KeyBlocks.NextKeyFinds | MDict.Csharp/Models/BaseDict.cs:540-558 | a found entry's offset is B2N of the `NumWidth` bytes at the start and its text decodes the bytes up to the terminator; none exactly when no terminator follows |
| KeyBlocks.ScanKeysFinds | MDict.Csharp/Models/BaseDict.cs:537-574 | the entries are consecutive: each starts `width` bytes after the previous terminator; the scan ends at the block end or at a tail with no terminator |
| KeyBlocks.ScanKeys | MDict.Csharp/Models/BaseDict.cs:537-574 | the outer while loop over a block as a recursion on the start index; `ScanKeysFinds` states the entries are consecutive and where the scan stops, and `SplitKeyBlockSpec`, which `SplitKeyBlock` is proved to compute, links its entries |
| KeyBlocks.LinkedChained | MDict.Csharp/Models/BaseDict.cs:560-571 | each entry's `RecordEndOffset` is the next entry's start, the last keeps -1, and every entry carries the block index |
| KeyBlocks.LinkedAppend | MDict.Csharp/Models/BaseDict.cs:560-571 | adding an entry sets the previous entry's end to its start and appends it with end -1 |
| KeyBlocks.Linked | MDict.Csharp/Models/BaseDict.cs:560-571 | one entry per scanned key |
| KeyBlocks.SplitKeyBlockSpec | MDict.Csharp/Models/BaseDict.cs:532-577 | the split entries are chained and all carry the given block index |
| KeyBlocks.ReadNextKey | MDict.Csharp/Models/BaseDict.cs:540-558 | one iteration's read computes `NextKey` |
| KeyBlocks.AppendKeyword | MDict.Csharp/Models/BaseDict.cs:560-571 | the in-place back-fill and `Add` build the linked list of one more entry |
| KeyBlocks.SplitKeyBlock | MDict.Csharp/Models/BaseDict.cs:532-577 | the while loop computes `SplitKeyBlockSpec` |
| KeyBlockList.BackFill | MDict.Csharp/Models/BaseDict.cs:971-974 | a trailing -1 end takes the next block's first start; it fails exactly when that block is empty; no other entry changes |
| KeyBlockList.BackFillCloses | MDict.Csharp/Models/BaseDict.cs:971-974 | after the back-fill the list chains into the next block's first start |
| KeyBlockList.BlockKeywords | MDict.Csharp/Models/BaseDict.cs:966-969 | a block read at its offset and unpacked splits into chained entries of that block index |
| KeyBlockList.ReadKeyBlocksSpec | MDict.Csharp/Models/BaseDict.cs:947-992 | a success has exactly `KeywordNum` entries and is not empty |
| KeyBlockList.ReadKeyBlocksChain | MDict.Csharp/Models/BaseDict.cs:947-992 | across blocks the entries are chained end to start and ordered by block index |
| KeyBlockList.ReadKeyBlocksStarts | MDict.Csharp/Models/BaseDict.cs:961-964 | with accumulated infos, the running start offset always equals start plus `KeyBlockPackAccumulator`, so that check never raises |
| KeyBlockList.ChainedConcat | MDict.Csharp/Models/BaseDict.cs:969-976 | two chained lists concatenate into a chained list when the first ends at the second's first start |
| KeyBlockList.TurnChains | MDict.Csharp/Models/BaseDict.cs:969-976 | one turn keeps the list chained and the entries tagged by nondecreasing block index |
| KeyBlockList.KeyBlocksChain | MDict.Csharp/Models/BaseDict.cs:951-978 | the loop over the remaining blocks keeps the list chained and tagged |
| KeyBlockList.StartsAgree | MDict.Csharp/Models/BaseDict.cs:961-964 | while the running start is the first block start plus the pack sizes so far, the start check passes on every block |
| KeyBlockList.KeyBlocksFromTurn | MDict.Csharp/Models/BaseDict.cs:956-977 | the loop over the remaining blocks is one turn followed by the loop over the rest, and a failing turn fails the loop |
| KeyBlockList.ReadBlockKeywords | MDict.Csharp/Models/BaseDict.cs:966-969 | reads, unpacks and splits one block as `BlockKeywords` |
| KeyBlockList.CloseLast | MDict.Csharp/Models/BaseDict.cs:971-974 | the in-place back-fill computes `BackFill` |
| KeyBlockList.ReadBlockTurn | MDict.Csharp/Models/BaseDict.cs:956-977 | one loop iteration (start check, read, split, back-fill, append) computes `BlockTurn` |
| KeyBlockList.BlockTurn | MDict.Csharp/Models/BaseDict.cs:956-977 | one turn: the start check, the read and split of the block, the back-fill of the open record and the append; `TurnChains` proves a turn keeps the chain and the block tags |
| KeyBlockList.KeyBlocksFrom | MDict.Csharp/Models/BaseDict.cs:954-978 | the for loop from block idx on; `KeyBlocksChain` and `StartsAgree` prove the chain, the tags and the start check, and `ReadKeyBlockList` is proved to compute it |
| KeyBlockList.ReadKeyBlockList | MDict.Csharp/Models/BaseDict.cs:951-978 | the for loop computes `KeyBlocksFrom` from the first block |
| KeyBlockList.ReadKeyBlocks | MDict.Csharp/Models/BaseDict.cs:947-992 | the method computes `ReadKeyBlocksSpec` |
| RecordInfos.NextRow | MDict.Csharp/Models/BaseDict.cs:1050-1065 | a row reads pack and unpack size, and its accumulators are the sums over the rows before |
| RecordInfos.RowsUpTo | MDict.Csharp/Models/BaseDict.cs:1048-1066 | k iterations give k rows |
| RecordInfos.RowsAccumulated | MDict.Csharp/Models/BaseDict.cs:1048-1066 | the rows read carry running pack and unpack accumulators |
| RecordInfos.RowsOfLayout | MDict.Csharp/Models/BaseDict.cs:1048-1066 | accumulated rows laid out as a size table are read back exactly |
| RecordInfos.TableSizeIs | MDict.Csharp/Models/BaseDict.cs:1068-1071 | the size table of count rows is 2 · count · width bytes |
| RecordInfos.TableSize | MDict.Csharp/Models/BaseDict.cs:1048-1068 | the `offset` the loop reaches, two fields per row; `TableSizeIs` proves it is 2 · count · width |
| RecordInfos.Rows | MDict.Csharp/Models/BaseDict.cs:1048-1066 | count rows are read |
| RecordInfos.RowsUpToStep | MDict.Csharp/Models/BaseDict.cs:1050-1065 | one more iteration appends the row and adds its sizes to the running sums |
| RecordInfos.RowFails | MDict.Csharp/Models/BaseDict.cs:1050-1065 | a row that fails fails the whole table with its error |
| RecordInfos.ReadField | MDict.Csharp/Models/BaseDict.cs:1052-1055 | reads one size field as the number reader of the specification does |
| RecordInfos.CloseKeywords | MDict.Csharp/Models/BaseDict.cs:1080-1084 | the last keyword's end becomes the last row's accumulator plus its unpack size; nothing else changes; an empty table with keywords fails |
| RecordInfos.CloseKeywordsChained | MDict.Csharp/Models/BaseDict.cs:1080-1084 | the closed keyword list chains into the total unpacked size |
| RecordInfos.ReadRecordInfosSound | MDict.Csharp/Models/BaseDict.cs:1039-1088 | a success has `RecordBlocksNum` accumulated rows, consumed bytes equal to `RecordInfoCompSize`, pack sizes summing to `RecordBlockCompSize`, and a chained keyword list |
| RecordInfos.RecordInfosOf | MDict.Csharp/Models/BaseDict.cs:1044-1084 | the rows, the info-size and block-size checks in the source's order, and the last keyword's end; `ReadRecordInfosSound` states the checks and the accumulation, and `ReadTable` is proved to compute it |
| RecordInfos.ReadRecordInfosSpec | MDict.Csharp/Models/BaseDict.cs:1039-1088 | the table read at its offset with its size cast to int, then `RecordInfosOf`; `ReadRecordInfosSound` states what a success means and `ReadRecordInfos` is proved to compute it |
| RecordInfos.ReadRow | MDict.Csharp/Models/BaseDict.cs:1050-1065 | one iteration reads the row of the specification and moves the offset by two fields |
| RecordInfos.ReadRows | MDict.Csharp/Models/BaseDict.cs:1048-1066 | the for loop reads `RowsUpTo` and ends at offset `2·count·width` |
| RecordInfos.ReadTable | MDict.Csharp/Models/BaseDict.cs:1044-1084 | rows, both size checks and the last keyword's end, as `RecordInfosOf` |
| RecordInfos.ReadRecordInfos | MDict.Csharp/Models/BaseDict.cs:1039-1088 | the method computes `ReadRecordInfosSpec` |
| Records.RecordAccumulatedSorted | MDict.Csharp/Models/BaseDict.cs:1056-1065 | unpack accumulators never decrease along the record-info list |
| Reader.Insert | MDict.Csharp/Models/BaseDict.cs:520 | inserting adds one entry |
| Reader.InsertPermutes | MDict.Csharp/Models/BaseDict.cs:520 | inserting adds exactly that entry to the multiset |
| Reader.InsertSorted | MDict.Csharp/Models/BaseDict.cs:520 | inserting into an ordinally sorted list keeps it sorted |
| Reader.SortByText | MDict.Csharp/Models/BaseDict.cs:520 | the sort keeps the length |
| Reader.SortPermutes | MDict.Csharp/Models/BaseDict.cs:520 | the sorted keyword list is a permutation of the list read |
| Reader.SortSorted | MDict.Csharp/Models/BaseDict.cs:520 | the sorted keyword list is ordinally sorted by key text |
| Reader.ReadDictSpec | MDict.Csharp/Models/BaseDict.cs:491-521 | an opened dictionary has bit 0 of `Encrypt` clear, `KeywordBlocksNum` accumulated key infos, `KeywordNum` keywords sorted ordinally, matching entry counts, and accumulated record infos summing to `RecordBlockCompSize` |
| Dict.Mid | MDict.Csharp/Models/Dict.cs:62 | `left + (right - left >> 1)` lies in [left, right] and splits it evenly |
| Dict.Signs | MDict.Csharp/Models/Dict.cs:63 | one sign per entry: the ordinal comparison of the word with that entry's text |
| Dict.KeywordProbeBelow | MDict.Csharp/Models/Dict.cs:60-70 | when the search ends above an entry, the next entry is above the word or absent |
| Dict.KeywordProbeAbove | MDict.Csharp/Models/Dict.cs:60-70 | when the search ends below an entry, the previous entry is below the word or absent |
| Dict.KeywordProbeRange | MDict.Csharp/Models/Dict.cs:60-70 | the probed index always stays inside the list |
| Dict.KeywordProbe | MDict.Csharp/Models/Dict.cs:56-70 | the binary-search loop as a recursion on the window, returning the last probe; `KeywordProbeRange`, `KeywordProbeBelow` and `KeywordProbeAbove` state its range and neighbours |
| Dict.KeywordIndex | MDict.Csharp/Models/Dict.cs:54-70 | the last probed index is in range and, when it misses, sits next to where the word would go |
| Dict.KeywordHit | MDict.Csharp/Models/Dict.cs:45-76 | an empty list is out of range; a result is in the list; outside associate mode its text equals the word; in associate mode there always is one |
| Dict.KeywordNeighbour | MDict.Csharp/Models/Dict.cs:60-72 | in a sorted list the probed entry is the word or borders the gap where the word would be |
| Dict.KeywordFound | MDict.Csharp/Models/Dict.cs:54-75 | if a sorted list contains the word, the search lands on an entry with that text |
| Dict.KeywordMissing | MDict.Csharp/Models/Dict.cs:72-73 | in a sorted non-empty list, the exact search returns null exactly when no entry has the word's text |
| Dict.KeyInfoProbeSound | MDict.Csharp/Models/Dict.cs:133-146 | the loop returns -1 or an index whose `FirstKey ≤ word ≤ LastKey` |
| Dict.KeyInfoProbe | MDict.Csharp/Models/Dict.cs:133-146 | the key-info loop as a recursion on the window; `KeyInfoProbeSound` proves the result is -1 or a covering index and `KeyInfoProbeFinds` that a covered word is found |
| Dict.KeyInfoIndex | MDict.Csharp/Models/Dict.cs:126-147 | -1 or an index of a key info covering the word |
| Dict.CoversUnique | MDict.Csharp/Models/Dict.cs:126-147 | with ordered disjoint key ranges, at most one key info covers a word |
| Dict.LastKeysIncrease | MDict.Csharp/Models/Dict.cs:126-147 | with ordered key ranges the last keys increase strictly along the list |
| Dict.KeyInfoProbeFinds | MDict.Csharp/Models/Dict.cs:133-146 | with ordered ranges, the loop finds the covering index |
| Dict.KeyInfoFound | MDict.Csharp/Models/Dict.cs:126-147 | with ordered ranges, a covered word is found at its covering index |
| Dict.BlockProbeFloors | MDict.Csharp/Models/Dict.cs:221-229 | the loop keeps every index left of `left` at or below the offset and every index right of `right` above it |
| Dict.BlockProbe | MDict.Csharp/Models/Dict.cs:218-229 | the record-block loop as a recursion on the window, giving left - 1; `BlockProbeFloors` states the floor it computes |
| Dict.BlockIndex | MDict.Csharp/Models/Dict.cs:216-230 | `left - 1` is -1 or an index whose accumulator is ≤ the offset, with the next accumulator above it |
| Dict.BlockIndexFloors | MDict.Csharp/Models/Dict.cs:216-230 | with nondecreasing accumulators, the result is the largest index whose accumulator is ≤ the offset, or -1 if there is none |
| Dict.BlockIndexOf | MDict.Csharp/Models/Dict.cs:216-230 | the block whose range contains the offset is the one returned |
| Dict.DecompressBuff | MDict.Csharp/Models/Dict.cs:154-210 | a success has one of the three magics; any other magic raises "unknown compression type" |
| Dict.DecompressStored | MDict.Csharp/Models/Dict.cs:166-169 | magic 00000000 returns bytes [8..], whatever the encryption |
| Dict.DecompressLzo | MDict.Csharp/Models/Dict.cs:185-197 | unencrypted magic 01000000 decompresses bytes [8..] with LZO1X |
| Dict.DecompressLostWordStream | MDict.Csharp/Models/Dict.cs:185-197 | an unencrypted LZO record block holding the 10-byte stream of "## Findings" unpacks to "abcd" three times, while the as-written decoder gives "abcd" and eight zero bytes |
| Dict.DecompressZlib | MDict.Csharp/Models/Dict.cs:198-202 | unencrypted magic 02000000 inflates bytes [8..] |
| Dict.DecompressEncrypted | MDict.Csharp/Models/Dict.cs:176-191 | with `Encrypt == 1` the whole `MdxDecrypt` output, 8-byte prefix included, goes to the corrected LZO decoder `LzoSpec.Decompress(…, true)` |
| Dict.CutSlice | MDict.Csharp/Models/Dict.cs:99-102 | the record is bytes [RecordStart - acc, RecordEnd - acc) of the unpacked block |
| Dict.Cut | MDict.Csharp/Models/Dict.cs:99-102 | the Skip/Take cut with both offsets taken relative to the block and cast to int; `CutSlice` proves it is the slice of the record where the offsets lie in the block |
| Dict.RecordIn | MDict.Csharp/Models/Dict.cs:91-102 | the block read at its accumulated offset, decompressed and cut; `RecordInStored` and `RecordOfBlock` state what it returns |
| Dict.RecordOf | MDict.Csharp/Models/Dict.cs:89-103 | with no record infos the lookup is out of range |
| Dict.RecordInStored | MDict.Csharp/Models/Dict.cs:93-102 | the block is read from `PackSize` bytes at `recordBlockStart + PackAccumulateOffset`, and a stored block yields the slice of the record |
| Dict.RecordOfBlock | MDict.Csharp/Models/Dict.cs:91-92 | the record is looked up in the block whose unpacked range contains its start |
| Dict.PartialKeyBlock | MDict.Csharp/Models/Dict.cs:112-119 | an id outside the key-info list is out of range; otherwise the block's chained entries, all tagged with the id |
| Dict.Dict.constructor | MDict.Csharp/Models/Dict.cs:26-37 | the fields hold what the reader produced |
| Dict.Dict.Open | MDict.Csharp/Models/BaseDict.cs:386-461 | opening succeeds exactly when reading the file does, and the new object holds the read index and satisfies `Valid` |
| Dict.Dict.Valid | MDict.Csharp/Models/BaseDict.cs:503-520 | what the reader leaves behind and `Close` keeps: a width that fits the version, the even encryption flag the key-header check allows, the ordinally sorted keyword list and accumulated record infos |
| Dict.Dict.LookupKeyBlockByWord | MDict.Csharp/Models/Dict.cs:45-76 | the binary-search loop computes `KeywordHit` over the keyword list |
| Dict.Dict.LookupKeyInfoByWord | MDict.Csharp/Models/Dict.cs:126-147 | the loop computes `KeyInfoIndex` over the given list, or the object's when none is given |
| Dict.Dict.ReduceRecordBlockInfo | MDict.Csharp/Models/Dict.cs:216-230 | the loop computes `BlockIndex` over the record-info list |
| Dict.Dict.LookupRecordByKeyBlock | MDict.Csharp/Models/Dict.cs:89-103 | reads the record as `RecordOf` over the object's state |
| Dict.Dict.LookupPartialKeyBlockListByKeyInfoId | MDict.Csharp/Models/Dict.cs:112-119 | reads one key block's entries as `PartialKeyBlock` |
| Dict.Dict.Close | MDict.Csharp/Models/Dict.cs:235-241 | empties the keyword, key-info and record-info lists, keeps every other field and keeps `Valid` |
| Dict.ClosedLookupsFail | MDict.Csharp/Models/Dict.cs:235-241 | after `Close`, keyword searches are out of range, record lookups fail and key-info searches return -1 |
| MdxDict.FilterMembers | MDict.Csharp/Models/MdxDict.cs:97 | LINQ `Where` keeps exactly the elements that satisfy the predicate |
| MdxDict.FilterSubsequence | MDict.Csharp/Models/MdxDict.cs:97 | `Where` keeps the list order: the result is a subsequence |
| MdxDict.Filter | MDict.Csharp/Models/MdxDict.cs:97 | `Where` never adds elements |
| MdxDict.FilterSnoc | MDict.Csharp/Models/MdxDict.cs:97 | a list with one more element filters to the old result plus that element exactly when it satisfies the predicate |
| MdxDict.FetchOf | MDict.Csharp/Models/MdxDict.cs:54-63 | succeeds exactly when the record lookup does, and returns the item's own key text with the decoded definition; `FetchDefinition` (MdxDict.cs:139-148) has the same body |
| MdxDict.LookupOf | MDict.Csharp/Models/MdxDict.cs:28-43 | the returned text is always the query word; a definition is only returned when the search found an entry with that text; an empty list is out of range |
| MdxDict.LookupAbsent | MDict.Csharp/Models/MdxDict.cs:28-34 | on a sorted list the result is `(word, null)` exactly when no entry has the word's text |
| MdxDict.LookupIsFetch | MDict.Csharp/Models/MdxDict.cs:28-43 | when the word is present, the lookup is the fetch of an entry with that text |
| MdxDict.Decoded | MDict.Csharp/Models/MdxDict.cs:36-42 | the record of the hit decoded with the dictionary's encoding, a failure where the record lookup fails; `LookupIsFetch` relates it to the lookup |
| MdxDict.AssociateOf | MDict.Csharp/Models/MdxDict.cs:89-98 | fails exactly on an empty list; returns exactly the keywords whose `KeyBlockIdx` equals the associate-mode hit's, the hit included |
| MdxDict.InBlock | MDict.Csharp/Models/MdxDict.cs:97 | the `Where` test of Associate, equality of `KeyBlockIdx`; `AssociateOf` proves the result is exactly the keywords passing it |
| MdxDict.AssociateInOrder | MDict.Csharp/Models/MdxDict.cs:97 | the associated entries are in keyword-list order |
| MdxDict.PrefixOf | MDict.Csharp/Models/MdxDict.cs:74-78 | exactly the associated entries whose text starts with the prefix |
| MdxDict.StartsWithPrefix | MDict.Csharp/Models/MdxDict.cs:77 | the `Where` test of Prefix, the host's `StartsWith`; `PrefixOf` proves the result is exactly the entries passing it |
| MdxDict.PrefixInOrder | MDict.Csharp/Models/MdxDict.cs:74-78 | the prefix result is a subsequence of `Associate(prefix)` |
| MdxDict.SuggestOf | MDict.Csharp/Models/MdxDict.cs:112-128 | exactly the associated entries with `Levenshtein(Strip(key), Strip(phrase)) ≤ distance` |
| MdxDict.SuggestInOrder | MDict.Csharp/Models/MdxDict.cs:112-128 | the suggestions keep `Associate` order |
| MdxDict.Fuzzy | MDict.Csharp/Models/MdxDict.cs:176-183 | a fuzzy word copies the entry's offsets, text and block index and records the distance |
| MdxDict.Item | MDict.Csharp/Models/MdxDict.cs:176-183 | the keyword a fuzzy word was copied from, the inverse of `Fuzzy`; `FuzzyMembers` uses it to state that each result copies an associated entry |
| MdxDict.KeyDistance | MDict.Csharp/Models/MdxDict.cs:119-120 | the distance both Suggest and FuzzySearch measure, `LevenshteinDistance` of the stripped key and the stripped phrase; `SuggestOf` and `CandidatesMembers` state the filters by it |
| MdxDict.Candidates | MDict.Csharp/Models/MdxDict.cs:170-185 | at most one candidate per associated entry |
| MdxDict.CandidatesMembers | MDict.Csharp/Models/MdxDict.cs:170-185 | the candidates are exactly the associated entries within the distance, each with its own distance |
| MdxDict.InsertByEd | MDict.Csharp/Models/MdxDict.cs:188 | inserting adds one element |
| MdxDict.SortByEd | MDict.Csharp/Models/MdxDict.cs:188 | `OrderBy(Ed)` keeps the length |
| MdxDict.InsertByEdPermutes | MDict.Csharp/Models/MdxDict.cs:188 | inserting adds exactly that element to the multiset |
| MdxDict.InsertByEdSorted | MDict.Csharp/Models/MdxDict.cs:188 | inserting into an Ed-sorted list keeps it sorted |
| MdxDict.SortByEdSorted | MDict.Csharp/Models/MdxDict.cs:188 | the order is nondecreasing in Ed and a permutation of the candidates |
| MdxDict.InsertByEdStable | MDict.Csharp/Models/MdxDict.cs:188 | inserting puts the element after those with equal Ed |
| MdxDict.SortByEdStable | MDict.Csharp/Models/MdxDict.cs:188 | the sort is stable: the elements of each Ed keep their original order |
| MdxDict.TakeMembers | MDict.Csharp/Models/MdxDict.cs:189 | `Take` keeps only elements of its input |
| MdxDict.FuzzyOf | MDict.Csharp/Models/MdxDict.cs:165-191 | succeeds exactly when `Associate` does and has at most `fuzzySize` elements (none for a size ≤ 0) |
| MdxDict.FuzzyMembers | MDict.Csharp/Models/MdxDict.cs:165-191 | the result is sorted by Ed, and each element copies an associated entry, with Ed its distance and at most `distance` |
| MdxDict.SortedPrefix | MDict.Csharp/Models/MdxDict.cs:187-190 | a prefix of the Ed-ordered candidates is itself ordered by Ed and holds only candidates |
| MdxDict.FuzzyKeepsClosest | MDict.Csharp/Models/MdxDict.cs:187-190 | a candidate strictly closer than a kept one is kept too |
| MdxDict.KeptBefore | MDict.Csharp/Models/MdxDict.cs:187-190 | taking a prefix of an Ed-sorted list keeps every element strictly closer than a kept one |
| MdxDict.Lookup | MDict.Csharp/Models/MdxDict.cs:28-43 | over an open dictionary, computes `LookupOf` |
| MdxDict.Fetch | MDict.Csharp/Models/MdxDict.cs:54-63 | computes `FetchOf` |
| MdxDict.Associate | MDict.Csharp/Models/MdxDict.cs:89-98 | computes `AssociateOf` |
| MdxDict.Prefix | MDict.Csharp/Models/MdxDict.cs:74-78 | computes `PrefixOf` |
| MdxDict.Suggest | MDict.Csharp/Models/MdxDict.cs:112-128 | the foreach loop computes `SuggestOf` |
| MdxDict.FuzzyWords | MDict.Csharp/Models/MdxDict.cs:167-185 | the foreach loop collects the candidates |
| MdxDict.FuzzySearch | MDict.Csharp/Models/MdxDict.cs:165-191 | computes `FuzzyOf`: associate, collect, order by Ed, take |
| LzoSpec.CsRem | MDict.Csharp/Utils/Lzo1x.cs:131 | the C# `%`, which truncates: for a negative left operand the remainder is in (-b, 0] |
| LzoSpec.CsDiv | MDict.Csharp/Utils/Lzo1x.cs:141 | the C# `/`, which truncates toward zero |
| LzoSpec.CopyBytes | MDict.Csharp/Utils/Lzo1x.cs:148-151 | the byte-at-a-time copy adds k bytes, succeeds only from a non-negative match position, and otherwise fails as out of range |
| LzoSpec.CopyBytesOverlap | MDict.Csharp/Utils/Lzo1x.cs:148-151 | the copy keeps the output and repeats it at the match distance, so overlapping matches replicate |
| LzoSpec.CopyWords | MDict.Csharp/Utils/Lzo1x.cs:139-145 | the word loop moves both positions by the bytes it copies and stops with 1..4 left |
| LzoSpec.Word | MDict.Csharp/Utils/Lzo1x.cs:139-145 | what one `out32` store leaves in `outBuf`: the four bytes when words are shared, zeros as written; `AsWrittenWordCopyLosesBytes` and `SharedWordsAreBytes` state the two behaviours |
| LzoSpec.CopyMatch | MDict.Csharp/Utils/Lzo1x.cs:125-152 | a match adds t + 2 bytes, leaves `ip` alone and `t` at 0, or fails as out of range |
| LzoSpec.ByteMatch | MDict.Csharp/Utils/Lzo1x.cs:148-151 | the bytewise match adds t + 2 bytes |
| LzoSpec.AlignedMatch | MDict.Csharp/Utils/Lzo1x.cs:131-151 | the aligned path adds t + 2 bytes, leaves `ip` alone and `t` at 0, or fails as out of range |
| LzoSpec.HeadLen | MDict.Csharp/Utils/Lzo1x.cs:133-137 | the bytes copied one at a time to reach a word boundary number fewer than 4 |
| LzoSpec.WordsThenBytes | MDict.Csharp/Utils/Lzo1x.cs:139-151 | the word loop followed by the byte loop adds t bytes, leaves `ip` alone and `t` at 0 |
| LzoSpec.ByteCopy | MDict.Csharp/Utils/Lzo1x.cs:148-151 | the final do-while copy adds t bytes, leaves `ip` alone and `t` at 0 |
| LzoSpec.CopyBytesThen | MDict.Csharp/Utils/Lzo1x.cs:148-151 | copying h and then n - h bytes is copying n bytes |
| LzoSpec.CopyBytesSplit | MDict.Csharp/Utils/Lzo1x.cs:148-151 | copying k bytes is appending the first j bytes at the match, then copying the rest |
| LzoSpec.Literals | MDict.Csharp/Utils/Lzo1x.cs:176-179 | copying t literals succeeds exactly when t bytes remain, and appends them |
| LzoSpec.LiteralWords | MDict.Csharp/Utils/Lzo1x.cs:167-173 | the literal word loop moves both positions by the bytes it copies |
| LzoSpec.CopyFromBuf | MDict.Csharp/Utils/Lzo1x.cs:154-180 | a literal run moves `ip` by t inside the input and adds t output bytes |
| LzoSpec.SharedWordsAreBytes | MDict.Csharp/Utils/Lzo1x.cs:139-145 | with the words written into the output, the word loop followed by the byte copy equals the byte copy alone |
| LzoSpec.SharedAlignedMatch | MDict.Csharp/Utils/Lzo1x.cs:131-151 | with the words written into the output, the aligned path equals the bytewise match |
| LzoSpec.SharedWordsThenBytes | MDict.Csharp/Utils/Lzo1x.cs:139-151 | with the words written into the output, words then bytes equals bytes alone |
| LzoSpec.SharedLiteralWordsAreBytes | MDict.Csharp/Utils/Lzo1x.cs:167-179 | with the words written into the output, the literal word loop followed by the byte copy equals copying the literals bytewise |
| LzoSpec.ZeroRun | MDict.Csharp/Utils/Lzo1x.cs:203-208 | the zero-run extension consumes at least one byte inside the input and yields a length above t + base |
| LzoSpec.LengthField | MDict.Csharp/Utils/Lzo1x.cs:200-209 | a nonzero field is the length itself; a zero field reads the zero-run extension |
| LzoSpec.ZeroRunReadsLength | MDict.Csharp/Utils/Lzo1x.cs:203-208 | a length n written as the encoder does, zeros for each 255 and a final byte, reads back as t + base + n |
| LzoSpec.LengthFieldReads | MDict.Csharp/Utils/Lzo1x.cs:200-209 | a length v written in the instruction or in its zero-run extension reads back as v |
| LzoSpec.MatchNext | MDict.Csharp/Utils/Lzo1x.cs:103-117 | copies 1 to 3 literals and reads the next control byte |
| LzoSpec.MatchDone | MDict.Csharp/Utils/Lzo1x.cs:119-123 | sets `t` to the low two bits of `buf[ip - 2]` and changes nothing else |
| LzoSpec.MatchStep | MDict.Csharp/Utils/Lzo1x.cs:186-256 | every instruction class consumes input and sets a match position inside the output |
| LzoSpec.MatchStepRanges | MDict.Csharp/Utils/Lzo1x.cs:186-240 | t ≥ 64, 32..63 and 16..31 select the three long match classes |
| LzoSpec.NearStepReads | MDict.Csharp/Utils/Lzo1x.cs:186-191 | t ≥ 64 copies `(t >> 5) + 1` bytes from distance `1 + ((t >> 2) & 7) + (next << 3)` |
| LzoSpec.NearStep | MDict.Csharp/Utils/Lzo1x.cs:186-197 | instruction 64..255 as the next match position and length; `NearStepReads` states the formulas and `NearMatchDecodes` the copy |
| LzoSpec.M2Distance | MDict.Csharp/Utils/Lzo1x.cs:188-190 | the distance of a 64..255 instruction, `1 + ((t >> 2) & 7) + (next << 3)`; `NearStepReads` states it for the step |
| LzoSpec.Distance14 | MDict.Csharp/Utils/Lzo1x.cs:211 | the 14-bit distance field `(b0 >> 2) + (b1 << 6)` of the 16..63 instructions; `MidStepReads` and `FarStepReads` use it |
| LzoSpec.FarBit | MDict.Csharp/Utils/Lzo1x.cs:217 | `(t & 8) << 11`, bit 14 of a far distance; `FarStepReads` uses it |
| LzoSpec.M1Distance | MDict.Csharp/Utils/Lzo1x.cs:244-245 | the distance `1 + (t >> 2) + (next << 2)` of the two-byte matches after a literal run |
| LzoSpec.MidStep | MDict.Csharp/Utils/Lzo1x.cs:198-213 | instruction 32..63 with its length field and two distance bytes; `MidStepReads` states the formulas and `MidMatchDecodes` the copy |
| LzoSpec.FarStep | MDict.Csharp/Utils/Lzo1x.cs:214-240 | instruction 16..31, the end of the stream at distance zero; `FarStepReads` and `MarkerEndsStream` state both outcomes and `FarMatchDecodes` the copy |
| LzoSpec.ShortStep | MDict.Csharp/Utils/Lzo1x.cs:241-256 | instruction 0..15 inside the match loop, a two-byte match; `MatchStep` states it consumes input, and `Lzo.ShortDecode` is proved to compute it |
| LzoSpec.MidStepReads | MDict.Csharp/Utils/Lzo1x.cs:198-212 | 32 ≤ t < 64 copies `(t & 31) + 2` bytes, extended when zero, from distance `1 + (b0 >> 2) + (b1 << 6)` |
| LzoSpec.FarStepReads | MDict.Csharp/Utils/Lzo1x.cs:214-239 | 16 ≤ t < 32 with a nonzero distance copies from `0x4000 + ((t & 8) << 11) + (b0 >> 2) + (b1 << 6)` back |
| LzoSpec.NearMatchDecodes | MDict.Csharp/Utils/Lzo1x.cs:186-191 | a near instruction of length 4..8 and distance 1..0x800 decodes to that copy |
| LzoSpec.MidMatchDecodes | MDict.Csharp/Utils/Lzo1x.cs:198-212 | a mid instruction of length 4 or more and distance 1..0x4000 decodes to that copy |
| LzoSpec.FarMatchDecodes | MDict.Csharp/Utils/Lzo1x.cs:214-239 | a far instruction of length 4 or more and distance above 0x4000 decodes to that copy |
| LzoSpec.NearBytesDecode | MDict.Csharp/Utils/Lzo1x.cs:186-191 | the encoded near instruction bytes decode to their match |
| LzoSpec.MidBytesDecode | MDict.Csharp/Utils/Lzo1x.cs:198-212 | the encoded mid instruction bytes decode to their match |
| LzoSpec.FarBytesDecode | MDict.Csharp/Utils/Lzo1x.cs:214-239 | the encoded far instruction bytes decode to their match |
| LzoSpec.MatchBytesDecode | MDict.Csharp/Utils/Lzo1x.cs:186-240 | every match of length 4 or more and distance below 0xC000, encoded as an instruction, decodes back to the same length and distance |
| LzoSpec.NearBytes | MDict.Csharp/Utils/Lzo1x.cs:476-481 | the compressor's encoding of a match of 3..8 bytes within 0x0800; `NearBytesDecode` proves the decoder reads it back |
| LzoSpec.MidBytes | MDict.Csharp/Utils/Lzo1x.cs:482-503 | the encoding of a match within 0x4000, with its length field; `MidBytesDecode` proves the decoder reads it back |
| LzoSpec.FarBytes | MDict.Csharp/Utils/Lzo1x.cs:504-525 | the encoding of a match beyond 0x4000; `FarBytesDecode` proves the decoder reads it back |
| LzoSpec.MidInstr | MDict.Csharp/Utils/Lzo1x.cs:485-490 | the instruction byte of a match within 0x4000: 32 plus len - 2 when len fits in 33, else 32 and a length field; `MidBytesDecode` proves it reads back |
| LzoSpec.FarInstr | MDict.Csharp/Utils/Lzo1x.cs:507-512 | the far instruction byte: 16, plus 8 for bit 14 of the distance, plus len - 2 when len fits in 9, else without the length; `FarBytesDecode` proves it reads back |
| LzoSpec.DistanceBytes | MDict.Csharp/Utils/Lzo1x.cs:501-502 | `(byte)(d << 2)` then `(byte)(d >> 6)`; `DistanceAt` proves `Distance14` reads back the part of d below 0x4000 |
| LzoSpec.LongLength | MDict.Csharp/Utils/Lzo1x.cs:491-498 | no length field when the length fits in the instruction, else `LengthBytes` of the rest; `LengthFieldReads` proves the decoder reads it back |
| LzoSpec.MatchBytes | MDict.Csharp/Utils/Lzo1x.cs:476-525 | the choice among the three match forms by length and distance; `MatchBytesDecode` proves every such match decodes to its length and distance |
| LzoSpec.LengthBytes | MDict.Csharp/Utils/Lzo1x.cs:491-498 | the zero-run length field: a zero per 255 beyond the first, then the rest, never empty; `ZeroRunReadsLength` and `LengthFieldReads` prove the decoder reads it back |
| LzoSpec.MarkerEndsStream | MDict.Csharp/Utils/Lzo1x.cs:214-237 | an instruction 17..23 followed by two zero bytes, such as the trailer 17, 0, 0, ends the stream with the output so far |
| LzoSpec.Match | MDict.Csharp/Utils/Lzo1x.cs:182-265 | the match loop either reaches the end marker or breaks having consumed input |
| LzoSpec.MatchTail | MDict.Csharp/Utils/Lzo1x.cs:258-261 | the common tail after a long match copies, then breaks or continues the loop, consuming input when it breaks |
| LzoSpec.MatchOneStep | MDict.Csharp/Utils/Lzo1x.cs:182-265 | one instruction, one copy and a zero trailing count break out of the loop |
| LzoSpec.LiteralRun | MDict.Csharp/Utils/Lzo1x.cs:322-333 | a literal instruction below 16 succeeds only by consuming input |
| LzoSpec.LiteralHeaderDecodes | MDict.Csharp/Utils/Lzo1x.cs:322-333 | the literal header the compressor emits for t ≥ 4 decodes to those t literals |
| LzoSpec.LiteralHeader | MDict.Csharp/Utils/Lzo1x.cs:423-437 | the instruction of a literal run of t ≥ 4 bytes that does not start the stream; `LiteralHeaderReads` and `LiteralHeaderDecodes` prove the decoder reads it back |
| LzoSpec.FirstLiteralHeader | MDict.Csharp/Utils/Lzo1x.cs:564-566 | the single instruction byte `17 + t` that opens a stream with at most 238 literals; `DecompressFirstRun` and `DecompressFirstShort` decode it |
| LzoSpec.LiteralHeaderReads | MDict.Csharp/Utils/Lzo1x.cs:322-330 | the length the compressor writes for t ≥ 4 literals reads back as t - 3 |
| LzoSpec.ThreeStep | MDict.Csharp/Utils/Lzo1x.cs:340-352 | after literals, an instruction below 16 reads one more byte and adds three output bytes |
| LzoSpec.TrailingMatch | MDict.Csharp/Utils/Lzo1x.cs:340-358 | the three-byte match after literals breaks only after consuming input |
| LzoSpec.AfterLiterals | MDict.Csharp/Utils/Lzo1x.cs:340-362 | the step after a literal run consumes input or ends the stream |
| LzoSpec.AfterLiteralsTrailing | MDict.Csharp/Utils/Lzo1x.cs:340-358 | a control byte below 16 takes the three-byte match path |
| LzoSpec.AfterLiteralsMatch | MDict.Csharp/Utils/Lzo1x.cs:359-362 | a control byte of 16 or more goes to `Match` |
| LzoSpec.Turn | MDict.Csharp/Utils/Lzo1x.cs:309-363 | one turn of the outer loop consumes input or ends the stream |
| LzoSpec.TurnMatches | MDict.Csharp/Utils/Lzo1x.cs:313-319 | a control byte of 16 or more is handed to `Match` |
| LzoSpec.LoopEnds | MDict.Csharp/Utils/Lzo1x.cs:316-318 | a turn that meets the end marker ends the outer loop with that turn's output |
| LzoSpec.LoopBreaks | MDict.Csharp/Utils/Lzo1x.cs:309-363 | a turn that breaks continues the outer loop from its registers |
| LzoSpec.Loop | MDict.Csharp/Utils/Lzo1x.cs:309-363 | the `while (true)` loop as a recursion on the unread input; `LoopEnds` and `LoopBreaks` state how a turn ends or continues it, and `Lzo.Lzo1x.Run` is proved to compute it |
| LzoSpec.Decompress | MDict.Csharp/Utils/Lzo1x.cs:267-364 | the decoder's semantics, with the out32 copy as written (shared false) or as intended (shared true); `ShortRoundTrip` proves it inverts `Compressed`, `Lzo.Lzo1x.Decompress` is proved equal to it with shared false, and `AsWrittenStreamLosesBytes` shows where the two differ |
| LzoSpec.DecompressFirstRun | MDict.Csharp/Utils/Lzo1x.cs:292-306 | a first byte of 21 or more copies `byte - 17` literals and skips to the first-literal path |
| LzoSpec.DecompressFirstShort | MDict.Csharp/Utils/Lzo1x.cs:295-300 | a first byte of 18..20 copies 1..3 literals and enters `Match` |
| LzoSpec.CompressedParts | MDict.Csharp/Utils/Lzo1x.cs:564-596 | a short input compresses to `[17 + n] ++ input ++ [17, 0, 0]` |
| LzoSpec.Compressed | MDict.Csharp/Utils/Lzo1x.cs:564-596 | what `Compress` writes for fewer than 32 bytes; `CompressedParts` states its layout, `ShortRoundTrip` that it decompresses back under both flags, and `Lzo.CompressShort` is proved to write it |
| LzoSpec.TinyRoundTrip | MDict.Csharp/Utils/Lzo1x.cs:292-301 | 1 to 3 bytes compressed by `Compress` decompress to the input |
| LzoSpec.RunRoundTrip | MDict.Csharp/Utils/Lzo1x.cs:302-306 | 4 to 31 bytes compressed by `Compress` decompress to the input |
| LzoSpec.ShortRoundTrip | MDict.Csharp/Utils/Lzo1x.cs:531-600 | every input below 32 bytes, the empty one included, survives `Compress` then `Decompress` |
| LzoSpec.SharedCopyMatchIsBytewise | MDict.Csharp/Utils/Lzo1x.cs:125-152 | with the words written into the output, the aligned match copy equals the byte-at-a-time copy |
| LzoSpec.SharedCopyFromBufIsBytewise | MDict.Csharp/Utils/Lzo1x.cs:154-180 | with the words written into the output, the aligned literal copy equals the byte-at-a-time copy |
| LzoSpec.AsWrittenWordCopyLosesBytes | MDict.Csharp/Utils/Lzo1x.cs:131-146 | a concrete 8-byte match from distance 4: as written it leaves 8 zero bytes, while the intended copy repeats "abcd" |
| LzoSpec.AsWrittenStreamLosesBytes | MDict.Csharp/Utils/Lzo1x.cs:131-146 | the 10-byte stream `[21, 'a', 'b', 'c', 'd', 236, 0, 17, 0, 0]` decodes as written to "abcd" plus 8 zeros, and as intended to "abcdabcdabcd" |
| Lzo.Lzo1x.Ctzl | MDict.Csharp/Utils/Lzo1x.cs:68-85 | for nonzero v, bit c is set and every lower bit is clear; for 0 the result is 31 |
| Lzo.Lzo1x.ExtendBuffer | MDict.Csharp/Utils/Lzo1x.cs:87-96 | capacity grows by exactly `BlockSize`, the first `op` bytes are kept, `out32` is a fresh copy of the new buffer, and `state.outputBuffer` is the new buffer |
| Lzo.Lzo1x.EnsureRoom | MDict.Csharp/Utils/Lzo1x.cs:105-106 | the `while (op + n > cbl) ExtendBuffer()` loop leaves room for n more bytes and the output unchanged |
| Lzo.Lzo1x.MatchNext | MDict.Csharp/Utils/Lzo1x.cs:103-117 | moves the registers as `LzoSpec.MatchNext`, failing where it does |
| Lzo.Lzo1x.MatchDone | MDict.Csharp/Utils/Lzo1x.cs:119-123 | moves the registers as `LzoSpec.MatchDone` and returns the new `t` |
| Lzo.Lzo1x.CopyMatch | MDict.Csharp/Utils/Lzo1x.cs:125-152 | moves the registers as the as-written `LzoSpec.CopyMatch` |
| Lzo.Lzo1x.CopyFromBuf | MDict.Csharp/Utils/Lzo1x.cs:154-180 | moves the registers as the as-written `LzoSpec.CopyFromBuf` and leaves the input alone |
| Lzo.Lzo1x.ShortMatch | MDict.Csharp/Utils/Lzo1x.cs:241-251 | the t < 16 match copies two bytes as `ShortStep` |
| Lzo.Lzo1x.Decode | MDict.Csharp/Utils/Lzo1x.cs:186-256 | decodes one match instruction as `MatchStep`, reporting the end marker |
| Lzo.Lzo1x.Match | MDict.Csharp/Utils/Lzo1x.cs:182-265 | the `while (true)` loop fails exactly when `LzoSpec.Match` does; it returns OK with the registers where the specification breaks, or `EOF_FOUND` with `state.outputBuffer` equal to the output where it ends |
| Lzo.Lzo1x.MatchTurn | MDict.Csharp/Utils/Lzo1x.cs:184-262 | one turn of the match loop either continues from registers whose remaining loop equals the loop before, having consumed input, or reports the loop's result |
| Lzo.Lzo1x.MatchRest | MDict.Csharp/Utils/Lzo1x.cs:193-196 | after a decoded instruction, the copy and its tail continue or report as the specification's loop |
| Lzo.Lzo1x.Finish | MDict.Csharp/Utils/Lzo1x.cs:258-264 | the common tail, as `LzoSpec.MatchTail` |
| Lzo.Lzo1x.Trailing | MDict.Csharp/Utils/Lzo1x.cs:340-358 | the three-byte match after literals, as `LzoSpec.TrailingMatch` |
| Lzo.Lzo1x.Fetch | MDict.Csharp/Utils/Lzo1x.cs:313 | reads the next control byte into `t` |
| Lzo.Lzo1x.ThreeMatch | MDict.Csharp/Utils/Lzo1x.cs:340-352 | the three-byte match after literals, as `ThreeStep` |
| Lzo.Lzo1x.AfterLiterals | MDict.Csharp/Utils/Lzo1x.cs:340-362 | the step after a literal run, as `LzoSpec.AfterLiterals` |
| Lzo.Lzo1x.LiteralRun | MDict.Csharp/Utils/Lzo1x.cs:322-333 | a literal instruction, as `LzoSpec.LiteralRun` |
| Lzo.Lzo1x.Turn | MDict.Csharp/Utils/Lzo1x.cs:311-362 | one turn of the outer loop, as `LzoSpec.Turn` |
| Lzo.Lzo1x.Run | MDict.Csharp/Utils/Lzo1x.cs:309-363 | the outer loop ends with `EOF_FOUND` and the output of `Loop` exactly when `Loop` succeeds |
| Lzo.Lzo1x.Setup | MDict.Csharp/Utils/Lzo1x.cs:269-290 | the initial arrays and registers: input attached, `buf32` of the input padded to whole words, a fresh output shared with `state.outputBuffer` whose length, and so `cbl`, is the input length rounded up to a multiple of 4096 (`OutLength`), `out32` of a quarter of that length, all registers 0 |
| Lzo.Lzo1x.Attach | MDict.Csharp/Utils/Lzo1x.cs:269-290 | stores the input, the word buffers and the zeroed output, registers 0 |
| Lzo.Lzo1x.Start | MDict.Csharp/Utils/Lzo1x.cs:292-307 | the first instruction either returns as `LzoSpec.Decompress` does or leaves the loop still to run equal to it |
| Lzo.Lzo1x.FirstInstruction | MDict.Csharp/Utils/Lzo1x.cs:292-294 | a first byte above 17 leaves `t` at that byte minus 17 and `ip` at 1 |
| Lzo.Lzo1x.Seek | MDict.Csharp/Utils/Lzo1x.cs:211-212 | moves `ip` and `mPos` and nothing else |
| Lzo.Lzo1x.LongStart | MDict.Csharp/Utils/Lzo1x.cs:302-306 | a first run of 4 or more literals is copied and the loop continues on the first-literal path |
| Lzo.Lzo1x.ShortStart | MDict.Csharp/Utils/Lzo1x.cs:295-300 | a first run of 1 to 3 literals goes to `Match`, which returns or continues as the specification |
| Lzo.Lzo1x.Decompress | MDict.Csharp/Utils/Lzo1x.cs:267-364 | succeeds exactly when the as-written semantics `LzoSpec.Decompress(input, false)` decode the input; a success returns OK and leaves that output in `outputBuffer` |
| Lzo.Lzo1x.Compress | MDict.Csharp/Utils/Lzo1x.cs:531-600 | on an input below 32 bytes returns OK with `outputBuffer == Compressed(input)` |
| Lzo.OutLength | MDict.Csharp/Utils/Lzo1x.cs:277 | the initial capacity is the input length rounded up to a multiple of 4096 |
| Lzo.Padded | MDict.Csharp/Utils/Lzo1x.cs:271-275 | `buf32` has the input length padded to whole words |
| Lzo.BlockCopy | MDict.Csharp/Utils/Lzo1x.cs:92-93 | `Buffer.BlockCopy` makes a separate word array with the buffer's little-endian words |
| Lzo.CopyBack | MDict.Csharp/Utils/Lzo1x.cs:131-151 | the match copy over the arrays writes the as-written output |
| Lzo.AlignedBack | MDict.Csharp/Utils/Lzo1x.cs:131-151 | the aligned match copy over the arrays writes the as-written output |
| Lzo.AlignBack | MDict.Csharp/Utils/Lzo1x.cs:133-137 | copies bytes one at a time up to the word boundary |
| Lzo.TailBack | MDict.Csharp/Utils/Lzo1x.cs:148-151 | the final byte loop writes `CopyBytes` |
| Lzo.WordLoop | MDict.Csharp/Utils/Lzo1x.cs:139-145 | the word loop writes `out32` only, so the output bytes match `CopyWords` as written |
| Lzo.CopyIn | MDict.Csharp/Utils/Lzo1x.cs:159-179 | the literal copy over the arrays writes the as-written output |
| Lzo.AlignedIn | MDict.Csharp/Utils/Lzo1x.cs:159-179 | the aligned literal copy over the arrays writes the as-written output |
| Lzo.AlignIn | MDict.Csharp/Utils/Lzo1x.cs:161-165 | copies literals one at a time up to the word boundary |
| Lzo.WordsIn | MDict.Csharp/Utils/Lzo1x.cs:167-173 | the literal word loop writes only `out32`, so the output bytes match `LiteralWords` as written |
| Lzo.WordsTailIn | MDict.Csharp/Utils/Lzo1x.cs:167-179 | the literal word loop and the byte loop together write `Literals` after the as-written words |
| Lzo.TailIn | MDict.Csharp/Utils/Lzo1x.cs:176-179 | the final byte loop appends the next t input bytes, or fails when fewer remain |
| Lzo.NextLiterals | MDict.Csharp/Utils/Lzo1x.cs:108-114 | copies 1 to 3 literal bytes |
| Lzo.PutByte | MDict.Csharp/Utils/Lzo1x.cs:108 | appends one input byte to the output |
| Lzo.CopyOut | MDict.Csharp/Utils/Lzo1x.cs:234-235 | the end-of-stream copy holds the first `op` output bytes |
| Lzo.NearDecode | MDict.Csharp/Utils/Lzo1x.cs:186-191 | decodes a t ≥ 64 instruction as `NearStep` |
| Lzo.MidDecode | MDict.Csharp/Utils/Lzo1x.cs:198-212 | decodes a 32 ≤ t < 64 instruction as `MidStep` |
| Lzo.FarDecode | MDict.Csharp/Utils/Lzo1x.cs:214-239 | decodes a 16 ≤ t < 32 instruction as `FarStep`, reporting the end marker |
| Lzo.ReadLength | MDict.Csharp/Utils/Lzo1x.cs:203-208 | the zero-run loop computes `ZeroRun` |
| Lzo.ShortDecode | MDict.Csharp/Utils/Lzo1x.cs:243-245 | decodes a t < 16 match as `ShortStep` |
| Lzo.CopyTwo | MDict.Csharp/Utils/Lzo1x.cs:250-251 | copies two bytes from the match position |
| Lzo.ThreeDecode | MDict.Csharp/Utils/Lzo1x.cs:343-345 | decodes the three-byte match after literals as `ThreeStep` |
| Lzo.CopyThree | MDict.Csharp/Utils/Lzo1x.cs:350-352 | copies three bytes from the match position |
| Lzo.ReadField | MDict.Csharp/Utils/Lzo1x.cs:322-330 | reads a literal length as `LengthField` |
| Lzo.LongStartLoops | MDict.Csharp/Utils/Lzo1x.cs:302-306 | after the first long literal run, `Decompress` is the outer loop on the first-literal path |
| Lzo.DecompressPlain | MDict.Csharp/Utils/Lzo1x.cs:292 | a first byte of 17 or less goes straight to the outer loop |
| Lzo.CompressShort | MDict.Csharp/Utils/Lzo1x.cs:558-596 | writes `Compressed(input)` into a fresh array |
| Lzo.PutLiterals | MDict.Csharp/Utils/Lzo1x.cs:564-566 | the first literal header is 17 + n followed by the input |
| Lzo.CopyLiterals | MDict.Csharp/Utils/Lzo1x.cs:588-591 | appends the input bytes |
| Lzo.PutTrailer | MDict.Csharp/Utils/Lzo1x.cs:594-596 | appends the end marker 17, 0, 0 |

## Left out

- Lzo.Lzo1x.Compress: requires fewer than 32 input bytes. From 32 bytes on, the source runs `_compressCore` (Lzo1x.cs:366-529, called at 545-556). That path is not modelled, and neither are the tail cases it leads to: the `outBuf[op - 2] |= t` merge (568-571) and the long literal header (576-586). The hash dictionary and the match finder are left out with it. The decoder side of those formats is modelled by `LzoSpec.MatchBytesDecode` and `LzoSpec.LiteralHeaderDecodes`.
- Ripemd128.Digest: the published test values for "" (cdf26213…) and "abc" (c14a1219…) are not proved. Evaluating 64+64 rotation steps symbolically is beyond what the verifier does in the time available. The model follows the source's tables, steps and combination line by line.
- File access (FileScanner.cs) is a byte sequence: seeking, short reads at the end of the file and closing the stream are `Common.ReadBuffer` and nothing more.
- Text decoding (Decoder.cs), zlib (Zlib.cs), the header XML parse, `int.Parse`, `float.Parse`, culture-sensitive lower-casing, `StartsWith` and the `Strip` regex are uninterpreted fields of `Records.Host`. Only the facts the core relies on are used.
- `Strip` and `REGEXP_STRIPKEY` (BaseDict.cs:463-479, Utils.cs:12-16) are `Host.strip`. `GetExtension`, `SubstituteStylesheet`, `ReadUTF16` and `SalsaDecrypt`, a stub, are not part of this model.
- The version is `Meta.version`, a real parsed by the host. The core only uses `≥ 2.0` and `== 2.0` of it.
- `ReadRecordBlocks` (BaseDict.cs:1095-1201), which the open path never calls, is not modelled. Neither are `MddDict.cs`, `Mdd.cs`, `LatinUtils.cs`, `MeasureUtils.cs` and the WPF demo.
- Reader.SortByText: `List.Sort` is not stable. The model uses a stable insertion sort and proves only what the lookups need: the result is sorted ordinally and is a permutation. The order of entries with equal text is not modelled.
- Entries are values (`Records.KeyWordItem`). The C# back-fills `RecordEndOffset` on shared list elements in place. The model rebuilds the list, which is the same as long as no other reference to those elements is held.
- The options defaults of the `Dict` constructor (Dict.cs:29-36) are a `Records.Options` value with `Option` fields. The core reads only `EncryptType`. `IsStripKey` and `IsCaseSensitive` are carried but never read by the modelled code, and `Passcode`, `Debug` and `Resort` are not modelled.
- MdxDict.LookupOf: the `def == null` branch (MdxDict.cs:35-39) cannot be taken, because the record lookup never returns null. Instead, a failed record read is a `Failure`, where the C# throws.
- MdxDict.FetchOf models both `Fetch` and `FetchDefinition`, whose bodies are identical (MdxDict.cs:54-63, 139-148).
- MdxDict.FuzzyOf: `uint distance` is a `nat`, `fuzzySize` an `int`, and `Take` of a size ≤ 0 is empty, as in LINQ.
- Dict.Dict.Close: the scanner's `Close` (Dict.cs:237) is file I/O and is not modelled.
- KeyBlocks.UnpackKeyBlock: the LZO branch (BaseDict.cs:929) decodes with the corrected decoder `LzoSpec.Decompress(…, true)`, not with the as-written one that the C# reaches through `Lzo1xWrapper`. The as-written decoder is `Lzo.Lzo1x.Decompress`, proved equal to `LzoSpec.Decompress(…, false)`. The two differ only when a word copy of `CopyMatch` or `CopyFromBuf` runs (see "## Findings"). `KeyBlocks.UnpackLostWordStream` shows the difference on one block. On the compressor's output for inputs below 32 bytes they agree (`LzoSpec.ShortRoundTrip` holds under both).
- Dict.DecompressBuff: the LZO branch (Dict.cs:191) decodes with the corrected decoder, as in `KeyBlocks.UnpackKeyBlock` above. `Dict.DecompressLostWordStream` shows the difference on one record block.
- Dict.DecompressEncrypted: states the hand-off to the corrected decoder `LzoSpec.Decompress(…, true)`, not to the as-written `Lzo1x.Decompress`, for the reason given for `Dict.DecompressBuff`.
- Dict.DecompressBuff and KeyBlocks.UnpackKeyBlock also ignore the adler32 checksum in bytes 4..8, as the source does.
- `Lzo1xWrapper.Decompress` (Lzo1xWrapper.cs:7-22) is folded into its callers. Its preallocated buffer of `initSize + blockSize` bytes is a `NegativeLength` failure when that size is negative. Otherwise the decoder's own output replaces the buffer, as `Lzo1x.Decompress` does at Lzo1x.cs:281. A result other than OK raises, which is a `Failure`. `Lzo1xWrapper.Compress` is `Lzo.Lzo1x.Compress` with the same raise.
- Lzo.Lzo1x: the C# integer fields are 32-bit. The model uses unbounded integers and does not model overflow of `op` or `ip`, which would need inputs over 2 GB.

## Findings

| source | as written | input that shows it | evidently intended | confidence | as-written member | corrected member |
|---|---|---|---|---|---|---|
| MDict.Csharp/Utils/Lzo1x.cs:131-146 | `out32` is a copy made by `Buffer.BlockCopy` (lines 92-93), so the aligned 4-byte copies in `CopyMatch` and `CopyFromBuf` write to `out32` (lines 139-145 and 167-173) and never reach `outBuf`; the bytes they should produce stay 0 | `[21, 'a', 'b', 'c', 'd', 236, 0, 17, 0, 0]` decodes to "abcd" followed by 8 zero bytes | the words land in `outBuf`, so the stream decodes to "abcdabcdabcd", the same as a byte-at-a-time copy | not executed | LzoSpec.AsWrittenStreamLosesBytes | LzoSpec.SharedCopyMatchIsBytewise |
