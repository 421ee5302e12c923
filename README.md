# Flip-dot co-processor driver (`mcp`), modelled in Dafny

The `mcp` class drives a 98×16 flip-dot sign over a Modbus-ASCII-like serial
line. It keeps a dot image (`BitmapMatrix[x][y]`) that callers edit one dot or
the whole image at a time. It packs the image into a 196-byte stream
(`Bytestream`), two bytes per column. It sends the stream to the sign as
fifteen register lines. Each line is laid out like an Intel HEX type-00 data
record: count `10`, address `00N0`, type `00`, sixteen data bytes, and the
Modbus LRC of all of that. Fixed control lines come before and after the
registers. `InitSign` and `CloseSign` send fixed line sequences.

The model is split into modules that follow that structure:

- `Geometry`: the sign's size (`xSize`, `ySize`, `byteStreamSize`).
- `Image`: images as values (`seq<Column>`), plus the single-dot and whole-image edits.
- `Hex`: `%0.2X` encoding, `toDec` and `conv` decoding, and the round trips between them.
- `Checksum`: `find_sum`, `calculateLRC`, and the properties of the LRC.
- `Packing`: the bit layout of the packed stream, as a function `Pack` of the image.
- `Registers`: one table row per `PrintRegisterN`, and the line a row builds from a stream.
- `Protocol`: the fixed line sequences, and the checksum of every hard-coded line.
- `Seqs`: small sequence facts used to reassemble the sent lines.
- `EndToEnd`: the two-corner test image followed from the dots to the register lines.
- `CoProcessor`: the class `Mcp`, imperative:
  - `matrix: array2<bool>` is `BitmapMatrix`;
  - `bytestream: array<bv8>` is `Bytestream`, so `<<= 1` wraps at 8 bits;
  - the ghost field `log` is the sequence of lines sent so far;
  - the constructor, `drawPixel`, `dotOn`, `dotOff`, `dotAllOn`, `dotAllOff`, `invertAll`, `ConvertBitmapToBytestream`, `UpdateSign`, `InitSign`, `CloseSign`, `PrintString` and `PrintRegister0` .. `PrintRegisterE` are methods of `Mcp`, with the source's loops and their invariants;
  - the loop that all fifteen `PrintRegisterN` share is one method, `Mcp.StreamDigits`, and the checksum-and-send step after it is `Mcp.PrintRegister`.

The helpers that touch no field live outside the class:
- `toDec` and `conv` are the functions `Hex.ToDec` and `Hex.Conv`;
- `find_sum` and `calculateLRC` are the methods `Checksum.FindSum` and `Checksum.CalculateLRC`, with their loops.

The methods that change state are specified by functions of the old state.
`ConvertBitmapToBytestream` ends with `bytestream[..] == Pack(Grid())`.
`UpdateSign` ends with `log == old(log) + UpdateLines(bytestream[..])`. The
properties the source promises are then proved about those functions, as
lemmas:

- the packed layout;
- the slices cover the stream exactly;
- every line is a well-formed record;
- every line, hard-coded or built, ends in its own LRC.

## Model

| member | source | states |
|---|---|---|
| Geometry.StreamHoldsTwoBytesPerColumn | Modbus_CoProcessor.h:28-30 | `byteStreamSize` = 98·16/8 = 196 = 2·`xSize`, and 16 rows are two bytes |
| Image.WithDot | Modbus_CoProcessor.cpp:54-66 | setting one dot gives that dot the new value and keeps every other dot |
| Image.Inverted | Modbus_CoProcessor.cpp:88-100 | the image `invertAll` leaves: a 98 by 16 image (its dots are stated by `InvertedDots`) |
| Image.InvertedDots | Modbus_CoProcessor.cpp:88-100 | the inverted image has every dot flipped |
| Image.InvertTwice | Modbus_CoProcessor.cpp:88-100 | inverting twice gives the original image back |
| Image.WithDotRestores | Modbus_CoProcessor.cpp:54-66 | setting a dot and then setting it back to its old value restores the image |
| Image.ImageExt | Modbus_CoProcessor.h:71 | two images with the same dots at every (x, y) are equal |
| CoProcessor.Mcp.constructor | Modbus_CoProcessor.cpp:23-36 | every dot is off, every stream byte is 0, and nothing has been sent |
| CoProcessor.Mcp.DrawPixel | Modbus_CoProcessor.cpp:38-52 | off the sign the image is unchanged; on it, the dot becomes on iff colour == 1 and no other dot changes |
| CoProcessor.Mcp.DotOn | Modbus_CoProcessor.cpp:54-59 | the dot (x, y), which must lie on the sign, is on and the rest of the image is unchanged |
| CoProcessor.Mcp.DotOff | Modbus_CoProcessor.cpp:61-66 | the dot (x, y), which must lie on the sign, is off and the rest of the image is unchanged |
| CoProcessor.Mcp.DotAllOn | Modbus_CoProcessor.cpp:68-76 | afterwards the image has every dot on |
| CoProcessor.Mcp.DotAllOff | Modbus_CoProcessor.cpp:78-86 | afterwards the image has every dot off |
| CoProcessor.Mcp.InvertAll | Modbus_CoProcessor.cpp:88-100 | the new image is the old one with every dot flipped |
| CoProcessor.Mcp.PackHalf | Modbus_CoProcessor.cpp:153-164 | after one set-bit-0/shift loop, bit k of the byte is row base+k of the column, whatever the byte held before; no other byte changes |
| CoProcessor.Mcp.ConvertBitmapToBytestream | Modbus_CoProcessor.cpp:148-178 | bit k of byte 2x is row k and bit k of byte 2x+1 is row k+8; the stream equals `Pack` of the image; the image is unchanged |
| Packing.WriteBit0 | Modbus_CoProcessor.cpp:154-158 | `bitSet`/`bitClear` of bit 0 makes bit 0 the new value and keeps bits 1..7 |
| Packing.ShiftUp | Modbus_CoProcessor.cpp:159-161 | `<<= 1` on a byte clears bit 0 and moves bit j-1 to bit j; bit 7 is lost |
| Packing.FromBits | Modbus_CoProcessor.cpp:153-164 | the byte whose bit k is the k-th given bit, with zeros above them |
| Packing.Pack | Modbus_CoProcessor.cpp:148-178 | the 196-byte stream whose byte 2x holds rows 0..7 and byte 2x+1 rows 8..15 of column x, bit k for row k (mod 8) |
| Packing.PackColumn | Modbus_CoProcessor.cpp:150-177 | the two bytes of column x are rows 0..7 and 8..15 of that column, read as bits from bit 0 up |
| Packing.PackUnique | Modbus_CoProcessor.cpp:148-178 | any stream with that bit layout is `Pack` of the image |
| Packing.PackIsPerColumn | Modbus_CoProcessor.cpp:150-177 | changing column x changes no stream byte other than bytes 2x and 2x+1 |
| Packing.BitsDetermineByte | Modbus_CoProcessor.h:72 | two bytes with the same eight bits are equal |
| Packing.BottomLeftDot | Modbus_CoProcessor.cpp:153-164 | a single dot at (0, 0) gives bytes 01 00 for column 0 |
| Packing.TopLeftDot | Modbus_CoProcessor.cpp:166-176 | a single dot at (0, 15) gives bytes 00 80 for column 0 |
| Packing.CornersFirstColumn | Modbus_CoProcessor.cpp:148-178 | with dots at (0, 0) and (97, 15), column 0 packs to 01 00 |
| Packing.CornersLastColumn | Modbus_CoProcessor.cpp:148-178 | with dots at (0, 0) and (97, 15), column 97 packs to 00 80, the last two stream bytes |
| Packing.CornersLeaveMiddleDark | Modbus_CoProcessor.cpp:148-178 | with only those two dots on, every column between them packs to two zero bytes |
| Packing.DarkColumnPacksToZero | Modbus_CoProcessor.cpp:148-178 | a column with every dot off packs to two zero bytes |
| Hex.HexDigit | Modbus_CoProcessor.cpp:243 | the `%X` digit of a nibble is uppercase hex, and a decimal digit exactly when the nibble is below 10 |
| Hex.ToDec | Modbus_CoProcessor.cpp:624-634 | `toDec` gives a value in 0..15 for every uppercase hex digit |
| Hex.Conv | Modbus_CoProcessor.cpp:636-641 | `conv` gives a value in 0..255 for every pair of uppercase digits |
| Hex.Hex2 | Modbus_CoProcessor.cpp:243 | `%0.2X` of a byte is exactly two uppercase digits |
| Hex.ToDecOfHexDigit | Modbus_CoProcessor.cpp:624-634 | `toDec` inverts the digit encoder |
| Hex.HexDigitOfToDec | Modbus_CoProcessor.cpp:624-634 | every uppercase digit is the encoding of its `toDec` value |
| Hex.ConvOfHex2 | Modbus_CoProcessor.cpp:636-641 | `conv` of the `%0.2X` encoding of byte b is b |
| Hex.Hex2OfConv | Modbus_CoProcessor.cpp:636-641 | every uppercase digit pair is the `%0.2X` encoding of its `conv` value |
| Hex.Hex2Injective | Modbus_CoProcessor.cpp:243 | two bytes have the same two-digit text iff they are equal |
| Hex.Values | Modbus_CoProcessor.h:72 | the byte values of a run of bytes, each in 0..255 |
| Hex.HexEncode | Modbus_CoProcessor.cpp:241-246 | the text the register loop builds has two uppercase digits per byte |
| Hex.HexEncodeSliceSnoc | Modbus_CoProcessor.cpp:241-246 | one more loop iteration appends exactly the two digits of the next byte |
| Hex.DecodeHex | Modbus_CoProcessor.cpp:609-612 | decoding a text with an even number of digits gives one byte value per digit pair |
| Hex.HexEncodeAppend | Modbus_CoProcessor.cpp:241-246 | encoding a concatenation is the concatenation of the encodings |
| Hex.DecodeHexAppend | Modbus_CoProcessor.cpp:609-612 | decoding a concatenation of digit pairs is the concatenation of the decodings |
| Hex.DecodeHexEncode | Modbus_CoProcessor.cpp:609-612 | decoding the encoding of byte values gives them back |
| Hex.HexEncodeDecode | Modbus_CoProcessor.cpp:609-612 | encoding the decoding of digit pairs gives the text back |
| Checksum.Payload | Modbus_CoProcessor.cpp:604-612 | for a first character other than NUL, `calculateLRC` decodes exactly (length-1)/2 bytes, skipping that character |
| Checksum.StrLen | Modbus_CoProcessor.cpp:607 | `strlen` counts the characters before the first NUL: none of them is NUL, and the one at the count, if any, is |
| Checksum.ChecksummableStrLen | Modbus_CoProcessor.cpp:607-609 | on text `calculateLRC` accepts, `strlen` is 0 when the first character is NUL and the whole length otherwise |
| Checksum.Decoded | Modbus_CoProcessor.cpp:606-612 | `calculateLRC` decodes strlen/2 bytes: none when the first character is NUL, else the bytes after the first character |
| Checksum.Sum | Modbus_CoProcessor.cpp:643-653 | the integer sum `find_sum` accumulates; its properties are `SumAppend` and `SumOfBytesBound` |
| Checksum.Complement | Modbus_CoProcessor.cpp:617 | C's `~` on a two's-complement `int`, -v - 1 |
| Checksum.LowByte | Modbus_CoProcessor.cpp:617 | C's `& 0xff` on a two's-complement `int`, the Euclidean remainder mod 256 |
| Checksum.HasValidLrc | Modbus_CoProcessor.cpp:248-249 | a sent line is a frame whose last two digits are the LRC of what precedes them; `ValidLrcIffSumZero` gives its meaning |
| Checksum.SumOfBytesBound | Modbus_CoProcessor.cpp:643-653 | a sum of n byte values lies between 0 and 255·n |
| Checksum.SumAppend | Modbus_CoProcessor.cpp:643-653 | the sum of a concatenation is the sum of the sums |
| Checksum.LrcValue | Modbus_CoProcessor.cpp:617 | `((~sum) + 1) & 0xff` is a byte that brings the sum to 0 mod 256 |
| Checksum.LrcValueUnique | Modbus_CoProcessor.cpp:617 | it is the only byte that does so |
| Checksum.Lrc | Modbus_CoProcessor.cpp:604-622 | the LRC text is two uppercase digits whose value c makes (sum + c) mod 256 = 0 |
| Checksum.FindSum | Modbus_CoProcessor.cpp:643-653 | `find_sum` returns the sum of the first myLength/2 entries |
| Checksum.CalculateLRC | Modbus_CoProcessor.cpp:604-622 | for a first character plus 2n uppercase digits, the result is two uppercase digits c with (sum of the decoded bytes + c) mod 256 = 0; it is `Lrc` of the input when the first character is not NUL, and "00" when it is (strlen 0, nothing decoded) |
| Checksum.PrefixChecksummable | Modbus_CoProcessor.cpp:609-612 | every prefix the decoding loop has read is itself decodable |
| Checksum.PayloadSnoc | Modbus_CoProcessor.cpp:609-612 | decoding one more digit pair appends its byte and adds it to the sum |
| Checksum.ChecksummableAppend | Modbus_CoProcessor.cpp:248 | appending digit pairs keeps a text decodable |
| Checksum.LrcClosesFrame | Modbus_CoProcessor.cpp:248-249 | a body followed by its LRC decodes to bytes summing to 0 mod 256 |
| Checksum.AppendedLrcIsValid | Modbus_CoProcessor.cpp:248-249 | a frame followed by its LRC ends in a correct LRC, and its bytes are the frame's bytes then the LRC byte |
| Checksum.ValidLrcIffSumZero | Modbus_CoProcessor.cpp:604-622 | a frame's last two digits are its LRC iff all its bytes sum to 0 mod 256, in both directions |
| Checksum.FrameOf | Modbus_CoProcessor.cpp:239-246 | ':' and the digits of byte values is a frame that decodes to those values |
| Checksum.FrameOfConcat | Modbus_CoProcessor.cpp:239-248 | `prependData`, `middleData` and the filler together spell the frame of the concatenated bytes |
| Checksum.FrameOfValidIffSumZero | Modbus_CoProcessor.cpp:604-622 | a frame spelled from byte values ends in a correct LRC iff the values sum to 0 mod 256 |
| Checksum.PairSumIsSum | Modbus_CoProcessor.cpp:609-612 | summing the digit pairs by index, as the loop reads them, gives the sum of the decoded bytes |
| Checksum.PairSumAppend | Modbus_CoProcessor.cpp:609-612 | the pair sum of a concatenation is the sum of the pair sums |
| Checksum.PairSumShift | Modbus_CoProcessor.cpp:609-612 | past the end of the first part, the pairs of a concatenation are those of the second part |
| Checksum.PairSumDecidesLrc | Modbus_CoProcessor.cpp:604-622 | a literal frame ends in its LRC iff its pair sum is 0 mod 256 |
| Checksum.LrcExample | Modbus_CoProcessor.cpp:141 | the LRC of ":0100060600" is "F3" |
| Registers.Zeros | Modbus_CoProcessor.cpp:301 | n zero bytes |
| Registers.ZeroDigitsEncodeZeros | Modbus_CoProcessor.cpp:301 | the zero filler text is the encoding of that many zero bytes |
| Registers.ZeroDigitsAppend | Modbus_CoProcessor.cpp:596 | zero filler texts concatenate |
| Registers.BodySumBound | Modbus_CoProcessor.cpp:613-616 | the sum `find_sum` forms over any register body is at most 20·255 = 5100, well inside the four hex digits `hex[5]` holds |
| Registers.SumZeros | Modbus_CoProcessor.cpp:301 | zero filler adds nothing to the sum |
| Registers.HeaderText | Modbus_CoProcessor.cpp:239 | the header bytes of register n are written "10", "00N0", "00" |
| Registers.HeaderSum | Modbus_CoProcessor.cpp:239 | the header bytes of register n add up to 0x10 + 0x10·n |
| Registers.RegisterLine | Modbus_CoProcessor.cpp:239-249 | the line a register builder sends is a frame ending in its LRC, and what precedes the LRC is the body |
| Registers.Body | Modbus_CoProcessor.cpp:239-248 | the text given to `calculateLRC` is a frame whose bytes are the header, the leading filler, the slice and the trailing filler |
| Registers.RegisterLineFromText | Modbus_CoProcessor.cpp:239-249 | a row's body is its leading text, the hex of its slice and its trailing text; the leading text is decodable and the trailing text is digit pairs |
| Registers.PlainRowText | Modbus_CoProcessor.cpp:314-572 | R4..RD (and R1, whose start and count are at cpp:259-260) have no filler and send 16 bytes from 32 + 16·(N-4) (R1: from 12) |
| Registers.Row0Text | Modbus_CoProcessor.cpp:233-239 | R0's leading text is its header then 01 0A 00 00; its slice is bytes 0..11 |
| Registers.Row3Text | Modbus_CoProcessor.cpp:295-301 | R3's leading text is its header then twelve zero bytes; its slice is bytes 28..31 |
| Registers.Row14Head | Modbus_CoProcessor.cpp:581-587 | RE's leading text is its bare header; its slice is bytes 192..195 |
| Registers.Row14Fields | Modbus_CoProcessor.cpp:581-596 | RE has no leading filler, sends stream bytes 192..195 and then twelve zero bytes |
| Registers.Row14Trail | Modbus_CoProcessor.cpp:596 | the text RE appends to `middleData` is twelve zero bytes |
| Registers.Entry | Modbus_CoProcessor.cpp:226-600 | the fields of `PrintRegisterN`: address n, the literal filler in `prependData` after the header, the loop's start and count, and RE's appended filler; the constant `Table` lists the fifteen rows |
| Registers.TableRowsAreRecords | Modbus_CoProcessor.cpp:226-600 | row n of `Table` is register n, fits the 196-byte stream, and carries exactly 16 data bytes |
| Registers.TableFiller | Modbus_CoProcessor.cpp:226-600 | the filler is 01 0A 00 00 before R0, 16 zeros in R2, 12 zeros before R3 and 12 zeros after RE, and none elsewhere |
| Registers.ContiguousSendsRange | Modbus_CoProcessor.cpp:233-582 | rows whose slices follow each other send exactly the stream range they span |
| Registers.TableIsContiguous | Modbus_CoProcessor.cpp:233-582 | each row's slice starts where the one before it ends |
| Registers.TableEnds | Modbus_CoProcessor.cpp:226-600 | R0 starts at byte 0 and RE ends at byte 196 |
| Registers.TableSlicesFit | Modbus_CoProcessor.cpp:233-582 | every slice lies inside the stream |
| Registers.TableCoversStream | Modbus_CoProcessor.cpp:233-582 | the fifteen slices, in order, are the whole stream, each byte exactly once |
| Registers.BodyHeaderText | Modbus_CoProcessor.cpp:239 | every body opens with ":1000N000" and has two digits per data byte |
| Registers.RegisterLineIsRecord | Modbus_CoProcessor.cpp:239-249 | every register line is 43 characters long, opens ":1000N000", ends in its own LRC, and has bytes header, 16 data bytes, LRC |
| Registers.LineCarriesSlice | Modbus_CoProcessor.cpp:241-246 | after its header and leading filler, a row's line carries the bytes of its slice |
| Registers.RegisterLineCarriesSlice | Modbus_CoProcessor.cpp:241-246 | the same for each register line of the table, whose records have 21 bytes |
| Registers.FillerOnlyBody | Modbus_CoProcessor.cpp:283 | a row with no slice and k zero bytes of filler has body ":1000N000" then 2k zeros |
| Registers.FillerOnlyBodySum | Modbus_CoProcessor.cpp:283 | the bytes of such a body add up to its header sum |
| Registers.Register2LineIsTableRow | Modbus_CoProcessor.cpp:278-284 | R2's hard-coded line is exactly the line its table row builds, whatever the stream holds: header ":10002000", sixteen zero bytes, and "D0" is their LRC |
| Protocol.Valid01000603A254 | Modbus_CoProcessor.cpp:118 | the last two digits of ":01000603A254" are the LRC of the rest |
| Protocol.Valid00000F01F0 | Modbus_CoProcessor.cpp:139 | the same for ":00000F01F0" |
| Protocol.Valid0100060200F7 | Modbus_CoProcessor.cpp:140 | the same for ":0100060200F7" |
| Protocol.Valid0100060600F3 | Modbus_CoProcessor.cpp:141 | the same for ":0100060600F3" |
| Protocol.Valid01000603A94D | Modbus_CoProcessor.cpp:143 | the same for ":01000603A94D" |
| Protocol.Valid01000502FFF9 | Modbus_CoProcessor.cpp:185 | the same for ":01000502FFF9" |
| Protocol.Valid01000602FFF8 | Modbus_CoProcessor.cpp:186 | the same for ":01000602FFF8" |
| Protocol.Valid01000603A155 | Modbus_CoProcessor.cpp:187 | the same for ":01000603A155" |
| Protocol.Valid00000101FE | Modbus_CoProcessor.cpp:189 | the same for ":00000101FE" |
| Protocol.Valid01000603AA4C | Modbus_CoProcessor.cpp:202 | the same for ":01000603AA4C" |
| Protocol.Valid01007F02FF7F | Modbus_CoProcessor.cpp:203 | the same for ":01007F02FF7F" |
| Protocol.Valid0100060255A2 | Modbus_CoProcessor.cpp:204 | the same for ":0100060255A2" |
| Protocol.Valid01000603A650 | Modbus_CoProcessor.cpp:205 | the same for ":01000603A650" |
| Protocol.ValidInitRecord | Modbus_CoProcessor.cpp:188 | the init record's last two digits are the LRC of the rest (its digit pairs, summed piece by piece, come to 0x7A + 0x86 = 0x100) |
| Protocol.InitLinesValid | Modbus_CoProcessor.cpp:180-191 | all six `InitSign` lines (the constant `InitLines`, cpp:185-190) end in their LRC |
| Protocol.CloseLinesValid | Modbus_CoProcessor.cpp:193-206 | all five `CloseSign` lines (the constant `CloseLines`, cpp:202-205) end in their LRC |
| Protocol.UpdateBracketValid | Modbus_CoProcessor.cpp:118-143 | the begin-image line (cpp:118) and the five commit lines (the constant `CommitLines`, cpp:139-143) end in their LRC |
| Protocol.RegisterLines | Modbus_CoProcessor.cpp:122-136 | the fifteen lines `PrintRegister0` .. `PrintRegisterE` send, one per table row |
| Protocol.UpdateLines | Modbus_CoProcessor.cpp:117-143 | what `UpdateSign` sends after packing: the begin-image line, the register lines, the commit lines; `UpdateLinesShape` states its shape |
| Protocol.UpdateLinesShape | Modbus_CoProcessor.cpp:103-146 | `UpdateSign` sends 21 lines: the begin-image line, the table's line for R0..RE in order, then the five commit lines; every line ends in its LRC |
| Protocol.RegisterLineAt | Modbus_CoProcessor.cpp:122-136 | register line n is the line table row n builds |
| Protocol.RegisterLineText | Modbus_CoProcessor.cpp:239-249 | register line n is its leading text, the hex of its slice and its trailing text, followed by their LRC |
| Protocol.PlainRegisterLineText | Modbus_CoProcessor.cpp:265-275 | the same for a row with no filler: bare header, sixteen stream bytes, LRC |
| Protocol.RegisterPayload | Modbus_CoProcessor.cpp:239-249 | register line n decodes to 21 bytes: the header, the leading filler, the slice and the trailing filler, then the LRC byte; it ends in its LRC |
| Protocol.Register0Payload | Modbus_CoProcessor.cpp:233-249 | register line 0 decodes to header 10 00 00 00, then 01 0A 00 00, then stream bytes 0..11 |
| Protocol.Register14Payload | Modbus_CoProcessor.cpp:581-599 | register line 14 decodes to header 10 00 E0 00, then stream bytes 192..195, then twelve zero bytes |
| Protocol.Register0Of | Modbus_CoProcessor.cpp:233-249 | for a stream starting 01 00 with dark columns after it, line 0's data bytes are 01 0A 00 00 01 and eleven zeros, and the line ends in its LRC |
| Protocol.Register14Of | Modbus_CoProcessor.cpp:581-599 | for a stream ending 00 00 00 80, line 14's data bytes are 00 00 00 80 and twelve zeros, and the line ends in its LRC |
| EndToEnd.CornersRegister0 | Modbus_CoProcessor.cpp:103-146 | with only (0, 0) and (97, 15) on, register 0 carries 0x01 after its control bytes 01 0A 00 00, zeros after it, and ends in its LRC |
| EndToEnd.CornersRegister14 | Modbus_CoProcessor.cpp:103-146 | with only those two dots on, register RE's fourth data byte is 0x80 (the last stream byte), its other fifteen data bytes are zero, and it ends in its LRC |
| CoProcessor.Mcp.PrintString | Modbus_CoProcessor.cpp:208-224 | the line is appended to the lines sent; the stream is unchanged |
| CoProcessor.Mcp.StreamDigits | Modbus_CoProcessor.cpp:241-246 | `middleData` is the two `%0.2X` digits of each stream byte of the slice, in order |
| CoProcessor.Mcp.PrintRegister | Modbus_CoProcessor.cpp:239-249 | sends `prependData`, `middleData` and the filler, followed by their LRC, as one line |
| CoProcessor.Mcp.PrintRegister0 | Modbus_CoProcessor.cpp:226-250 | sends register line 0 of the current stream |
| CoProcessor.Mcp.PrintRegister1 | Modbus_CoProcessor.cpp:252-276 | sends register line 1 |
| CoProcessor.Mcp.PrintRegister2 | Modbus_CoProcessor.cpp:278-284 | sends the fixed R2 literal, which is register line 2 |
| CoProcessor.Mcp.PrintRegister3 | Modbus_CoProcessor.cpp:286-312 | sends register line 3 |
| CoProcessor.Mcp.PrintRegister4 | Modbus_CoProcessor.cpp:314-338 | sends register line 4 |
| CoProcessor.Mcp.PrintRegister5 | Modbus_CoProcessor.cpp:340-364 | sends register line 5 |
| CoProcessor.Mcp.PrintRegister6 | Modbus_CoProcessor.cpp:366-390 | sends register line 6 |
| CoProcessor.Mcp.PrintRegister7 | Modbus_CoProcessor.cpp:392-416 | sends register line 7 |
| CoProcessor.Mcp.PrintRegister8 | Modbus_CoProcessor.cpp:418-442 | sends register line 8 |
| CoProcessor.Mcp.PrintRegister9 | Modbus_CoProcessor.cpp:444-468 | sends register line 9 |
| CoProcessor.Mcp.PrintRegisterA | Modbus_CoProcessor.cpp:470-494 | sends register line 10 |
| CoProcessor.Mcp.PrintRegisterB | Modbus_CoProcessor.cpp:496-520 | sends register line 11 |
| CoProcessor.Mcp.PrintRegisterC | Modbus_CoProcessor.cpp:522-546 | sends register line 12 |
| CoProcessor.Mcp.PrintRegisterD | Modbus_CoProcessor.cpp:548-572 | sends register line 13 |
| CoProcessor.Mcp.PrintRegisterE | Modbus_CoProcessor.cpp:574-600 | sends register line 14, with its twelve zero bytes after the slice |
| CoProcessor.Mcp.SendRegisters0To4 | Modbus_CoProcessor.cpp:122-126 | sends register lines 0..4, in order |
| CoProcessor.Mcp.SendRegisters5To9 | Modbus_CoProcessor.cpp:127-131 | sends register lines 5..9, in order |
| CoProcessor.Mcp.SendRegistersAToE | Modbus_CoProcessor.cpp:132-136 | sends register lines 10..14, in order |
| CoProcessor.Mcp.SendUpdate | Modbus_CoProcessor.cpp:118-143 | sends the begin-image line, R0..RE and the five commit lines, in order |
| CoProcessor.Mcp.UpdateSign | Modbus_CoProcessor.cpp:103-146 | the image is unchanged, the stream is the packed image, and the lines sent are `UpdateLines` of it |
| CoProcessor.Mcp.InitSign | Modbus_CoProcessor.cpp:180-191 | sends the six init lines, in order |
| CoProcessor.Mcp.CloseSign | Modbus_CoProcessor.cpp:193-206 | sends the five close lines, in order |

## Left out

- Serial I/O is not modelled:
  - `SERIALDEVICE.begin(baudRate)` in the constructor;
  - the `Serial3` binding;
  - the loops in `PrintString` that drain and discard what the sign sends;
  - `println`'s CRLF terminator and `flush`.

  The model's `PrintString` only appends the line to `log`.
- `delay(eolDelay)` and `delay(endOfUpdateDelay)` are left out: they are timing only.
- The `Adafruit_GFX` base class is foreign code. `DrawPixel` takes its `width()` and `height()` to be 98 and 16.
- `calculateLRC` calls C library functions:
  - its `utoa`/`strtol` round trip is the identity on a non-negative sum below 0x10000, so the model skips it;
  - `sprintf("%0.2X")` is the function `Hex.Hex2`.
- `Checksum.CalculateLRC` does not model the `char hex[5]` buffer (cpp:614-615). A sum of 0x10000 or more has five hex digits, and `utoa` then writes six bytes into five. The contract still returns an LRC for such inputs, for example ':' followed by 258 "FF" pairs (sum 65790). Every caller in the source passes a body of 20 bytes, whose sum is at most 5100 (`Registers.BodySumBound`).
- `Checksum.CalculateLRC` requires an odd-length input whose characters after the first are uppercase hex.
  - Every caller in the source passes such a text.
  - `toDec` gives garbage for lowercase or non-hex characters.
  - On an even-length input the last pair the source reads is the final digit and the NUL terminator. `toDec('\0')` is -48, so the source returns a meaningless LRC.
  - A NUL first character is modelled: `strlen` is then 0, nothing is decoded, and the result is "00" (`Checksum.Decoded`, `Checksum.StrLen`).
- The fifteen `PrintRegisterN` loops are one method, `Mcp.StreamDigits`. The `calculateLRC` and `PrintString` calls that follow each loop are one method, `Mcp.PrintRegister`. Each `PrintRegisterN` passes its own literal text, start and count to these.
- Some long literals are written as concatenations of the fields they consist of (the init record, R2's line, R3's `prependData`). Each concatenation spells the same characters as the source literal.
- `UpdateSign` is modelled as two steps:
  - `ConvertBitmapToBytestream` followed by `SendUpdate`;
  - `SendUpdate` sends its fifteen register calls in three methods of five, `SendRegisters0To4`, `SendRegisters5To9` and `SendRegistersAToE`.

  The calls and their order are those of the source.
- `DotOn` and `DotOff` take `byte` coordinates with no bounds check. The model requires the point to lie on the sign, because the source writes outside the matrix otherwise.
- The two-corner example (`EndToEnd`) is stated on the data bytes the code actually sends. Register 0's data bytes do not start with the stream: the control bytes 01 0A 00 00 come first (cpp:239). So 0x01 is data byte 5, and 0x0A is a nonzero data byte before it. In register RE, 0x80 is the fourth data byte, the last stream byte; the twelve bytes after it are the zero filler appended at cpp:596.
- Nothing the sign sends back is modelled, and no ordering between `InitSign`, `UpdateSign` and `CloseSign` is imposed. The source keeps no such state.
