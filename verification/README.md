# Verified model of the surveillance server's algorithms

This project models, in Dafny, the parts of the server that compute something intricate, and proves
what they are for:

- **QR codes for OTP enrolment** (`src/otp/QR-Code-generator`): the Galois field, the Reed-Solomon code
  and its distance, segments and data codewords, interleaving, the function patterns, the zigzag
  placement, the penalty score, the choice of the mask, and a reader that gets the text back from the
  finished modules.
- **Display boards** (`src/metadata/board_control.cpp`): the checksum and what it detects, the frame
  format, and the acknowledgement state machine with its retries.
- **Metadata stream** (`src/metadata_parser.cpp`): cutting the stream into packets, and the buffer that
  delays bounding boxes.
- **Recovery codes** (`src/db_management.cpp`, `src/request_handlers.cpp`): signups and logins over any
  number of steps.
- **Vehicle tracking** (`src/metadata/main_control.cpp`): histories and the removal of vehicles that are gone.
- **Base64** (`src/utils.cpp`).

`dafny verify dfyconfig.toml` checks the whole project.

## How the model is made

Code that updates things in place is imperative here too: `Symbol.QrSymbol`, `BitBuffers.BitBuffer`,
`DelayBuffer.SharedQueue`, `Splitter.PacketParser`, `RecoveryCodes.Database` and
`VehicleTracker.Tracker` are classes, the Reed-Solomon divisor is built in an array, and loops stay
loops. Each method is proved against a function of its inputs or of the old state, and the theorems
are about those functions. Exceptions are values of `Results.Result`. 8-, 16- and 32-bit arithmetic is
modelled with bit vectors, or with an explicit remainder in `Base64`.

The reader of symbols has its own order of the modules in closed form, its own conditions for undoing
a mask, its own widths of the count fields and its own characters, and it takes level and mask from
modules given by their coordinates. It shares with the encoder the set of function modules and the
block sizes; `FunctionPatterns.FreeModules` and `QrTables.DataCapacityIs` say what fixes those.

Proofs hide the definitions they do not need (`hide`), and facts about single bits are kept in small
lemmas of their own.

Inputs from outside are parameters: the bytes a serial line delivers at each step
(`Receiver.Line`), the readings of the clock and of the flag that stops the parser, the comparison of
a code with a hash and the failures of the database (`RecoveryCodes.Matcher`, `Faults`, `SignUpFaults`),
and the objects found in a frame (`VehicleTracker.Frame`).

## What turned out not to hold as it stands

- A recovery login succeeds before its code is marked, so a failing update leaves the code usable. A
  successful login goes unmarked if and only if the update fails or the second read of the hashes ends
  before a match (`RecoveryCodes.SlipsIff`). Such logins are all that can exceed the bound of five
  (`AtMostFiveLogins`), and each can be repeated without end (`SlipsRepeat`). `BoundHoldsIff` says for
  which failures of the database the bound holds, and `SixLogins` gives a run that breaks it for all others.
- A signup reported as failed changes the tables if and only if its codes cannot be hashed: the account
  was inserted before (`RecoveryCodes.FailedHashingTakesId`).
- The result of storing the codes is ignored. A signup is reported as successful, with codes that were
  never stored, if and only if storing them is all that fails (`RecoveryCodes.FailedStoreLosesCodes`). After
  either failure no recovery code ever opens the account (`SignUpRecoveryOverIff`); `HalfwaySignUps` has one
  signup of each kind.
- Two wrong bits change the checksum of a board frame if and only if they are not a multiple of 32767 bits
  apart (`CrcOrder.TwoBitErrors`, `FarBitsCollide`).
- A tracked vehicle need not be mentioned by a cached frame. An id written `007` is tracked as 7, but
  frames are searched for `7` (`VehicleTracker.PaddedIdUnmentioned`). `TrackedMentionedIff` gives the exact condition.
- An acknowledgement that arrives while the receiver believes to be inside a frame is lost
  (`Receiver.AckAccepted`, `AckLost`, `AckAfterStrayStart`). After a negative answer the receiver goes
  on waiting in `WAIT_ETX` instead of retrying at once, although its comment speaks of waiting for
  either answer, and an acknowledgement right after it is lost too (`AfterNack`, `AckAfterNackLost`).
- The newest entry of the delay buffer survives its own update only if the two readings of the clock
  are at most ten seconds apart (`DelayBuffer.UpdateInRun`, `LateReadingLosesEntry`).
- A chunk with a zero byte loses what follows that byte, and the packets are those of the whole input
  if and only if there is no such chunk (`Splitter.CStringWhole`, `WholeInputIff`, `ZeroByteLoses`).

## Model

| member | source | states |
|---|---|---|
| GaloisField.Multiply | src/otp/QR-Code-generator/qrcodegen.cpp:740-749 | The multiplication loop with its 32-bit accumulator computes the field product, and the accumulator ends below 256 as the source asserts |
| GaloisField.MulComm | src/otp/QR-Code-generator/qrcodegen.cpp:740-749 | The product is commutative |
| GaloisField.MulAssoc | src/otp/QR-Code-generator/qrcodegen.cpp:740-749 | The product is associative |
| GaloisField.MulAddRight | src/otp/QR-Code-generator/qrcodegen.cpp:740-749 | The product distributes over exclusive or |
| GaloisField.PowersOfTwo | src/otp/QR-Code-generator/qrcodegen.cpp:712-722 | Every non-zero byte is a power of 2, and 2^d = 1 for 0 < d <= 255 only at d = 255 |
| GaloisField.Inverse | src/otp/QR-Code-generator/qrcodegen.cpp:740-749 | Every non-zero byte has an inverse |
| GaloisField.NoZeroDivisors | src/otp/QR-Code-generator/qrcodegen.cpp:740-749 | A product is zero only if a factor is |
| GaloisField.Pow2Distinct | src/otp/QR-Code-generator/qrcodegen.cpp:712-722 | The powers of 2 with exponents 0 to 254 are pairwise different |
| ReedSolomon.ComputeDivisor | src/otp/QR-Code-generator/qrcodegen.cpp:702-724 | For degrees 1 to 255 the loop yields the product of (x - 2^i), i < degree, without its leading 1; other degrees are domain errors |
| ReedSolomon.MultiplyInPlace | src/otp/QR-Code-generator/qrcodegen.cpp:715-720 | One pass over the array multiplies the polynomial by (x - root), in place |
| ReedSolomon.GeneratorRoots | src/otp/QR-Code-generator/qrcodegen.cpp:702-724 | The generator vanishes exactly at the first `degree` powers of 2 |
| ReedSolomon.ComputeRemainder | src/otp/QR-Code-generator/qrcodegen.cpp:727-737 | The register loop computes the remainder, for data of any length |
| ReedSolomon.DivisionIdentity | src/otp/QR-Code-generator/qrcodegen.cpp:727-737 | Data followed by its remainder equals quotient times divisor at every point, for every divisor |
| CodeDistance.EncodedIsCodeword | src/otp/QR-Code-generator/qrcodegen.cpp:702-737 | Data followed by its check bytes evaluates to zero at all roots of the generator |
| CodeDistance.MinimumDistance | src/otp/QR-Code-generator/qrcodegen.cpp:702-749 | Two different codewords of equal length up to 255 with d check bytes differ in more than d places (one or two changed bytes never give a codeword when d >= 2) |
| CodeDistance.CheckBytesUnique | src/otp/QR-Code-generator/qrcodegen.cpp:727-737 | The computed check bytes are the only ones that complete the data to a codeword |
| CodeDistance.UniqueDecoding | src/otp/QR-Code-generator/qrcodegen.cpp:702-749 | A received block with at most t wrong bytes, 2t <= d, determines the codeword that was sent |
| BitBuffers.BitBuffer.AppendBits | src/otp/QR-Code-generator/qrcodegen.cpp:823-828 | Appends exactly the low `len` bits, highest first, or refuses lengths outside 0..31 and values that do not fit, and then appends nothing |
| BitBuffers.FromToBits | src/otp/QR-Code-generator/qrcodegen.cpp:823-828 | A number below 2^len is recovered from its bits |
| BitBuffers.ToFromBits | src/otp/QR-Code-generator/qrcodegen.cpp:823-828 | Bits are recovered from their number |
| Segments.MakeBytes | src/otp/QR-Code-generator/qrcodegen.cpp:69-76 | A byte segment for up to INT_MAX bytes, a length error beyond |
| Segments.MakeNumeric | src/otp/QR-Code-generator/qrcodegen.cpp:79-99 | Digits in groups of three; a domain error exactly if some character is not a digit |
| Segments.MakeAlphanumeric | src/otp/QR-Code-generator/qrcodegen.cpp:102-122 | Characters in pairs of base 45; a domain error exactly if some character is outside the set |
| Segments.IsNumeric | src/otp/QR-Code-generator/qrcodegen.cpp:196-203 | True exactly if all characters are digits |
| Segments.IsAlphanumeric | src/otp/QR-Code-generator/qrcodegen.cpp:206-212 | True exactly if all characters are in the set |
| Segments.MakeSegments | src/otp/QR-Code-generator/qrcodegen.cpp:125-140 | No segment for the empty text, else one in the densest mode that can hold every character |
| Segments.BestModeIsDensest | src/otp/QR-Code-generator/qrcodegen.cpp:125-140 | Every other mode that can hold a text takes more bits for its payload |
| Segments.CharsetAt | src/otp/QR-Code-generator/qrcodegen.cpp:230 | Every character of the alphanumeric set stands at the value a reader gives it |
| Segments.PayloadRoundTrip | src/otp/QR-Code-generator/qrcodegen.cpp:69-122 | A reader of any mode gets the characters back from the payload, and what follows the payload |
| DataEncoding.GetTotalBits | src/otp/QR-Code-generator/qrcodegen.cpp:179-193 | The size of the bit string, or -1 exactly if a count does not fit its field or the int would overflow |
| DataEncoding.WidthsAgree | src/otp/QR-Code-generator/qrcodegen.cpp:57-64 | The count fields are as wide as a reader expects for versions 1-9, 10-26 and 27-40 |
| DataEncoding.FindVersion | src/otp/QR-Code-generator/qrcodegen.cpp:264-281 | The smallest version in range whose capacity holds the segments |
| DataEncoding.BoostLevel | src/otp/QR-Code-generator/qrcodegen.cpp:284-288 | The highest level that still holds the data |
| DataEncoding.BoostingIsSafe | src/otp/QR-Code-generator/qrcodegen.cpp:284-288 | Boosting never lowers the level, keeps the data fitting, and leaves no higher level that fits |
| DataEncoding.BuildCodewords | src/otp/QR-Code-generator/qrcodegen.cpp:290-313 | The codewords hold the segments, the terminator, zero bits up to a byte and alternating pad bytes, exactly up to capacity |
| DataEncoding.FillWithPadBytes | src/otp/QR-Code-generator/qrcodegen.cpp:306-308 | Pad bytes 0xEC and 0x11 alternate and end exactly at capacity |
| DataEncoding.EncodeSegments | src/otp/QR-Code-generator/qrcodegen.cpp:259-317 | Smallest version, boosted level and packed data; the two error cases are exactly bad arguments and data too long |
| DataEncoding.SegmentsRoundTrip | src/otp/QR-Code-generator/qrcodegen.cpp:259-317 | A reader gets the texts of all segments back, whatever follows the terminator |
| DataEncoding.DataRoundTrip | src/otp/QR-Code-generator/qrcodegen.cpp:290-313 | A reader of the packed codewords gets the texts back |
| DataEncoding.EncodeText | src/otp/QR-Code-generator/qrcodegen.cpp:247-250 | For every text that fits, reading the data codewords gives the text; it fails exactly if no version fits |
| QrTables.BlockSizes | src/otp/QR-Code-generator/qrcodegen.cpp:793-809 | For all 40 versions and 4 levels each block has room for data and at most 255 bytes |
| QrTables.RawModulesRange | src/otp/QR-Code-generator/qrcodegen.cpp:680-692 | The module formula gives between 208 and 29648, as the source asserts |
| QrTables.DataCapacityIs | src/otp/QR-Code-generator/qrcodegen.cpp:695-699 | For all versions and levels the data codewords are those of the table of capacities in the standard |
| QrTables.CapacityOrder | src/otp/QR-Code-generator/qrcodegen.cpp:695-699 | A higher version holds more at every level, and exactly the higher levels less in every version |
| Interleaving.MakeBlocks | src/otp/QR-Code-generator/qrcodegen.cpp:509-520 | Splits the data into short and long blocks, computes their check bytes and pads the short blocks |
| Interleaving.SplitLosesNothing | src/otp/QR-Code-generator/qrcodegen.cpp:509-520 | The blocks are the data, in order, with nothing left over |
| Interleaving.InterleaveBlocks | src/otp/QR-Code-generator/qrcodegen.cpp:522-532 | Takes the blocks column by column without the padding bytes |
| Interleaving.DealInvertsEmit | src/otp/QR-Code-generator/qrcodegen.cpp:522-532 | Dealing the bytes out again recovers every block without its padding byte |
| Interleaving.EmitFills | src/otp/QR-Code-generator/qrcodegen.cpp:522-532 | For every number of codewords, of blocks and of check bytes, the bytes taken are exactly the codewords |
| Interleaving.AddEccAndInterleave | src/otp/QR-Code-generator/qrcodegen.cpp:498-533 | Produces the final message, or an invalid-argument error exactly if the data has the wrong length |
| Interleaving.MessageLength | src/otp/QR-Code-generator/qrcodegen.cpp:498-533 | The final message has one byte for each codeword of the version |
| Interleaving.MessageRoundTrip | src/otp/QR-Code-generator/qrcodegen.cpp:498-533 | De-interleaving the final message recovers the data codewords, for every version and level |
| Interleaving.RowsAreCodewords | src/otp/QR-Code-generator/qrcodegen.cpp:498-533 | Every de-interleaved block is a Reed-Solomon codeword of at most 255 bytes |
| Zigzag.ScanVisits | src/otp/QR-Code-generator/qrcodegen.cpp:540-558 | For every odd size the zigzag visits each module outside column 6 exactly once, and no other |
| Zigzag.ScanContinues | src/otp/QR-Code-generator/qrcodegen.cpp:540-558 | For every symbol size the zigzag starts in the lower right corner, to the left, and successive modules are at most one row apart, also from one column pair to the next |
| Zigzag.ScanIsReadingOrder | src/otp/QR-Code-generator/qrcodegen.cpp:540-558 | For every symbol size the module at place i is the one a closed form gives: column pairs from the right without column 6, running upward and downward in turn |
| Zigzag.PlaceKeeps | src/otp/QR-Code-generator/qrcodegen.cpp:536-560 | Placing codewords leaves function modules and modules off the path untouched |
| Zigzag.PlaceRead | src/otp/QR-Code-generator/qrcodegen.cpp:536-560 | With enough free modules, reading along the scan returns the placed bits; the modules beyond keep what they held |
| Symbol.QrSymbol.DrawCodewords | src/otp/QR-Code-generator/qrcodegen.cpp:536-560 | The three nested loops place the bits along the scan; all bits are placed exactly if there are enough free modules |
| LinePenalty.RenderRunsOf | src/otp/QR-Code-generator/qrcodegen.cpp:591-611 | The runs of a line describe the line |
| LinePenalty.RunsOfRender | src/otp/QR-Code-generator/qrcodegen.cpp:591-611 | No other list of runs describes it |
| LinePenalty.ScoreLine | src/otp/QR-Code-generator/qrcodegen.cpp:591-611 | The streaming run counter and history compute the run-by-run score of the line between its light borders |
| LinePenalty.TerminateAndCount | src/otp/QR-Code-generator/qrcodegen.cpp:761-769 | Closes the last run, adds the border and counts the pattern that ends there |
| LinePenalty.StreamedBounds | src/otp/QR-Code-generator/qrcodegen.cpp:752-754 | Every run in the history is at most the size plus the line read so far, hence within the asserted three times the size |
| LinePenalty.NoAdjacentFinders | src/otp/QR-Code-generator/qrcodegen.cpp:752-758 | Two successive checks of a line cannot both find a pattern |
| LinePenalty.LineScoreBound | src/otp/QR-Code-generator/qrcodegen.cpp:591-611 | The score of a line is bounded linearly in its length |
| Penalty.CountUniformBlocks | src/otp/QR-Code-generator/qrcodegen.cpp:635-644 | Counts exactly the 2 x 2 blocks of one colour |
| Penalty.CountDark | src/otp/QR-Code-generator/qrcodegen.cpp:646-653 | Counts exactly the dark modules |
| Penalty.BalanceStepIsLeast | src/otp/QR-Code-generator/qrcodegen.cpp:654-658 | The computed k is the least k >= 0 for which the dark modules are within 45 - 5k and 55 + 5k percent, and at most 9 |
| Penalty.GetPenaltyScore | src/otp/QR-Code-generator/qrcodegen.cpp:587-661 | The whole score: rows, columns, blocks and balance |
| Penalty.PenaltyScoreBounds | src/otp/QR-Code-generator/qrcodegen.cpp:657-659 | The score lies in 0..2568888 for every odd size up to 177, as the source asserts |
| Penalty.OneColourScore | src/otp/QR-Code-generator/qrcodegen.cpp:587-661 | The exact score of a symbol of one colour: 2n(n - 2) + 3(n - 1)^2 + 90 for every size n from 5 |
| FormatInfo.ComputeFormatWord | src/otp/QR-Code-generator/qrcodegen.cpp:416-423 | The division loop computes the 15-bit format word, and no higher bit is set |
| FormatInfo.FormatWordDivisible | src/otp/QR-Code-generator/qrcodegen.cpp:416-423 | Without its mask pattern the format word is the product of the generator polynomial 0x537 and a quotient |
| FormatInfo.FormatRoundTrip | src/otp/QR-Code-generator/qrcodegen.cpp:416-440 | A reader recovers mask and level from a symbol that shows the format |
| FormatInfo.BothCopiesRead | src/otp/QR-Code-generator/qrcodegen.cpp:416-440 | Each of the two copies, read at its modules, gives all fifteen bits of the format word |
| VersionInfo.ComputeVersionWord | src/otp/QR-Code-generator/qrcodegen.cpp:447-452 | The division loop computes the 18-bit version word, and no higher bit is set |
| VersionInfo.VersionWordDivisible | src/otp/QR-Code-generator/qrcodegen.cpp:447-452 | The version word is the product of the generator polynomial 0x1F25 and a quotient |
| VersionInfo.VersionBits | src/otp/QR-Code-generator/qrcodegen.cpp:447-452 | The upper six bits of the version word are the version in binary |
| Painting.VersionRoundTrip | src/otp/QR-Code-generator/qrcodegen.cpp:443-462 | From version 7 on, a reader recovers the version from a symbol that shows the patterns |
| Painting.BothVersionCopiesRead | src/otp/QR-Code-generator/qrcodegen.cpp:443-462 | Each of the two copies, read at its modules, gives all eighteen bits of the version word |
| Symbol.QrSymbol.ApplyMask | src/otp/QR-Code-generator/qrcodegen.cpp:563-584 | A domain error for masks outside 0..7; otherwise inverts exactly the modules of the mask that are not function modules |
| Masks.Mask0Chessboard | src/otp/QR-Code-generator/qrcodegen.cpp:571 | Mask 0 inverts the first module and changes with every step to the side or down |
| Masks.Mask1Rows | src/otp/QR-Code-generator/qrcodegen.cpp:572 | Mask 1 inverts every other row, from the first one |
| Masks.Mask2Columns | src/otp/QR-Code-generator/qrcodegen.cpp:573 | Mask 2 inverts every third column, from the first one |
| Masks.Mask3Diagonals | src/otp/QR-Code-generator/qrcodegen.cpp:574 | Mask 3 inverts every third diagonal, from the one in the corner |
| Masks.Mask4Blocks | src/otp/QR-Code-generator/qrcodegen.cpp:575 | Mask 4 is constant on blocks three wide and two high and changes from block to block, the first inverted |
| Masks.ProductMasks | src/otp/QR-Code-generator/qrcodegen.cpp:576-578 | Mask 5 inverts where 6 divides xy, mask 6 where xy leaves less than 3 modulo 6, mask 7 where x + y + (xy mod 3) is even |
| Reader.UnmaskedIsMasked | src/otp/QR-Code-generator/qrcodegen.cpp:563-584 | A reader with conditions of its own for the eight masks undoes exactly what the encoder did |
| Symbol.MaskInvolution | src/otp/QR-Code-generator/qrcodegen.cpp:563-584 | Applying a mask twice restores the grid |
| Symbol.MaskKeepsFormat | src/otp/QR-Code-generator/qrcodegen.cpp:416-440 | Masking and drawing the format commute, because format modules are function modules |
| Symbol.QrSymbol.DrawFormatBits | src/otp/QR-Code-generator/qrcodegen.cpp:416-440 | Writes both copies of the format and the dark module, and nothing else |
| Symbol.CandidateUnmasked | src/otp/QR-Code-generator/qrcodegen.cpp:349 | Undoing a trial mask leaves the unmasked data, with only the trial's format on it |
| Symbol.QrSymbol.FinishMask | src/otp/QR-Code-generator/qrcodegen.cpp:338-355 | With automatic choice the finished grid is the candidate of least penalty among all eight masks, the first on ties; otherwise the requested one |
| Symbol.QrSymbol.DrawFinderPattern | src/otp/QR-Code-generator/qrcodegen.cpp:465-474 | Paints the part of the 9 x 9 square inside the symbol with rings by distance, and nothing else |
| Painting.FinderLooks | src/otp/QR-Code-generator/qrcodegen.cpp:465-474 | Around every centre the rings are the 9 x 9 picture of a finder pattern with its separator |
| Painting.FinderLineScores | src/otp/QR-Code-generator/qrcodegen.cpp:465-474 | The middle line of a finder pattern has runs 1:1:3:1:1, and the penalty score counts it twice, as 80 |
| Symbol.QrSymbol.DrawAlignmentPattern | src/otp/QR-Code-generator/qrcodegen.cpp:477-482 | Paints the 5 x 5 square with rings by distance, and nothing else |
| Painting.AlignmentLooks | src/otp/QR-Code-generator/qrcodegen.cpp:477-482 | Around every centre the rings are the 5 x 5 picture of an alignment pattern |
| Symbol.QrSymbol.DrawVersion | src/otp/QR-Code-generator/qrcodegen.cpp:443-462 | Paints both version blocks from version 7 on, and nothing else |
| Symbol.QrSymbol.GetAlignmentPatternPositions | src/otp/QR-Code-generator/qrcodegen.cpp:664-677 | The centres in ascending order |
| FunctionPatterns.AlignPosOrder | src/otp/QR-Code-generator/qrcodegen.cpp:664-677 | Centres lie at least 12 apart, 16 after the first, and the last is 7 from the edge |
| FunctionPatterns.AlignStepIsLeast | src/otp/QR-Code-generator/qrcodegen.cpp:664-677 | The distance between centres is the least even one that reaches back to the first centre; version 32 has the next smaller, 26 |
| FunctionPatterns.AlignPositionRows | src/otp/QR-Code-generator/qrcodegen.cpp:664-677 | The centres of versions 7, 32 and 40 |
| Painting.AlignApart | src/otp/QR-Code-generator/qrcodegen.cpp:399-408 | Alignment patterns do not overlap |
| Symbol.QrSymbol.DrawAlignmentPatterns | src/otp/QR-Code-generator/qrcodegen.cpp:399-408 | Draws the pattern at all pairs of centres but the three corners, and nothing else |
| Symbol.QrSymbol.DrawFunctionPatterns | src/otp/QR-Code-generator/qrcodegen.cpp:387-413 | The picture of all function patterns after overwriting, the exact set of function modules, and light modules elsewhere |
| FunctionPatterns.FreeModules | src/otp/QR-Code-generator/qrcodegen.cpp:680-692 | For all 40 versions the modules that are not function modules are as many as the formula of getNumRawDataModules says |
| Reader.ScanRoom | src/otp/QR-Code-generator/qrcodegen.cpp:536-560 | The free modules along the scan are exactly as many as the formula says |
| QrCode.MakeSymbol | src/otp/QR-Code-generator/qrcodegen.cpp:320-359 | Range errors in the order of the source; otherwise the finished symbol, its mask, and all codeword bits placed |
| Reader.SymbolUnique | src/otp/QR-Code-generator/qrcodegen.cpp:320-359 | Version, level, data and mask determine every module of the symbol |
| Reader.SymbolShowsPatterns | src/otp/QR-Code-generator/qrcodegen.cpp:320-359 | In the finished symbol all function patterns are intact |
| Reader.SymbolShowsFormat | src/otp/QR-Code-generator/qrcodegen.cpp:353-355 | The finished symbol shows the format of its level and mask |
| Reader.SymbolRoundTrip | src/otp/QR-Code-generator/qrcodegen.cpp:320-359 | A reader given only the modules recovers what the data codewords say |
| Reader.DamageTolerated | src/otp/QR-Code-generator/qrcodegen.cpp:498-533 | Any codewords within the correction limit of damaged blocks are the original blocks, so the text is recovered |
| QrCode.EncodeTextSymbol | src/otp/QR-Code-generator/qrcodegen.cpp:247-250 | A text that fits becomes a symbol from whose modules a reader gets exactly the text, in the smallest version and at the boosted level; it is the symbol of codewords that encode the text, under the mask of least penalty |
| Crc16.Reverse | src/metadata/board_control.cpp:290-296 | The loop computes the reversed byte |
| Crc16.Reverse16 | src/metadata/board_control.cpp:304-310 | The loop computes the reversed word |
| Crc16.ReversedBit | src/metadata/board_control.cpp:290-296 | Bit i of the reversed byte is bit 7 - i of the byte |
| Crc16.Reversed16Bit | src/metadata/board_control.cpp:304-310 | Bit i of the reversed word is bit 15 - i of the word |
| Crc16.ComputeCrc | src/metadata/board_control.cpp:317-327 | The nested loops compute the checksum function |
| Crc16.RegisterIsRun | src/metadata/board_control.cpp:317-327 | Processing a byte at a time is feeding the bits one by one, lowest first |
| Crc16.StepInjective | src/metadata/board_control.cpp:323-324 | The shift step loses no information |
| Crc16.CrcLinear | src/metadata/board_control.cpp:317-327 | The checksum is linear over exclusive or, for messages of any equal length |
| Crc16.CrcParity | src/metadata/board_control.cpp:317-327 | The checksum has the bit parity of the message |
| Crc16.BurstDetected | src/metadata/board_control.cpp:317-327 | Messages that differ only within 16 consecutive bits have different checksums |
| Crc16.AdjacentBytesDetected | src/metadata/board_control.cpp:317-327 | Messages that differ in one byte or two adjacent bytes have different checksums |
| Crc16.OddErrorsDetected | src/metadata/board_control.cpp:317-327 | Messages that differ in an odd number of bits have different checksums |
| Crc16.OddErrorsNeverValid | src/metadata/board_control.cpp:262-267 | No odd number of wrong bits in payload and checksum turns one valid payload into another |
| CrcOrder.OrderOfX | src/metadata/board_control.cpp:317-327 | Shifting a single bit d places through the checksum register gives that bit back if and only if d is a multiple of 32767 |
| CrcOrder.TwoBitErrors | src/metadata/board_control.cpp:317-327 | Messages of any equal length that differ in exactly two bits have the same checksum if and only if the bits are a multiple of 32767 apart |
| CrcOrder.FarBitsCollide | src/metadata/board_control.cpp:317-327 | Two messages of 4096 bytes that differ in two bits and have the same checksum |
| Crc16.CrcIsArc | src/metadata/board_control.cpp:317-327 | The loop with its reversals equals the right-shifting form with polynomial 0xA001 (CRC-16/ARC) |
| Frame.EncodeFrame | src/metadata/board_control.cpp:255-280 | The frame is DLE STX, the payload with its checksum and doubled DLE bytes, DLE ETX |
| Frame.FrameLength | src/metadata/board_control.cpp:269-279 | The length is payload plus number of DLE bytes plus 4 |
| Frame.ParseFramed | src/metadata/board_control.cpp:269-279 | A destuffing receiver recovers the payload in front of any bytes |
| Frame.ParseSound | src/metadata/board_control.cpp:269-279 | That receiver accepts nothing but frames |
| Frame.PrefixFree | src/metadata/board_control.cpp:255-280 | Equal streams hold equal payloads and equal remainders |
| Frame.FrameRoundTrip | src/metadata/board_control.cpp:255-280 | Mask, command and extra data are recovered with a matching checksum |
| Frame.MasksDistinct | src/metadata/board_control.cpp:257 | Boards 1 to 8 have masks with no common bit |
| Frame.MaskShifts | src/metadata/board_control.cpp:257 | The mask of board 1 is 1, and that of each next board is shifted by one |
| Frame.OnlyBoardAddressed | src/metadata/board_control.cpp:255-280 | A board that tests its bit of the first byte received is addressed if and only if the frame was encoded for it |
| Receiver.SendFrameWithAck | src/metadata/board_control.cpp:168-247 | Writes one frame for each attempt, at most `retries`, until the first attempt whose bytes the state machine accepts within its steps; false if there is none |
| Receiver.AdvanceRemembers | src/metadata/board_control.cpp:199-237 | What every state remembers of the bytes read, including the state a negative answer leaves behind |
| Receiver.SuccessMeansAck | src/metadata/board_control.cpp:168-247 | Success means that the bytes read in the last attempt end in DLE STX AA 7F 80 DLE ETX, at the first step where it is accepted |
| Receiver.AckAccepted | src/metadata/board_control.cpp:199-237 | That frame is accepted if and only if the machine is in WAIT_DLE or WAIT_STX when it begins |
| Receiver.AckLost | src/metadata/board_control.cpp:199-237 | In any other state the frame is lost and leaves the machine in WAIT_DLE |
| Receiver.AckAfterStrayStart | src/metadata/board_control.cpp:199-237 | The bytes DLE STX in front of the frame are enough to lose it |
| Receiver.AfterNack | src/metadata/board_control.cpp:220-232 | After a negative answer the machine is in WAIT_ETX with the negative payload |
| Receiver.AckAfterNackLost | src/metadata/board_control.cpp:220-236 | An acknowledgement right after a negative answer is lost, and only a second one is accepted |
| Receiver.AckMeansSuccess | src/metadata/board_control.cpp:168-247 | That frame, arriving so within the steps of some attempt, makes the call succeed |
| Receiver.SuccessIff | src/metadata/board_control.cpp:168-247 | The call succeeds if and only if some attempt within `retries` reads that frame, within its steps, when the machine is in WAIT_DLE or WAIT_STX |
| Receiver.AckIsFramed | src/metadata/board_control.cpp:255-280 | The accepted byte sequence is what the frame format makes of the single byte AA and its checksum |
| Receiver.AckChecksum | src/metadata/board_control.cpp:223-229 | The only checksum bytes accepted with AA are 7F 80 |
| DelayBuffer.SharedQueue.Update | src/metadata_parser.cpp:225-267 | Pushes, drops entries older than ten seconds, then drops down to fifty |
| DelayBuffer.SharedQueue.Send | src/metadata_parser.cpp:281-300 | Takes at most the oldest entry, exactly if it has waited the delay |
| DelayBuffer.SharedQueue.Clear | src/metadata_parser.cpp:210-219 | Empties the queue |
| DelayBuffer.RoundsTowardsZero | src/metadata_parser.cpp:240-243 | Ages are whole milliseconds, rounded alike on both sides of zero |
| DelayBuffer.UpdateKeeps | src/metadata_parser.cpp:237-259 | An update keeps exactly the entries that are at most ten seconds old and among the last fifty |
| DelayBuffer.NewestSurvives | src/metadata_parser.cpp:230-259 | The new entry survives its update if and only if at most ten seconds pass between the two clock readings |
| DelayBuffer.ApplyConsistent | src/metadata_parser.cpp:210-300 | Every step keeps order, bounds and the account of all entries |
| DelayBuffer.RunConsistent | src/metadata_parser.cpp:210-300 | Over every run: entries pushed are those removed followed by those queued, in push order and once each; stamps are sorted, at most fifty are queued, none was sent before its delay |
| DelayBuffer.UpdateInRun | src/metadata_parser.cpp:225-259 | After every run that ends with an update no queued entry is more than ten seconds old, and the new entry is queued if and only if its two clock readings are at most ten seconds apart |
| DelayBuffer.LateReadingLosesEntry | src/metadata_parser.cpp:225-259 | With readings 10.001 seconds apart an update leaves the queue empty |
| DelayBuffer.EarlierReadingKeepsEntry | src/metadata_parser.cpp:237-247 | With readings one nanosecond closer the entry stays |
| DelayBuffer.BurstKeepsFifty | src/metadata_parser.cpp:255-259 | Of any number of updates at one moment the last fifty entries stay, in order |
| Splitter.PacketParser.Feed | src/metadata_parser.cpp:120-134 | After every chunk, packets so far and those left in the buffer are the split of all input so far; all are cut unless a test reads that the parser was stopped, and no packet is cut after that |
| Splitter.EmittedIsPrefix | src/metadata_parser.cpp:131-134 | Wherever the parser is stopped, its packets are the first ones of the whole input |
| Splitter.SplitIsCut | src/metadata_parser.cpp:131-134 | Splitting loses nothing and leaves no terminator in packets or leftover |
| Splitter.OnePacketCut | src/metadata_parser.cpp:131-134 | The stream is cut at the closing tag of the stream element |
| Splitter.CutUnique | src/metadata_parser.cpp:131-134 | There is only one such way to cut an input |
| Splitter.SplitInTwo | src/metadata_parser.cpp:120-134 | Splitting can be interrupted anywhere, even inside a terminator |
| Splitter.ChunkingIrrelevant | src/metadata_parser.cpp:120-134 | Two parsers fed the same zero-free input in any chunks, with nothing left to cut, have the same packets and the same leftover |
| Splitter.WholeInputIff | src/metadata_parser.cpp:120-134 | Packets and leftover are the split of the input as it arrived if and only if no chunk has a zero byte |
| Splitter.ZeroByteLoses | src/metadata_parser.cpp:122-126 | A chunk of three bytes with a zero byte in the middle loses the last two |
| Splitter.CStringWhole | src/metadata_parser.cpp:122-126 | A chunk is taken whole if and only if it has no zero byte |
| Base64.Encode | src/utils.cpp:35-58 | The loop with its wrapping 32-bit accumulator computes the encoding of section 4 of RFC 4648 |
| Base64.EncodingLength | src/utils.cpp:35-58 | The length is four characters for every three octets or part of three |
| Base64.RoundTrip | src/utils.cpp:35-58 | A decoder inverts the encoding |
| Base64.DecodeSound | src/utils.cpp:35-58 | The decoder accepts nothing but encodings |
| RecoveryCodes.Database.GetHashedRecoveryCodes | src/db_management.cpp:769-786 | The unused hashes of the account in order, or those read before a failure |
| RecoveryCodes.Database.VerifyRecoveryCode | src/db_management.cpp:700-720 | True exactly if some hash that was read matches |
| RecoveryCodes.Database.InvalidateRecoveryCode | src/db_management.cpp:729-761 | Marks exactly the rows of the account with the first matching unused hash |
| RecoveryCodes.Database.LoginWithRecoveryCode | src/request_handlers.cpp:503-523 | Success as soon as a code matches; then the invalidation, whatever its outcome |
| RecoveryCodes.Database.SignUp | src/request_handlers.cpp:600-629 | One account for each id; all codes are stored or none; a failure of hashing after the insertion is reported as failure and leaves the account |
| RecoveryCodes.ApplySound | src/db_management.cpp:566-761 | Every step keeps at most five rows for an account and never turns a used row unused |
| RecoveryCodes.AtMostFiveLogins | src/request_handlers.cpp:503-523 | Over every run, successful recovery logins of an account are at most five plus those where the update failed or the second read ended before a match |
| RecoveryCodes.SlipsIff | src/db_management.cpp:729-761 | A successful login marks no row, and changes no table, if and only if the update fails or the second read ends before a match |
| RecoveryCodes.LoginUsesOneCode | src/db_management.cpp:729-761 | Any other successful login makes exactly the rows of the account with the matched hash used: the account keeps its other codes, and other accounts keep theirs |
| RecoveryCodes.CodesWorkInAnyOrder | src/request_handlers.cpp:503-523 | After every run, logins without failures, one with each of any unused codes in any order, all succeed and leave the others |
| RecoveryCodes.UsedCodeRefused | src/request_handlers.cpp:503-523 | A code that was used is refused, whatever fails |
| RecoveryCodes.FiveCodesWork | src/request_handlers.cpp:503-629 | After every run, a signup without failures gives codes that work exactly once each, in any order |
| RecoveryCodes.FiveCodesFiveLogins | src/request_handlers.cpp:503-523 | An account has at most five successful recovery logins in every run whose failures, of whatever mix, are harmless in that sense |
| RecoveryCodes.SlipsRepeat | src/request_handlers.cpp:503-523 | After every run, n copies of such a login add exactly n successes and leave the tables as they were, for every n |
| RecoveryCodes.BoundHoldsIff | src/request_handlers.cpp:503-523 | All runs whose logins fail in a given way have at most five successes for an account if and only if the first read delivers nothing, or the update works and the second read delivers as much of the five codes as the first |
| RecoveryCodes.SixLogins | src/request_handlers.cpp:503-523 | For every other way to fail, a run of one signup and six logins with one code has six successes |
| RecoveryCodes.FailedHashingTakesId | src/request_handlers.cpp:600-629 | A signup reported as failed changes the tables if and only if hashing fails after the insertion; the account then exists without codes, and no later signup for its id succeeds |
| RecoveryCodes.FailedStoreLosesCodes | src/request_handlers.cpp:605-613 | A signup with codes is reported as successful and stores none of them if and only if hashing works and storing fails |
| RecoveryCodes.HalfwaySignUps | src/request_handlers.cpp:600-629 | One signup of each of these two kinds |
| RecoveryCodes.RecoveryOverIff | src/request_handlers.cpp:503-523 | After every run, no continuation holds another successful recovery login of an existing account if and only if no input matches one of its unused codes |
| RecoveryCodes.SignUpRecoveryOverIff | src/request_handlers.cpp:600-629 | After every run, a signup that inserts its account makes one no recovery code ever opens if and only if hashing fails, storing fails or no input matches a code |
| VehicleTracker.Tracker.ProcessFrame | src/metadata/main_control.cpp:804-812 | The cache holds the last frames, and the tracks are those of the whole run |
| VehicleTracker.Tracker.UpdateVehiclePositions | src/metadata/main_control.cpp:540-581 | Notes every sighting, drops the oldest position beyond the limit, then sweeps |
| VehicleTracker.Tracker.Sweep | src/metadata/main_control.cpp:583-612 | Erases exactly the vehicles not seen in the frame and not mentioned in the cache |
| VehicleTracker.TrackedStep | src/metadata/main_control.cpp:540-612 | After a frame a vehicle is tracked exactly if it was seen in it, or was tracked before and is mentioned in the cache |
| VehicleTracker.TrackedIff | src/metadata/main_control.cpp:540-612 | Over every run of any frames, with any cache size: tracked exactly if seen in some frame, and after every later frame the cache held a frame that mentions the vehicle |
| VehicleTracker.TrackedMentionedIff | src/metadata/main_control.cpp:583-612 | After a frame every tracked vehicle is mentioned by a cached frame if and only if those seen in that frame are |
| VehicleTracker.TrackedMentioned | src/metadata/main_control.cpp:583-612 | With a cache of at least one frame, and a last frame whose text holds the ids of its vehicles, every tracked vehicle is mentioned by a cached frame |
| VehicleTracker.PaddedIdUnmentioned | src/metadata/main_control.cpp:547-591 | A vehicle whose id is written with leading zeros is tracked but found in no cached frame, and erased by the next frame without it |
| VehicleTracker.HistorySince | src/metadata/main_control.cpp:574-580 | Over every run: the history is the last `history_size` of all positions since the vehicle was last taken up |

## Left out

- The other segment features of the QR library (ECI segments, `makeEci`, kanji mode, `encodeBinary`): the server encodes texts only.
- Rendering of symbols as SVG, the OTP secrets, URIs and codes: input and output, or arithmetic without a deeper property.
- XML regular expressions, JSON, sockets, TLS, ffmpeg, SQLite and password hashing: foreign code; their results are parameters.
- The geometry and risk analysis in `src/metadata/main_control.cpp`: floating point without an exact specification.
- Starting and stopping threads, and the mutexes: each critical section is one step of a run.
- `src/metadata/send_time.cpp`: the same checksum and frame encoder again.
- Splitter.PacketParser.Feed: what is extracted from a packet is not modelled.
- RecoveryCodes.ApplySound: the foreign key between the tables is not modelled; no step removes an account.
- Receiver.SendFrameWithAck: the pause of 100 ms between attempts and failing writes are not modelled.
- Frame.EncodeFrame: board numbers outside 1..32 are excluded, since the shift is undefined for them.
- DelayBuffer.SharedQueue.Send: sending the entry over the network, and skipping entries without boxes, is not modelled.
