# OrionBios in Dafny

OrionBios is firmware for a 68000 board. This project models the parts of it that hold algorithms rather than
register traffic, and proves what they compute:

- **Tiny BASIC** (`Ascii`, `BasicProgram`, `BasicStore`, `BasicListing`, `BasicEntryCases`, `BasicEval`, `BasicScan`,
  `BasicEntryLaws`, `BasicScanExact`, `BasicExpr`, `BasicSteps`, `BasicExprCorrect`, `BasicCases`, `BasicBlanks`,
  `BasicMeaning`, `BasicInterp`): the packed, sorted, in-place edited program store; LIST; the mutually recursive
  numeric and string evaluators.
- **Storage** (`AtaDevice`, `AtaDriver`, `DiskIo`): two drives behind one driver with global selection state, against
  devices that are BSY/DRQ/ERR state machines following the PIO data-in and data-out protocols (sections 9.5 and 9.6
  of ATA/ATAPI-6).
- **CRC-32** (`Crc32`, `CrcPolynomial`): the table-driven unrolled loop against division of polynomials over two
  elements by the generator of section 3.2.9 of IEEE 802.3.
- **Keyboard ring** (`KbdRing`): interrupt producer and foreground consumer as interleaved micro-steps.
- **Shell front end** (`ShellTokens`, `ShellHistory`): the in-place tokeniser, and the line editor with its history ring.
- **W5100 buffers and file receiver** (`W5100`, `Receiver`): circular windows, the double-read size register, and the
  header/payload state machine.
- **I2C** (`I2cBus`, `RtcDriver`): bit-banging on two wires, slaves at clock-edge level, a decoder that sees only the
  wires (sections 3.1.3 to 3.1.6 of NXP UM10204), and the DS3231 and AT24C32 drivers.

Each imperative part is a class or an array method proved equal to a specification function; the theorems are about
those functions, over all inputs, all runs or all interleavings. Integers are unbounded in Dafny, so every 8-, 16- and
32-bit wrap of the firmware is written out (`Machine`). `dafny verify dfyconfig.toml` checks the whole project.

## Where the code does not do what one would expect

These are consequences of the code as written. Each is stated exactly, with a concrete case where one helps, in the
members named.

- The insert loop never ends when the packed line would fill memory to the last byte, and the 8-bit measuring loop never
  ends on text of 256 bytes or more; 251 and 252 bytes of text wrap the length byte to zero, 253 to 255 to a few bytes
  (`BasicStore.MergeEndsIff`, `BasicStore.FullMemoryIsEndless`, `BasicStore.MeasureEndsIff`, `BasicStore.Store.EnterLine`;
  `BasicEntryCases.FullMemoryHangs`, `BasicEntryCases.BoardHangs`, `BasicEntryCases.LongLineWraps`,
  `BasicEntryCases.LongerLineHangs`).
- Typing LIST output back in rebuilds the program only while each listed line fits the remaining input buffer, since a
  listed line can be longer than its packed form (`BasicListing.RelistRebuilds`, `BasicEntryCases.ListedLineMisfits`,
  `BasicEntryCases.BoardListingFails`).
- A quote byte of the other kind inside a quoted literal ends the literal for the loop that raises letters, so letters
  inside quotes can be raised and letters behind them kept (`BasicEntryLaws.QuotedClosesIff`,
  `BasicEntryLaws.OtherQuoteIsMisread`).
- A relation `>=` behind a blank sets the error flag when the last term of its left operand is a product or quotient, and
  only then: the product loop leaves the cursor on the blank, and the first word of the table is only tried before blanks
  are skipped (`BasicCases.RelationBehindBlanks`, `BasicCases.GreaterEqualIsLost`, `BasicCases.GreaterEqualIsKept`). In the same way an
  arithmetic operator behind a blank is left over, without an error (`BasicBlanks.SumBehindBlanks`,
  `BasicBlanks.ProductBehindBlanks`, `BasicBlanks.PlusIsLeftOver`).
- `ABS` is the identity, because the value is unsigned (`BasicCases.AbsIsMagnitude`). `RND` of zero divides by zero
  (`BasicCases.RndFaultsAtZero`), and a `MID$` start plus length can overflow a long (`BasicCases.MidOverflowFaults`):
  both are faults in `BasicExprCorrect.ExpressionCorrect` and `BasicExprCorrect.StringCorrect`.
- A byte of 128 or more can pass for the end of a table word, and then the keyword found is never the right one
  (`BasicScanExact.ScanPicksFirstIff`, `BasicScan.MarkedWordIsMisread`).
- The MIDE write reports success when the drive's last status says that the sector was not stored
  (`AtaDriver.MideWrite`, `AtaDriver.FinalErrorIsSuccess`), and disk_write passes that on (`DiskIo.Disks.DiskWrite`).
- The two-piece W5100 copy leaves its window once offset plus length exceeds twice the window (`W5100.SplitEscapes`).
- A declared file size below 21 makes the receiver take too much (`Receiver.CompletesExactlyIff`,
  `Receiver.DeclaredSizeIsReceived`). The double read is
  safer than its rule of use suggests: it is enough that the register only grows (`Receiver.DoubleReadNeverOverReports`).
- Taking from an empty ring moves the tail past the head (`KbdRing.Ring.Get`); the callers poll first.
- Time fields come back changed exactly when they exceed the register masks (`RtcDriver.TimeRoundTrip`), and EEPROM
  addresses above 4095 alias (`RtcDriver.CellStays`).

## Model

| member | source | states |
|---|---|---|
| BasicStore.Store.EnterLine | apps/tinyBasic/TinyBasicPlus.c:1077-1201 | Entering one typed line: the outcome is the one EntryOutcome predicts from the old program and the parsed line, and whenever the firmware returns without a wrapped length the store is again a valid packed program equal to the old one with that line replaced, added or removed; a wrapped length never leaves the intended program. |
| BasicStore.Store.constructor | apps/tinyBasic/TinyBasicPlus.c:1046-1053 | A fresh store holds the empty program. |
| BasicStore.Store.ToUppercaseBuffer | apps/tinyBasic/TinyBasicPlus.c:611-629 | Raises the typed line in place outside quotes and leaves the program bytes alone. |
| BasicStore.Store.MoveToTop | apps/tinyBasic/TinyBasicPlus.c:1081-1100 | The typed line ends up, newline last, just below the variables; the overlapping move loses nothing and the program bytes stay. |
| BasicStore.Store.ReadEntry | apps/tinyBasic/TinyBasicPlus.c:1079-1105 | Upper-casing, moving, number parsing and blank skipping together yield exactly ParseEntry of what was typed. |
| BasicStore.TakeApart | apps/tinyBasic/TinyBasicPlus.c:479-497 | Number and start of text found by the cursor loops are those of the parsed line. |
| BasicStore.MeasureFrom | apps/tinyBasic/TinyBasicPlus.c:1109-1114 | The loop stops exactly when the text is at most 255 bytes, after as many rounds as it has bytes; otherwise no number of rounds of the wrapped counter meets a newline. |
| BasicStore.MeasureEndsIff | apps/tinyBasic/TinyBasicPlus.c:1109-1114 | On any memory: some round of the 8-bit counter is on a newline if and only if the text is at most 255 bytes. |
| BasicStore.AlignLine | apps/tinyBasic/TinyBasicPlus.c:1115-1135 | After the even-alignment shift the text lies at its packed place with its newline and pad behind it, and the 8-bit length is that of the packed line. |
| BasicStore.PlaceHeader | apps/tinyBasic/TinyBasicPlus.c:1115-1135 | With the number and length bytes written, the bytes are exactly the packed line when its text is at most 250 bytes. |
| BasicStore.FindLine | apps/tinyBasic/TinyBasicPlus.c:594-608 | The length-byte walk stops at the byte offset of the first line numbered linenum or more. |
| BasicStore.RemoveAt | apps/tinyBasic/TinyBasicPlus.c:1142-1158 | Closing up over a line leaves the encoding of the program without it, every other line byte-identical. |
| BasicStore.RemoveNumbered | apps/tinyBasic/TinyBasicPlus.c:1142-1158 | A line is removed exactly when its number is the one entered. |
| BasicStore.MergeBytes | apps/tinyBasic/TinyBasicPlus.c:1165-1200 | In one hit or many shuffles, the waiting bytes land at the insertion point, the tail moves up unchanged, and nothing else changes; the memory and every variable are those of some number of rounds. |
| BasicStore.MergeEndsIff | apps/tinyBasic/TinyBasicPlus.c:1165-1200 | Some number of rounds empties the insert loop if and only if nothing is left to insert or program_end is below txtpos at its start. |
| BasicStore.FullMemoryIsEndless | apps/tinyBasic/TinyBasicPlus.c:1165-1200 | For an entry of at most 255 bytes, never returning is the same as its insert loop never running empty. |
| BasicStore.NoGapNoProgress | apps/tinyBasic/TinyBasicPlus.c:1172-1199 | With no gap any number of rounds leaves every variable and every byte as it was: the firmware hangs. |
| BasicStore.InsertAt | apps/tinyBasic/TinyBasicPlus.c:1165-1200 | With the gap open, the bytes become the encoding of the program with the line inserted. |
| BasicStore.InsertWrapped | apps/tinyBasic/TinyBasicPlus.c:1109-1122 | When the one-byte length wrapped, what the loop leaves is not the encoding of the intended program. |
| BasicStore.MergePlaced | apps/tinyBasic/TinyBasicPlus.c:1137-1201 | Delete, insert, hang or wrap, decided exactly as EntryOutcome says; a hang is an insert loop that no number of rounds empties, and otherwise the memory is what emptying it leaves. |
| BasicProgram.RemoveIsMapRemove | apps/tinyBasic/TinyBasicPlus.c:1142-1163 | On sorted programs, deletion is removal from the number-to-text map and keeps the order. |
| BasicProgram.InsertIsMapUpdate | apps/tinyBasic/TinyBasicPlus.c:1165-1200 | Insertion of a new number is a map update. |
| BasicProgram.UpsertIsMapUpdate | apps/tinyBasic/TinyBasicPlus.c:1137-1201 | Entering a line is a map update and keeps the program strictly sorted. |
| BasicProgram.SortedProgramIsUnique | apps/tinyBasic/TinyBasicPlus.c:594-608 | A sorted program is determined by its map, so the packed bytes are a canonical form. |
| BasicProgram.UpperIdempotent | apps/tinyBasic/TinyBasicPlus.c:611-629 | Raising twice is raising once, quotes included. |
| BasicProgram.ParseEntryShape | apps/tinyBasic/TinyBasicPlus.c:479-497 | The parsed text is a suffix of the raised line, and a nonzero number is preceded by at least one digit. |
| BasicProgram.ParsedTextIsRaised | apps/tinyBasic/TinyBasicPlus.c:1079-1105 | The text that reaches the store is already raised, so raising it again changes nothing. |
| BasicListing.PrintNum | apps/tinyBasic/TinyBasicPlus.c:437-458 | Prints the decimal digits of any 32-bit int, with a sign if negative; the smallest int comes out as a sign and a parenthesis. |
| BasicListing.PrintLine | apps/tinyBasic/TinyBasicPlus.c:630-652 | Prints number, blank and text, and the newline-and-align walk ends on the next line start. |
| BasicListing.List | apps/tinyBasic/TinyBasicPlus.c:2387-2398 | LIST prints the lines from the requested number on; its walk visits the same starts as the length-byte walk. |
| BasicListing.PrintedNumber | apps/tinyBasic/TinyBasicPlus.c:479-497 | testnum reads back the number that printnum printed, up to the overflow rule. |
| BasicListing.ListedLineParses | apps/tinyBasic/TinyBasicPlus.c:437-458 | Typing what LIST printed for a valid line parses back to that line. |
| BasicListing.RelistRebuilds | apps/tinyBasic/TinyBasicPlus.c:1077-1201 | Typing the whole LIST output into an empty store rebuilds the same program if and only if every listed line fits the input buffer that the lines before it leave. |
| BasicListing.NeverAgain | apps/tinyBasic/TinyBasicPlus.c:551-591 | Once a listed line has been cut short by the full buffer, no later listed line can bring it back. |
| BasicEntryCases.FullMemoryHangs | apps/tinyBasic/TinyBasicPlus.c:1165-1200 | 1A typed into an empty store with six bytes hangs; with eight it is stored. |
| BasicEntryCases.LongLineWraps | apps/tinyBasic/TinyBasicPlus.c:1109-1122 | 1 and 251 letters typed into an empty store of any size: the length wraps and the line is lost. |
| BasicEntryCases.LongerLineHangs | apps/tinyBasic/TinyBasicPlus.c:1109-1114 | 1 and 256 letters typed into an empty store of any size: the measuring loop hangs. |
| BasicEntryCases.ListedLineMisfits | apps/tinyBasic/TinyBasicPlus.c:630-652 | 10AB typed into an empty store of eight bytes is stored, but what LIST prints for it cannot be typed back. |
| BasicEntryCases.BoardHangs | apps/tinyBasic/TinyBasicPlus.c:1046-1053 | The same hang in a store of the board's size: 258 lines, each typed and stored, leave six bytes, and then 1A hangs. |
| BasicEntryCases.BoardMisfits | apps/tinyBasic/TinyBasicPlus.c:1046-1053 | Likewise for the listing: 259 lines typed and stored on the board, of which the last as LIST prints it no longer fits. |
| BasicEntryCases.BoardListingFails | apps/tinyBasic/TinyBasicPlus.c:1046-1053 | Typing the listing of that program back does not rebuild it. |
| BasicListing.PartParses | apps/tinyBasic/TinyBasicPlus.c:479-497 | Any part of a listed line parses to its number with at most that much text, to no text, or to an overflow. |
| BasicScanExact.ScanPicksFirstIff | apps/tinyBasic/TinyBasicPlus.c:381-418 | On any text and any table of distinct words, scantable picks the first word that the text starts with (the first of the table before blanks are skipped, any other after), with its index and the cursor behind it and following blanks, if and only if no word that it passes over is in the text with 128 added to its last byte. |
| BasicScanExact.OffFromWord | apps/tinyBasic/TinyBasicPlus.c:381-418 | Once a word has been matched in that form, the result is never right again: the end with too small an index, a later word under an earlier index, or an end behind a byte of 128 or more. |
| BasicScanExact.TablesAreDistinct | apps/tinyBasic/TinyBasicPlus.c:381-418 | The relation, function and string function tables hold distinct words. |
| BasicScan.ScanPicksFirst | apps/tinyBasic/TinyBasicPlus.c:381-418 | The sufficient half, for tables that may repeat words. |
| BasicScan.MarkedWordIsMisread | apps/tinyBasic/TinyBasicPlus.c:381-418 | An example: the byte 60 before a byte 190 is read as the relation <= instead of <. |
| BasicEval.Expression | apps/tinyBasic/TinyBasicPlus.c:991-1033 | For every newline-terminated line and cursor the evaluator terminates, never reads outside the line, never moves the cursor back or off the line, and keeps errors set. |
| BasicEval.Expr4 | apps/tinyBasic/TinyBasicPlus.c:824-926 | The same for the innermost level, with its nested string and numeric calls. |
| BasicEval.StrExpr | apps/tinyBasic/TinyBasicPlus.c:683-821 | The same for the string evaluator; the reference it returns is always a valid, terminated buffer. |
| BasicExprCorrect.ExpressionCorrect | apps/tinyBasic/TinyBasicPlus.c:824-1033 | For every tree of literals, variables, + - * /, negation, relations, PEEK, ABS, RND, LEN and ASC, written with only the parentheses precedence needs: without a fault the error flag is set if and only if some divisor is zero; without a zero divisor a fault occurs if and only if there is a RND of zero or an overflowing MID$; with neither, the result is the tree's 32-bit unsigned value with the cursor on the follow byte and the random seed advanced once per RND. |
| BasicExprCorrect.StringCorrect | apps/tinyBasic/TinyBasicPlus.c:669-821 | The same for every nested LEFT$, RIGHT$, MID$, CHR$, STR$, literal and variable whose numeric arguments allocate at most two temporaries: the result is the mathematical string, shorter than STRVAR_LEN, despite only four rotating temporaries, and it fails exactly on a zero divisor or a fault. |
| BasicCases.RelationBehindBlanks | apps/tinyBasic/TinyBasicPlus.c:930-1033 | A relation with any blanks around its operator is read as written, unless it is >= behind a blank and the last term of its left operand is a product or quotient; exactly then the error flag is set. |
| BasicBlanks.SumBehindBlanks | apps/tinyBasic/TinyBasicPlus.c:961-1033 | A sum or difference with any blanks around its operator: it is read whole unless there are blanks before the operator and the last term of its left operand is a product or quotient; then the value is the left operand's, without an error, and the cursor is on the operator. |
| BasicBlanks.ProductBehindBlanks | apps/tinyBasic/TinyBasicPlus.c:930-1033 | The same for a product or quotient whose left operand is itself one. |
| BasicBlanks.PlusIsLeftOver | apps/tinyBasic/TinyBasicPlus.c:930-1033 | 1*1 +1 is one, without an error, with the cursor on the plus sign. |
| BasicCases.ScansGreater | apps/tinyBasic/TinyBasicPlus.c:381-418 | With the cursor on blanks before >=, the relation found is >. |
| BasicCases.GreaterEqualIsLost | apps/tinyBasic/TinyBasicPlus.c:930-1033 | 1*1 >=1 sets the error flag. |
| BasicCases.GreaterEqualIsKept | apps/tinyBasic/TinyBasicPlus.c:930-1033 | 1 >=1 is true. |
| BasicCases.AbsIsMagnitude | apps/tinyBasic/TinyBasicPlus.c:824-926 | ABS gives the magnitude of its argument taken as signed if and only if that is not negative or is the smallest long. |
| BasicCases.RndFaultsAtZero | apps/tinyBasic/TinyBasicPlus.c:824-926 | RND faults if and only if its argument is zero; otherwise it returns the next random number below it. |
| BasicCases.RndOfZeroFaults | apps/tinyBasic/TinyBasicPlus.c:824-926 | RND(0) divides by zero. |
| BasicCases.MidOverflowFaults | apps/tinyBasic/TinyBasicPlus.c:749-779 | MID$("AB",2,2147483647) overflows its bound test. |
| BasicExprCorrect.Eval0 | apps/tinyBasic/TinyBasicPlus.c:991-1033 | One relation per level, by induction on the tree. |
| BasicExprCorrect.EvalSum | apps/tinyBasic/TinyBasicPlus.c:961-988 | Sums associate to the left and wrap at 32 bits. |
| BasicExprCorrect.EvalProduct | apps/tinyBasic/TinyBasicPlus.c:930-958 | Products and quotients associate to the left; a zero divisor sets the error. |
| BasicExprCorrect.EvalParen | apps/tinyBasic/TinyBasicPlus.c:905-919 | A parenthesised expression has the value of what it encloses. |
| BasicExprCorrect.EvalCall | apps/tinyBasic/TinyBasicPlus.c:866-903 | PEEK, ABS and RND of any argument tree, with the seed RND leaves. |
| BasicExprCorrect.EvalStr | apps/tinyBasic/TinyBasicPlus.c:683-821 | The induction over string trees, with how long the result stays intact. |
| BasicSteps.HoldsAfter | apps/tinyBasic/TinyBasicPlus.c:669-674 | A temporary keeps its string while fewer than its remaining life of new temporaries are taken. |
| BasicInterp.Interp.IgnoreBlanks | apps/tinyBasic/TinyBasicPlus.c:373-378 | The blank loop stops where the specification says. |
| BasicInterp.Interp.ScanTable | apps/tinyBasic/TinyBasicPlus.c:381-418 | The byte-by-byte table walk gives the specified cursor and index for every packed table. |
| BasicInterp.Interp.NewString | apps/tinyBasic/TinyBasicPlus.c:669-674 | Takes the next of the four temporaries in rotation and fills it, terminated. |
| BasicInterp.Interp.Expr4 | apps/tinyBasic/TinyBasicPlus.c:824-926 | Leaves the state and returns the value of the specification, whose correctness is ExpressionCorrect. |
| BasicInterp.Interp.Expr3 | apps/tinyBasic/TinyBasicPlus.c:930-958 | Same, for the product loop. |
| BasicInterp.Interp.Expr2 | apps/tinyBasic/TinyBasicPlus.c:961-988 | Same, for the sum loop. |
| BasicInterp.Interp.Expression | apps/tinyBasic/TinyBasicPlus.c:991-1033 | Same, for one relation. |
| BasicInterp.Interp.StringLiteral | apps/tinyBasic/TinyBasicPlus.c:690-703 | Copies at most 39 bytes up to the delimiter, and errs if there is none. |
| BasicInterp.Interp.StrExpr | apps/tinyBasic/TinyBasicPlus.c:683-821 | Same as the string specification, whose correctness is StringCorrect. |
| BasicInterp.Interp.OneSide | apps/tinyBasic/TinyBasicPlus.c:715-747 | LEFT$ and RIGHT$ with their clamped lengths. |
| BasicInterp.Interp.MiddleEnd | apps/tinyBasic/TinyBasicPlus.c:749-779 | MID$ with its clamped start and length. |
| AtaDevice.LbaRoundTrip | apps/ide_test/patch.c:11-16 | The device decodes from the four address registers exactly the block the driver encoded, modulo 2^28. |
| AtaDriver.WaitDrq | drivers/ide/ata2.c:298-311 | Bounded polling; success only on a last status with BSY=0, ERR=0, DRQ=1. |
| AtaDriver.WaitIdle | drivers/ide/ata2.c:313-324 | Bounded polling; success only on a last status with BSY=0, DRQ=0, ERR=0. |
| AtaDriver.PicoRead | drivers/ide/ata2.c:345-372 | For every status sequence: bounded polls, the data register read exactly 256 times or not at all and only after a ready status, 512 only after a finished status; on any device 512 means that the buffer, at an odd or even address, holds the addressed sector, and nothing else changed; a quick error-free device gives 512. |
| AtaDriver.PicoWrite | drivers/ide/ata2.c:374-405 | The same for writing, on devices that may drop sectors: 512 means that exactly that sector was replaced, and otherwise it was replaced or nothing was. |
| AtaDriver.MideRead | drivers/ide/ata2.c:499-556 | The byte-wide path reads the addressed sector, or fails and leaves memory alone. |
| AtaDriver.MideWrite | drivers/ide/ata2.c:558-615 | The byte-wide path fails exactly when the first status has ERR. A last status with ERR means that the sector was dropped, and the result is still 512: for new data, success with the medium unchanged is exactly a clean first and a failing last status. |
| AtaDriver.FinalErrorIsSuccess | drivers/ide/ata2.c:608-614 | Such a device exists: it drops the sector and the driver returns 512. |
| DiskIo.Disks.AtaSelectDevice | drivers/ide/ata2.c:458-464 | Device number and base register are always switched together. |
| DiskIo.Disks.SelectPdrv | drivers/ide/diskio2.c:113-119 | Unknown drives are refused and leave both selection variables alone. |
| DiskIo.Disks.AtaReadSector | drivers/ide/ata2.c:499-556 | On any devices: 512 means the selected device's sector is in memory; a failure changes no disk and nothing outside the buffer; healthy devices never fail. |
| DiskIo.Disks.AtaWriteSector | drivers/ide/ata2.c:558-615 | On any devices: the selected disk has the sector replaced or is unchanged, the other one is unchanged; 512 means replaced for the picoIDE device and for healthy ones. |
| DiskIo.Disks.DiskRead | drivers/ide/diskio2.c:159-180 | On any devices: RES_PARERR exactly for unknown drives; without RES_ERROR the effect is Apply on two separate sector arrays, whatever was selected before; disks and memory outside the buffer never change; healthy devices never give RES_ERROR. |
| DiskIo.Disks.DiskWrite | drivers/ide/diskio2.c:188-211 | On any devices: exactly the sectors marked as kept hold their part of the buffer, all others, the other drive and memory are unchanged; without RES_ERROR the effect is Apply for the picoIDE drive and for healthy devices. A MIDE drive that shows no error but its dropped sectors always gives RES_OK, and for new data the effect is then Apply if and only if it drops none. |
| DiskIo.RunOps | drivers/ide/diskio2.c:159-211 | Any interleaving of reads and writes on both drives is the fold of Apply. |
| DiskIo.ReadAfterWrite | drivers/ide/diskio2.c:159-211 | Reading the sectors just written returns the bytes written. |
| DiskIo.ReadPastWrite | drivers/ide/diskio2.c:159-211 | Reading sectors outside a write returns what was there before it. |
| DiskIo.LastWriteStays | drivers/ide/diskio2.c:188-211 | Over any run, a sector keeps its content until an operation that touches it. |
| DiskIo.SectorIsLatest | drivers/ide/diskio2.c:159-211 | Over any run, a sector holds its part of the last write that names it, with the bytes memory held at that moment. |
| DiskIo.ReadReturnsLatest | drivers/ide/diskio2.c:159-211 | Over any run, reading sectors returns the bytes of the latest write to them, whatever was done before and, to other sectors or the other drive, in between. |
| DiskIo.BelowBaseStays | drivers/ide/diskio2.c:171-203 | Over any run, no operation names a sector below the partition if and only if every write starts in it or above and stays below the 28-bit limit; then those sectors keep their contents. |
| DiskIo.BelowBase | drivers/ide/diskio2.c:171-178 | A transfer reaches below the partition base if and only if it starts there, modulo 2^28, or runs past the 28-bit limit. |
| DiskIo.DrivesAreIndependent | drivers/ide/diskio2.c:113-119 | An operation on one drive never changes the other. |
| Crc32.Init | bios/shell/crc32.c:17-36 | Fills the table with eight bit steps of every byte value. |
| Crc32.Update | bios/shell/crc32.c:40-55 | The 4-way unrolled table loop equals the bytewise remainder for every start value and buffer. |
| Crc32.CalculateBuffer | bios/shell/crc32.c:60-63 | The complemented remainder from all ones. |
| Crc32.LookUp | bios/shell/crc32.c:17-25 | One table look-up is eight bit steps. |
| Crc32.CrcIsDivision | bios/shell/crc32.c:40-55 | The bytewise remainder is bit-at-a-time division by the reflected polynomial. |
| Crc32.CrcConcat | bios/shell/crc32.c:40-55 | Updating over pieces is updating over their concatenation, for every split. |
| Crc32.StepLinear | bios/shell/crc32.c:17-25 | The bit step is linear over exclusive or. |
| Crc32.StepInjective | bios/shell/crc32.c:17-25 | The bit step is injective. |
| Crc32.BurstDetected | bios/shell/crc32.c:60-63 | Buffers that differ only within 32 consecutive bits have different checksums. |
| Crc32.FourBytesDetected | bios/shell/crc32.c:60-63 | Buffers that differ only within four consecutive bytes have different checksums. |
| KbdRing.Ring.Put | drivers/kbd/ringbuffer.c:24-32 | Appends to the contents, or drops the byte exactly when 255 are waiting. |
| KbdRing.Ring.Get | drivers/kbd/ringbuffer.c:16-22 | Takes the oldest byte when there is one; on an empty ring the tail runs past the head and 255 stale bytes appear. |
| KbdRing.Ring.IsEmpty | drivers/kbd/ringbuffer.c:34-37 | True exactly when nothing is waiting. |
| KbdRing.Ring.IsFull | drivers/kbd/ringbuffer.c:39-43 | True exactly when 255 bytes are waiting. |
| KbdRing.StoreIsSafe | drivers/kbd/ringbuffer.c:24-32 | The interrupt side never writes a slot whose byte has not been taken, in particular not the one being read. |
| KbdRing.DropsOnlyWhenFull | drivers/kbd/ringbuffer.c:26-29 | A byte is dropped if and only if 255 are waiting at the moment of the check. |
| KbdRing.StepKeepsInv | drivers/kbd/ringbuffer.c:16-50 | Every micro-step of either side keeps the invariant. |
| KbdRing.RingIsFifo | drivers/kbd/ringbuffer.c:16-50 | In every state of every interleaving the bytes taken are a prefix of the bytes accepted, at most 255 wait, in order in their slots, and drops happen only when full. |
| ShellTokens.ExecuteCmd | bios/shell/shell.c:350-401 | For every NUL-terminated line not starting with escape: the arguments point, each terminated inside the buffer, at exactly the first min(40, n) words, a blank nonempty line giving one empty word. |
| ShellTokens.TakeWord | bios/shell/shell.c:362-395 | One turn of the loop takes the next word and clears the blanks behind it. |
| ShellTokens.WordsAreSolid | bios/shell/shell.c:362-395 | Words are nonempty and contain no blank. |
| ShellTokens.WordsOfJoin | bios/shell/shell.c:362-395 | Joining any words by any nonempty gaps and splitting again gives the words back. |
| ShellHistory.Shell.HistoryAdd | bios/shell/shell_history.c:52-66 | Stores a nonempty command, cut to 127 bytes, in its ring row; the last 16 commands stay readable. |
| ShellHistory.Shell.StartLine | bios/shell/shell_history.c:69-78 | A fresh line is empty and terminated, with the cursor off the history. |
| ShellHistory.Shell.KeyTurn | bios/shell/shell_history.c:78-131 | One key changes buffer, length and cursor as the pure line editor does. |
| ShellHistory.Replay | bios/shell/shell_history.c:52-131 | Over any session of nonzero keys and added commands the buffers equal the pure fold. |
| ShellHistory.EventKeepsSession | bios/shell/shell_history.c:52-131 | Every event keeps the line at most 127 bytes, free of NULs, and the cursor within the last 16 commands. |
| ShellHistory.UpShowsHistory | bios/shell/shell_history.c:93-106 | Pressing up k times shows the k-th most recent of the last 16 commands and then stays. |
| W5100.BaseLoop | drivers/ethernet/w5100spi.c:258-283 | The accumulated base is the sum of the windows before it. |
| W5100.WindowsApart | drivers/ethernet/w5100spi.h:1773-1802 | Windows never overlap; when the sizes sum to at most 8 KB they all lie inside the block. |
| W5100.SplitWriteIsMasked | drivers/ethernet/w5100spi.c:296-322 | For every pointer and every length that does not run twice round the window, the two-piece write is the masked bytewise write. |
| W5100.SplitReadIsMasked | drivers/ethernet/w5100spi.c:335-360 | The same for reading. |
| W5100.SplitEscapes | drivers/ethernet/w5100spi.c:307-313 | A longer two-piece write, of any length that does not run round the whole address space, leaves the window: the byte just behind it gets data. |
| W5100.SendStaysInside | drivers/ethernet/w5100spi.c:296-322 | Sending up to a window of bytes changes no other window and, with sizes summing to 8 KB, nothing outside the block. |
| W5100.StreamIsExact | drivers/ethernet/w5100spi.c:296-360 | Over any run of admissible split or masked transfers, with any pointer wrap, the bytes that come out are the bytes that went in, in order. |
| W5100.StreamStaysInside | drivers/ethernet/w5100spi.c:296-360 | Over the same runs no byte outside the window changes. |
| W5100.WriteBuf | drivers/ethernet/w5100spi.c:119-135 | Bytes land at consecutive addresses that wrap at 64 KB, and nothing else changes. |
| W5100.Chip.SendData | drivers/ethernet/w5100spi.c:296-322 | For every 16-bit length: the chip memory is the two-piece write at wrapping addresses, equal to the masked one whenever it does not run twice round the window; the 16-bit pointer advances and wraps; other sockets keep theirs. |
| W5100.Chip.RecvData | drivers/ethernet/w5100spi.c:335-360 | For every 16-bit length: the buffer gets the two-piece read, equal to the masked one whenever it does not run twice round, and nothing around it changes; the pointer advances and wraps. |
| Receiver.DoubleReadNeverOverReports | bios/shell/receiver.c:69-80 | However often the size register grows between the four byte reads, and in whichever order a 16-bit read takes its bytes, an accepted size never exceeds what is there. |
| Receiver.RefusedMeansMoved | bios/shell/receiver.c:69-80 | A refused round means the register grew, so the loop ends. |
| Receiver.FallingRegisterOverReports | bios/shell/receiver.c:69-80 | With a register that may fall, two equal torn reads can claim 511 bytes where there were never more than 256. |
| Receiver.Socket.GetRxSize | bios/shell/receiver.c:69-80 | Ends, and returns at most what has arrived and zero or at least what was there on entry. |
| Receiver.Socket.RecvBytes | bios/shell/receiver.c:87-95 | Copies out exactly the next bytes of the stream while more keep arriving, and advances the read pointer. |
| Receiver.Socket.SendBytes | bios/shell/receiver.c:97-105 | The transmit window is the masked write of the data. |
| Receiver.PollKeepsTrack | bios/shell/receiver.c:133-180 | One poll keeps the invariant or ends the file as Finished describes. |
| Receiver.ReceiverHoldsPrefix | bios/shell/receiver.c:115-188 | For every stream and fragmentation: the payload buffer is exactly the stream prefix of length bytes_recebidos, at least 21 and below tamanho_total while unfinished. |
| Receiver.CompletesExactlyIff | bios/shell/receiver.c:153-175 | A finished buffer is exactly the first tamanho_total bytes of the stream if and only if the declared size is at least 21; below that the remaining count wraps and too much is taken. |
| Receiver.RunEnds | bios/shell/receiver.c:153-175 | As many data-carrying polls as there are bytes left end the file. |
| Receiver.Getter.Established | bios/shell/receiver.c:133-180 | The branch does exactly one Poll of the state machine on what the double read saw. |
| Receiver.Getter.GetterLoop | bios/shell/receiver.c:115-188 | Every call, whatever the status, keeps the invariant; closing resets, close-wait ends, other states leave everything alone. |
| I2cBus.ValueOfBits | drivers/rtc/i2cbb.c:59-66 | Eight bits shifted out most significant first are the byte shifted in. |
| I2cBus.StartWorks | drivers/rtc/i2cbb.c:40-48 | From an idle bus or between bytes, the wires show one legal START and every slave listens for its address. |
| I2cBus.StopWorks | drivers/rtc/i2cbb.c:50-56 | The wires show one legal STOP, both lines end high and every slave is idle. |
| I2cBus.AckComesBack | drivers/rtc/i2cbb.c:68-76 | The ninth clock reads low exactly when an addressed slave acknowledges, and the observer records byte and acknowledgement. |
| I2cBus.BitComesIn | drivers/rtc/i2cbb.c:83-89 | Each clock reads the bit the one talking slave holds. |
| I2cBus.Bus.Raise | drivers/rtc/i2cbb.c:211-214 | From any state in which no slave holds the data line, both lines are high, and no chip has changed. |
| I2cBus.Bus.Start | drivers/rtc/i2cbb.c:40-48 | Adds exactly one START to what the observer decodes. |
| I2cBus.Bus.Stop | drivers/rtc/i2cbb.c:50-56 | Adds exactly one STOP and leaves the bus idle. |
| I2cBus.Bus.WriteByte | drivers/rtc/i2cbb.c:58-76 | Adds exactly that byte with its acknowledgement to the decoded events; every slave is as after taking the whole byte. |
| I2cBus.Bus.ReadByte | drivers/rtc/i2cbb.c:78-102 | Returns the byte the talking slave holds and adds it, acknowledged or not, to the decoded events. |
| RtcDriver.BcdRoundTrip | drivers/rtc/i2cbb.c:107-108 | Decimal coding is undone, under each register mask, exactly below 160, 80, 40 and 20. |
| RtcDriver.TimeRoundTrip | drivers/rtc/i2cbb.c:115-159 | A time written and read back is unchanged if and only if every field fits its digits and mask; every valid time does. |
| RtcDriver.SetTime | drivers/rtc/i2cbb.c:140-159 | The wires carry exactly the listed events; the clock's seven registers hold the coded time; an absent clock gives one NACK and a STOP. |
| RtcDriver.ReadTime | drivers/rtc/i2cbb.c:115-138 | The wires carry exactly the listed events; the struct gets the decoded registers; nowhere to put it or no answer returns 1. |
| RtcDriver.EepromWrite | drivers/rtc/i2cbb.c:164-174 | Exactly one cell changes, at the twelve-bit address. |
| RtcDriver.EepromRead | drivers/rtc/i2cbb.c:177-194 | Returns that cell, or 0xFF when nobody answers; no cell changes. |
| RtcDriver.Probe | drivers/rtc/i2cbb.c:201-207 | True exactly when the clock answers its address, whatever the slaves were doing before; the bus ends idle and nothing stored changes. |
| RtcDriver.RtcInit | drivers/rtc/i2cbb.c:210-230 | From any state in which no slave holds the data line, with both lines raised first: the wires carry exactly the listed events, and the control register is cleared exactly when the clock answers. |
| RtcDriver.RunOps | drivers/rtc/i2cbb.c:115-194 | Any sequence of the four calls answers as two plain memories would, over wires that carry exactly each call's events in turn, stay legal and end idle. |
| RtcDriver.TimeStays | drivers/rtc/i2cbb.c:115-159 | A set time is answered until another is set, whatever else happens, if and only if it fits. |
| RtcDriver.CellStays | drivers/rtc/i2cbb.c:164-194 | A written byte is read back until a write to the same twelve-bit address; every other address keeps its value. |
| BasicEntryLaws.RaisedOutsideQuotes | apps/tinyBasic/TinyBasicPlus.c:611-629 | Bytes before the first quote: exactly a to z are raised, by 32, and the rest of the line is raised as if it stood alone. |
| BasicEntryLaws.RaisedAroundQuoted | apps/tinyBasic/TinyBasicPlus.c:611-629 | A quote up to the next quote byte is kept; the same quote there ends it and what follows is raised on its own, the other quote opens a quote of its own, and without either the rest of the line is kept. |
| BasicEntryLaws.QuotedClosesIff | apps/tinyBasic/TinyBasicPlus.c:619-622 | What follows a quoted literal is raised on its own, whatever it is, if and only if the literal holds no quote of the other kind. |
| BasicEntryLaws.OtherQuoteIsMisread | apps/tinyBasic/TinyBasicPlus.c:619-622 | In "a'b'c"d the c inside the quotes is raised and the d behind them is not. |
| BasicEntryLaws.EntryIsRead | apps/tinyBasic/TinyBasicPlus.c:479-497 | Blanks, decimal digits, blanks and text are read as that number and the raised text if the number is at most 65529, and refused as too big otherwise. |
| BasicEntryLaws.SmallLettersEnterTheSame | apps/tinyBasic/TinyBasicPlus.c:1077-1201 | A line without quotes typed in small letters is read as the same entry, and leaves the same program, as the line in capitals. |
| BasicEntryLaws.PrintIsRaised | apps/tinyBasic/TinyBasicPlus.c:611-629 | 10 print 1 is read as line 10 with the text PRINT 1. |
| BasicMeaning.RelationGives | apps/tinyBasic/TinyBasicPlus.c:1003-1031 | By its spelling: a relation gives 1 if and only if it holds > and a > b, or < and a < b, or = and a = b, or is != and a differs from b, with unsigned a and b; otherwise 0. |
| BasicMeaning.ArithmeticGives | apps/tinyBasic/TinyBasicPlus.c:930-988 | A sum, difference or product is taken modulo 2^32, a quotient is rounded down, and a zero divisor sets the error. |
| BasicMeaning.NegationGives | apps/tinyBasic/TinyBasicPlus.c:830-833 | A minus sign takes the two's complement. |
| BasicMeaning.DigitsGive | apps/tinyBasic/TinyBasicPlus.c:842-851 | Decimal digits give their number modulo 2^32. |
| BasicMeaning.VariableGives | apps/tinyBasic/TinyBasicPlus.c:854-863 | A letter A to Z gives its variable. |
| BasicMeaning.PeekAbsGives | apps/tinyBasic/TinyBasicPlus.c:895-902 | PEEK gives the byte in memory and ABS its argument. |
| BasicMeaning.RndGives | apps/tinyBasic/TinyBasicPlus.c:904-905 | RND of zero faults; otherwise the seed s becomes (1103515245 s + 12345) modulo 2^31 and its bits 16 to 30 are reduced below the argument. |
| BasicMeaning.LenAscGives | apps/tinyBasic/TinyBasicPlus.c:883-889 | LEN counts the characters of its argument; ASC is the first of them, or 0. |
| BasicMeaning.LiteralGives | apps/tinyBasic/TinyBasicPlus.c:689-703 | A literal in either kind of quotes gives its bytes when they are at most 39; with more it is an error. |
| BasicMeaning.StringVariableGives | apps/tinyBasic/TinyBasicPlus.c:812-821 | A letter A to Z and $ give the string variable. |
| BasicMeaning.SideGives | apps/tinyBasic/TinyBasicPlus.c:715-749 | LEFT$ and RIGHT$ give as many characters from their side as the signed length says: none if negative, all if past the end. |
| BasicMeaning.MidGives | apps/tinyBasic/TinyBasicPlus.c:751-779 | MID$ with a start runs to the end; a start below 1 counts as 1. |
| BasicMeaning.MidLenGives | apps/tinyBasic/TinyBasicPlus.c:751-779 | MID$ with a length gives at most that many characters; it faults if and only if the start is in the string and start less one plus length passes the largest long. |
| BasicMeaning.FromNumberGives | apps/tinyBasic/TinyBasicPlus.c:780-808 | CHR$ gives the character of the low byte, STR$ the decimal digits of the signed value. |
| BasicMeaning.MinusFiveIsWritten | apps/tinyBasic/TinyBasicPlus.c:790-808 | STR$(0-5) is -5. |
| BasicMeaning.SignedRoundTrip | apps/tinyBasic/TinyBasicPlus.c:790-797 | Every signed 32-bit number survives the conversion to unsigned and back. |
| CrcPolynomial.CrcIsRemainder | bios/shell/crc32.c:17-55 | Over polynomials with coefficients modulo 2: start value times x^n plus message times x^32 is a multiple of x^32+x^26+x^23+x^22+x^16+x^12+x^11+x^10+x^8+x^7+x^5+x^4+x^2+x+1 plus the checksum register, for every buffer of n bits and every start value. |
| CrcPolynomial.DivideIsRemainder | bios/shell/crc32.c:17-25 | The same for bit-at-a-time division of any bits. |
| CrcPolynomial.RemainderIsUnique | bios/shell/crc32.c:17-25 | No other register value has that property. |
| CrcPolynomial.StepCoefficient | bios/shell/crc32.c:20-22 | One bit step is multiplication by x, less the generator when x^32 comes out, coefficient by coefficient. |
| CrcPolynomial.CheckValue | bios/shell/crc32.c:60-63 | The checksum of the nine bytes 123456789 is CBF43926 in hexadecimal. |
| KbdRing.ByteGoesIn | drivers/kbd/ringbuffer.c:24-32 | The producer's four steps append a byte whenever fewer than 255 wait at the check, and otherwise drop it. |
| KbdRing.ByteComesOut | drivers/kbd/ringbuffer.c:16-22 | The consumer's three steps take the oldest byte whenever one waits at the poll. |
| ShellHistory.DownLeadsBack | bios/shell/shell_history.c:108-121 | Pressing down k times while the m-th most recent command is shown shows the (m-k)-th, and from k = m on an empty line. |
| ShellHistory.TypingAppends | bios/shell/shell_history.c:124-128 | Typing any plain keys puts them behind the line, up to 127 bytes in all. |
| ShellHistory.BackspaceUndoesKey | bios/shell/shell_history.c:84-92 | A plain key and then backspace change nothing if and only if the line had room for the key. |
| ShellHistory.CommandIsKept | bios/shell/shell_history.c:52-66 | A nonempty command goes behind the earlier ones, cut to 127 bytes. |
| W5100.WindowsOfCodes | drivers/ethernet/w5100spi.h:1628-1651 | A size register of four two-bit codes gives each socket 1 KB doubled as often as its code says, and the bases are the sums of the windows before. |
| W5100.BoardWindows | bios/shell/receiver.c:221-222 | The board's setting 0x55 gives four consecutive windows of 2 KB. |
| Receiver.DeclaredSizeIsReceived | bios/shell/receiver.c:144-175 | For a stream that starts with the four bytes of n, least significant first: a run that ends has stored exactly the first n bytes if n is at least 21, and more than 21 bytes otherwise. |
| Receiver.TwoPollsEnd | bios/shell/receiver.c:138-175 | Such runs exist: the header, then the rest, ends the file. |
| AtaDevice.StatusBits | drivers/ide/ata2.c:131-138 | Busy, data request and error are bits 7, 3 and 0 of the status byte. |
| AtaDevice.LbaParts | drivers/ide/ata2.c:332-339 | The four parts of a 28-bit sector number each go into their register, in LBA mode on the first drive. |
| RtcDriver.BcdDigits | drivers/rtc/i2cbb.c:107-108 | Tens go into the high four bits and units into the low four, and back. |
| I2cBus.LegalIff | drivers/rtc/i2cbb.c:40-56 | The observer takes a trace as legal exactly as long as the wires move one at a time and START and STOP come between bytes. |

## Left out

- `getln`: console input; a typed line is a newline-terminated buffer at program_end + 2, cut off when the buffer is full.
- Tiny BASIC statement dispatch, graphics, POKE, LOAD/SAVE, WHILE/WEND and the GOSUB/FOR stack: input, output and raw frames.
- The C stack depth of the recursive evaluator, and the memory behind PEEK, which is an arbitrary function here.
- AREAD and DREAD, which the source leaves unimplemented, are in BasicEval and BasicInterp but not in the expression trees.
- BasicExprCorrect.StringCorrect: needs the numeric arguments at each level to allocate at most two temporaries; a third one reuses the buffer the substring is copied from, and what memcpy does on such an overlap is not modelled.
- BasicListing.RelistRebuilds: also covers programs that hold the bytes 8, 13 or 27, which getln never stores as typed; a listing with such bytes cannot be typed.
- BasicBlanks.SumBehindBlanks: blanks are around one operator of an otherwise blank-free tree; which combinations of blanks at several operators are read as written is not stated.
- BasicBlanks.ProductBehindBlanks: as BasicBlanks.SumBehindBlanks.
- BasicEntryCases.BoardHangs: takes a FOR frame to be 14 bytes, as the 68000 aligns it.
- BasicListing.PrintNum: the negation of the smallest int is taken to wrap, as the 68000 does it.
- The FEATURE and SECTOR_COUNT registers, `ide_bus_mode` 1, and the order of the address register writes, which reach the device as one step.
- `ATA_MAX_DRIVES` is 1 in include/ata.h although the driver needs two; the model has two devices.
- AtaDriver.MideRead: assumes every BSY period ends and that DRQ comes when data is due, since the firmware waits without a limit there.
- AtaDriver.MideWrite: assumes every BSY period ends and that DRQ comes when data is due, since the firmware waits without a limit there.
- After a write, ERR is taken to say exactly whether the device dropped the sector.
- Partition table parsing, drive detection and IDENTIFY.
- The keyboard's second ring, which repeats the first; the memory ordering of the 68000 is taken as program order.
- hist_count as a machine integer: it is unbounded here. The screen output of the line editor.
- The W5100's SPI framing and its other register access modes; the receive and transmit blocks of socket 0 are separate memories in Receiver.
- W5100.Chip.SendData: registers and buffers share one address space on the chip; here a transfer long enough to wrap past 64 KB does not reach the registers.
- Receiver.Getter.GetterLoop: the file buffer is taken long enough for any declared size; on the board nothing checks that.
- Saving the received file, which writes tamanho_total bytes from offset 21 on although only tamanho_total - 21 were received there.
- A slave that holds the data line when rtc_init runs; nothing in the firmware clocks it free.
- I2C timing, clock stretching and arbitration; the EEPROM's write cycle, during which it would not answer; a running clock.
- FatFs, shell commands, the ELF loader, timers, and the DUART, VGA and other register drivers.
