# Pantum scanner backend and print filter, verified

A Dafny model of the two programs in this repository that hold nearly all of its branching,
state and arithmetic, with proofs about them.

**The scanner backend** (`src/pantum.c`) is a SANE backend. It locks the device, starts a job and
receives frames over a byte pipe that cuts, delays and fails transfers as it likes. From the data
blocks, which may repeat, skip or overlap rows, it assembles a page and hands it to the frontend in
pieces of any size. It also builds a 128 by 128 blue-noise dither mask by the void-and-cluster
method, and keeps a table of options whose limits change with the source.

**The print filter** (`src/rastertopantum.c`) renders a CUPS raster line by line into packed dots,
compresses each page, and writes a stream of chunks. For manual duplex it spools the pages and
replays them: fronts, a pause, then backs in reverse. `proto/rastertopantum.py` states the same page
as a whole-page computation and `proto/zjs_dump.py` reads the stream back.

## How it is laid out

| files | what they hold |
|---|---|
| `Torus`, `Convolution`, `Greedy`, `VoidCluster`, `DitherTone` | the field of a pattern on a torus; the field as a plain sum over the kernel's entries; greedy picks and the ranking; the mask builder as a class over its arrays; what the mask does to tones |
| `ScanRows`, `ScanPage`, `RowQueue` | one row in its four modes, written in place; the page a run of blocks makes; the queue that grows and compacts |
| `Wire`, `ScanSpec`, `ScanStream`, `ScanStart`, `ScanTail` | the framed byte pipe; the scan, the blocks of its page and its start as functions of the input where transfers succeed, and as conditions on what was read where they do not; that each step leaves a tail of the input |
| `OnTheWire`, `Patience` | the same in bytes, every number written out: a data block, each kind of frame, the answer about the feeder and what the host says; how often a busy device is asked, and how long one that is stopped is listened to |
| `LockLog`, `ScanSession` | the lock discipline of the log; the handle as a class |
| `ScanOptions`, `OptionPanel` | constraints and how values are pulled into them; the option table, the window and the frame |
| `PageModel`, `PageRender`, `PagePrototype` | the page as a whole; the C filter's streaming renderer; the Python form with its own table and screen lookup; both are proved to make the same bitmap |
| `ZjStream`, `PageStream`, `DuplexSpool`, `PrintJob`, `PrintMain` | chunks, their writer and the parser; one page in the stream; the spool; the documents a job may leave behind; the filter's run |
| `StreamPrototype` | the Python form's own way to the stream, chunk by chunk, which is proved to end in the filter's document |
| `Bytes`, `Buffers`, `Arithmetic`, `FiniteSets` | bits and words, filling buffers, and a few facts about products and finite sets |

Where the C code changes things in place the model does too: classes with the same fields, arrays
written in loops, methods proved against a specification. `dafny verify dfyconfig.toml` checks
everything.

What stands outside the model enters in these ways. A bulk transfer delivers some prefix of what was
asked for, times out or fails; `fault` remembers a failure, and only a transfer can raise it. A
glance at a `prompt` device finds what there is; at another it may find nothing. Everything else
that can go wrong is told apart by a property of the thing that goes wrong, fixed before the run: a
file or spool that is not `sound` may fail at any dealing with it and leave a prefix behind, a
raster that is not `intact` may fail at any read, a heap that is not `ample` may refuse any request.
A cancel comes at one moment of the run or never, and the filter's looks at the flag are numbered in
the order they come. The JBIG encoder is any function from a bitmap to bytes, handed out in any
pieces. The tone curve is any table of 256 bytes, the halftone screen any table of 256 thresholds,
and the dither's random generator any list of draws that names enough cells. Kernel weights are
exact natural numbers, symmetric about the kernel's centre.

## What the code does that its comments do not say

- `resume_job` says that a job ending instead of another page means that the feeder is empty. The
  job's end pads the page first, so the caller gets a whole white page
  (`ScanSpec.JobEndBetweenPagesIsWhite`) and the test for an empty queue never succeeds
  (`ScanStart.ResumeNeverRunsOut` gives exactly when missing paper is reported).
- `command` is said to step over four stale frames. It reads at most four frames, so the answer has
  to be among those four (`Wire.CommandAnswered` gives both directions).
- The smallest window is fifteen units except where the far edge lies nearer than that to the start
  of the bed: then it begins at the start and stays narrow (`OptionPanel.EdgesOnBed`).
- `constrain_word` picks the first nearest word of a list except for values so far below zero that
  the difference overflows for some of the words and not for the first; the arithmetic is modelled
  as wrapping (`ScanOptions.ListNearest` gives the exact range, `ScanOptions.OverflowExample` an
  input).
- The prototype cannot say the size of a custom page whose side, in dots, does not fit 32 bits, and
  stops there; the filter says the low 32 bits of it (`StreamPrototype.EmitPage` gives exactly when).
- `render_blank_page` compresses, for a quarter-turned sheet, a bitmap of the size before the turn
  under a header that announces the turned size; the source says so and the model keeps it.

## Model

| member | source | states |
|---|---|---|
| VoidCluster.Dither.Toggle | src/pantum.c:297-320 | Setting or clearing one cell keeps the energy at every cell the sum, over the kernel's entries in order, of those whose origin is set; the first cell set on an empty pattern has the kernel laid round it, entry by entry, and nothing anywhere else |
| Convolution.FieldIsConvolution | src/pantum.c:296-320 | The field of a pattern, on which everything about the mask rests, is at every cell the sum of the kernel's entries each taken if the cell that many columns and rows before is set |
| Convolution.FieldOfOne | src/pantum.c:296-320 | One set cell puts entry p of the kernel on the cell p % (2r+1) - r columns and p / (2r+1) - r rows away, for every p, and nothing on any other |
| VoidCluster.Dither.Extreme | src/pantum.c:327-345 | Answers -1 exactly when no cell has the wanted colour; otherwise the first cell in scan order among those with the most extreme energy |
| Torus.WeightSymmetric | src/pantum.c:296-320 | What cell c puts on cell d is what d puts on c, for every grid side, reach and kernel symmetric about its centre |
| Torus.FieldTranslates | src/pantum.c:296-320 | Moving the whole pattern round the torus moves its field with it |
| Torus.EnergyAdd | src/pantum.c:296-320 | Adding a cell raises the total pairwise energy by twice the field there plus the cell's own weight |
| Greedy.EnergyOfMove | src/pantum.c:403-420 | A move changes the energy by twice the difference of the fields at the two cells once the moved one is lifted out |
| Greedy.MoveLowers | src/pantum.c:403-420 | Each move but the last lowers the pair of total energy and sum of cell numbers, the second only because ties go to the first cell |
| Greedy.PrototypeAtRest | src/pantum.c:403-421 | From every starting pattern the rearrangement stops, with as many cells, on a pattern whose energy no move of the tightest cluster to a clear cell lowers |
| VoidCluster.Dither.Rearrange | src/pantum.c:403-420 | The open-ended loop terminates and leaves that resting pattern, field included |
| VoidCluster.Dither.Seed | src/pantum.c:378-393 | The cells of some first part of the draws are set and no others, exactly `ones` of them, repeats being passed over |
| VoidCluster.Dither.Thin | src/pantum.c:423-433 | Thinning gives the prototype's cells the ranks below `ones`, each the tightest cluster of what was left, and empties the pattern |
| VoidCluster.Dither.Fill | src/pantum.c:441-453 | Filling completes the ranking: a permutation of all cells, whose first ranks are the prototype, each later one the largest void of the cells ranked before it |
| VoidCluster.Dither.Rank | src/pantum.c:421-453 | The rank array is a permutation of 0..CELLS-1; for every m the cells of rank below m are the pattern held at that point of thinning or filling |
| Greedy.RankingUnique | src/pantum.c:421-453 | A prototype has only one ranking with those picks and tie-breaks |
| Greedy.VoidIsComplementCluster | src/pantum.c:435-440 | A cell is the largest void of a pattern if and only if it is the tightest cluster of the complement, ties included |
| Greedy.FillingIsThinningComplement | src/pantum.c:435-440 | Cells are what filling a pattern picks, step for step, if and only if they are what thinning its complement picks |
| Greedy.UpperRanksThinTheComplement | src/pantum.c:435-453 | The ranks above the prototype are the thinning of the prototype's complement |
| VoidCluster.Dither.Build | src/pantum.c:348-469 | The seeded cells are the first so many different ones that the draws name, and the mask's thresholds are the ones the ranking of their prototype calls for |
| VoidCluster.DrawsDecideMask | src/pantum.c:348-469 | Equal draws give equal masks: the seeded cells, the ranking and every threshold are determined |
| DitherTone.BuildMask | src/pantum.c:348-469 | On the 128 by 128 grid, whatever is drawn, the thresholds are all from 1 to 255 and each occurs 64 or 65 times |
| DitherTone.ThresholdHistogram | src/pantum.c:455-459 | Each threshold from 1 to 255 occurs 64 or 65 times in the mask and no other occurs |
| DitherTone.BlackCellCount | src/pantum.c:455-459 | A sample of v is below exactly 16384 - ceil(16384 v / 255) of the mask's thresholds |
| DitherTone.FlatToneExact | src/pantum.c:1340-1355 | In any 128 by 128 window inside the margins whose samples the curve maps to v, over rows that may each have a useful width of their own, exactly that many bits of the packed rows are black: all for 0, none for 255 |
| ScanRows.ConvertRowInto | src/pantum.c:1297-1369 | Every byte of the row in the output buffer is the mode's function of the device row, margins, short rows and trailing bits included; nothing outside the row's bytes changes |
| ScanRows.GrayMeans | src/pantum.c:1297-1369 | A grey row holds the curve's value of each sample on the paper and 255 in the margins and past the row's end |
| ScanRows.ColourMeans | src/pantum.c:1297-1369 | A colour row holds red, green, blue for each pixel where the device sends blue, green, red, and 255 off the paper |
| ScanRows.PackedMeans | src/pantum.c:1297-1369 | Bit i of a packed row is set exactly if sample i is on the paper and its tone is below the threshold, or below the mask's entry in row r % 128 and column i % 128 |
| ScanRows.ModesCommute | src/pantum.c:1297-1369 | Bit i of a Lineart or Halftone row is set exactly when sample i of the Gray row from the same input is below the threshold or mask cell; gap rows and the bits past the last pixel are clear |
| ScanRows.PaddingCommutesWithTone | src/pantum.c:1297-1337 | In every mode a short row, and the same row padded with white by the device, convert alike because the curve keeps 255 |
| RowQueue.Queue.Reserve | src/pantum.c:1257-1287 | Growing by doubling keeps what is queued and makes room |
| RowQueue.Queue.Compact | src/pantum.c:1257-1270 | Moving the unread part to the front keeps what is queued, in order |
| RowQueue.Queue.Take | src/pantum.c:2400-2408 | Takes the first bytes of the queue, as many as asked for or as there are, and leaves the rest |
| ScanPage.PageRows | src/pantum.c:1467-1494 | Row r of the page is the conversion of the first block, in order of arrival, that reaches below it, or white if that block skipped it; later repeats change nothing |
| ScanPage.ClosedPageComplete | src/pantum.c:1557-1577 | A page closed by the end of the page or the job has exactly its number of lines |
| ScanSession.Handle.EmitWhiteRows | src/pantum.c:1372-1387 | Gap rows are queued white up to the row asked for, and never past the page |
| ScanSession.Handle.TakeRows | src/pantum.c:1467-1494 | One block's rows extend the page as its specification says, whatever its first row and count |
| ScanSession.Handle.HandleDataBlock | src/pantum.c:1390-1495 | A data frame adds to the page one block, or rejects it and adds nothing. Whatever transfers fail, the block's sub-header and pixels are bytes the device sent during the call, in the order sent, some lost perhaps but none invented; what is queued is what the page grows by; where transfers succeed the result is the specification's, which `OnTheWire.BlockTaken` and `BlockRefused` give in bytes |
| OnTheWire.BlockTaken | src/pantum.c:1390-1495 | For all words and rows: a sub-header [kind, first, rows, planes, pixels, any] followed by that many rows of equal length is taken if the planes are the job's; the page is extended by exactly those rows, in order, from `first` on, as wide as the lesser of `pixels` and what a row holds |
| OnTheWire.BlockRefused | src/pantum.c:1410-1465 | JPEG, no rows, the wrong planes or rows too short for them: the block adds nothing, its body is stepped over, and JPEG alone is reported as unsupported |
| OnTheWire.RuntRefused | src/pantum.c:1399-1403 | A data frame too short for a sub-header is stepped over and reported |
| ScanSession.Handle.PumpFrame | src/pantum.c:1522-1587 | One frame, of any kind: delivered bytes and queue together stay the page's rows; where transfers succeed the new state is the specification's |
| OnTheWire.FrameMeans | src/pantum.c:1522-1587 | Frame kind 5 is a block; 4 gives the device back and carries the refusal's status; 12 ends the page in white and the job; 14 ends the page of a fed job and no other; every other kind is passed over, payload and all |
| ScanSpec.ReadToEndIsWholePage | src/pantum.c:2355-2409 | For any input: what is delivered is the final page's rows in order, and a read that ends without error has delivered all of them |
| ScanStream.FinalPageOfStream | src/pantum.c:1390-1587 | The final page is made of the blocks it had and the blocks that the rest of the stream brings, frame by frame and in order: one for each data frame that is accepted, and the end of the page |
| ScanStream.DeliveredRows | src/pantum.c:1467-1494 | So each row the reader gets is the conversion of the first block of the stream that reaches it, or white where that block starts below it |
| ScanStart.StartThenReadWholePage | src/pantum.c:2264-2409 | A start that succeeds, after any refused attempts or as the next page of a fed job, begins a page at the point `StartsAt` of the device's stream, which is a tail of what was still to come: behind the start command of the last attempt, so nothing of a refused one is in the page. Read to its end it delivers, to the byte, the page of the blocks the stream brings from there on, those taken while the start was waiting included |
| ScanStart.BeganTail | src/pantum.c:2334-2352 | However many attempts are refused, the page that is begun at last starts at a tail of what the first of them found coming |
| Patience.RefusalCostsOne | src/pantum.c:2334-2352 | A device that grants the lock, answers 8, 6, 7 and 2 and then refuses the job with status 0 or 2 costs a start one of its tries, whatever comes after, and the next is made from there |
| Patience.FourTries | src/pantum.c:2334-2352 | So if that happens at most three times the start goes on to what comes after, and the fourth time it reports a busy device and asks no more |
| ScanStart.ResumeNeverRunsOut | src/pantum.c:1795-1815 | A resumed job reports missing paper exactly if the device refused the page outright; the test for an empty queue never succeeds |
| ScanStart.PatchedWord | src/pantum.c:1681-1726 | The settings block goes back as the device returned it but for the words of the job |
| OnTheWire.StartOnTheWire | src/pantum.c:1681-1726 | Byte for byte what starts a job: frame 15 if it needs the feeder, then 8, 6, 7 with the device's own block but for the job's words, and 2 |
| Patience.LockPatience | src/pantum.c:1592-1621 | A device that is busy some number of times and then gives the lock away is locked if and only if it was busy fewer than five times; at the fifth the host unlocks and gives up |
| OnTheWire.FeederMeans | src/pantum.c:1630-1655 | The answer counts only if it is a frame 15; a feeder is there if its status is 0, and has paper if its argument is 1 as well |
| OnTheWire.AskedOnTheWire | src/pantum.c:1592-1610 | A lock attempt sends as many frames 0, without payload, as it asks times |
| OnTheWire.StopOnTheWire | src/pantum.c:1820-1845 | Stopping a scan sends frame 3 and then frame 1 |
| ScanSpec.WholePageSize | src/pantum.c:2355-2409 | A page read to its end is lines times bytes per line, to the byte |
| ScanSpec.JobEndBetweenPagesIsWhite | src/pantum.c:1557-1564 | A job that ends where a page would begin leaves a whole white page in the queue |
| Wire.Pipe.UsbRead | src/pantum.c:534-565 | Reads exactly the bytes asked for off the front of the stream however transfers are split, or reports an error; after a failed transfer what is read is still a subsequence of the bytes that left the stream meanwhile |
| Wire.Pipe.UsbWrite | src/pantum.c:497-530 | Sends the bytes in order however transfers are split, or reports an error |
| Wire.Pipe.RecvFrame | src/pantum.c:611-670 | Takes one header off the stream, rejects a bad magic or an oversized length, and a probe of an idle device consumes nothing; a header accepted after a failed transfer is made of bytes the device sent, in order |
| Wire.HeaderRead | src/pantum.c:641-668 | Of the eight words of a header the second is the kind, the third the argument, the fifth the status and the sixth the length; the others are ignored, a wrong first word or a length over 64 MiB is an error |
| Wire.StatusMeans | src/pantum.c:473-492 | The device's status codes 0, 2, 5, 6, 7 and 8 mean good, busy, no paper, jammed, jammed and cover open, and every other an I/O error |
| Wire.Pipe.DrainPayload | src/pantum.c:674-687 | Takes exactly the announced bytes off the stream |
| Wire.Pipe.Command | src/pantum.c:703-760 | The command sent is logged, and where transfers succeed the answer and the rest of the stream are the specification's |
| Wire.CommandAnswered | src/pantum.c:703-760 | Stale acknowledgements are stepped over: a command is answered if and only if an answer is among the first four frames and the first such answer has the wanted length, if one is wanted; then its status is that frame's |
| Wire.CommandStaysFramed | src/pantum.c:703-760 | A command takes a whole number of frames, at most four, on every branch, wrong reply lengths included |
| Wire.SentFrameWhole | src/pantum.c:588-604 | A frame the host sends is eight words, the magic, its command and its length among them and the rest zero, and its payload; read back it is the same frame and ends where its length says |
| ScanSpec.DataStaysFramed | src/pantum.c:1390-1465 | A data frame's payload is used up to the byte on every branch: JPEG, malformed, wrong planes, too short |
| ScanSpec.PumpStaysFramed | src/pantum.c:1522-1587 | A pump takes one whole frame, and the unlock's answer where the frame ends a job under lock, so the stream stays on a frame boundary |
| ScanSpec.ReadsDeliverOutcome | src/pantum.c:2355-2409 | Whatever lengths are asked for and however often the device is idle, the reads deliver the outcome of the device's stream and nothing else |
| ScanSpec.ReadingModesAgree | src/pantum.c:2355-2409 | Two ways of reading the same stream, blocking or not, give the same bytes and the same final status |
| ScanSession.Handle.SaneRead | src/pantum.c:2355-2409 | Each read hands over the next bytes of the page, as many as asked for or as there are; a read without an error keeps the page clean whatever became of the transfers, and at the end of a clean page all of it has been handed over; where transfers succeed the read is one step along the stream's outcome. After a cancel it tells the device to stop and gives it back, whatever fails, empties the queue, ends the page and reports the cancel |
| ScanSession.Handle.CancelAndRead | src/pantum.c:2264-2424 | Start, cancel, read: whatever the start came to and whatever fails, the read reports the cancel, nothing is left to hand over, and as many unlocks have been sent as lock attempts |
| ScanSession.Handle.ReadAll | src/pantum.c:2355-2441 | Any sequence of lengths and of blocking and non-blocking reads delivers that outcome; whichever transfers fail, the bytes are the next ones of the page until an error is reported |
| ScanSession.Handle.ScanPage | src/pantum.c:2264-2441 | Started and then read to its end, with any lengths and modes and whichever transfers fail, a page for which no error is reported is exactly lines times bytes per line, each row the conversion of the first block that reached it, or white; and the blocks were read one behind the other from the bytes the device sent during the call, in that order, whatever was lost |
| ScanSession.Handle.UnlockDevice | src/pantum.c:766-782 | Sends one unlock exactly when one is owed, and afterwards none is, whatever fails |
| ScanSession.Handle.LockDevice | src/pantum.c:1592-1621 | A lock attempt asks one to five times, leaves the unlock owed exactly when it reports success, and otherwise sends it at once; where transfers succeed the result is the specification's |
| ScanSession.Handle.SetupJob | src/pantum.c:1681-1726 | What the device is told, in order: the defaults, the question for the settings, the settings as returned but for the job's words, the start; or a first part of that up to the command that failed |
| ScanSession.Handle.RunJob | src/pantum.c:1749-1789 | All the device is told in an attempt is one to five lock requests, a first part of the job's steps, all of them if the job started, and the unlock unless it is still locked, which it is exactly if it is scanning; the page begins, empty, where the stream stands when the attempt does, so whatever fails its blocks hold nothing of an earlier attempt |
| ScanSession.Handle.ResumeJob | src/pantum.c:1795-1815 | The next page of a feeder job starts empty and under the lock already held: nothing is sent but the unlock, if the job ends there; success means that rows are queued |
| ScanSession.Handle.EndScan | src/pantum.c:1820-1845 | Whatever state a scan is in, afterwards nothing is scanning, feeding or owed |
| Patience.EndSwallows | src/pantum.c:1820-1845 | Of a running scan exactly the frames up to the end of the job or a refusal are swallowed, at most 4096 of them, and then the answer to the unlock |
| ScanSession.Handle.ProbeAdf | src/pantum.c:1658-1678 | One attempt at the lock with one request, one question if it is granted, and always the unlock; where transfers succeed a feeder is advertised exactly if the stream answers the request and then says that there is one |
| ScanSession.Handle.FlushInput | src/pantum.c:570-584 | What a prompt device still has is read away, up to 4096 transfers of it |
| ScanSession.Handle.SaneStart | src/pantum.c:2264-2352 | At return locked equals scanning and feeding implies scanning, a cancel is forgotten and the lock has been tried for at most four times; success means a clean new page, of the running feeder job or of the new one; where transfers succeed the status and the state are those that the stream calls for, every retry included |
| ScanSession.Session | src/pantum.c:1592-2441 | For every sequence of calls, device behaviour and failure the log keeps the lock discipline at every point, after close every lock attempt has had its unlock, and unless a transfer failed the bytes sent are the log's |
| LockLog.AttemptsArePaid | src/pantum.c:1592-1621 | In a disciplined log, where the start of every attempt is marked and no attempt asks more than five times, attempts and unlocks are level or exactly one attempt is still owed its unlock |
| LockLog.OneUnlockEach | src/pantum.c:1592-1621 | From one attempt up to a later one there are as many unlocks as attempts, so exactly one between two neighbours |
| LockLog.SentUnderLock | src/pantum.c:1681-1726 | Whatever is sent other than a lock request, the start command among it, has a lock request before it and no unlock in between |
| ScanOptions.ListNearest | src/pantum.c:2134-2148 | The list search returns the first nearest word if and only if no difference overflows or all do |
| ScanOptions.InRangeAllowed | src/pantum.c:2121-2133 | A value pulled into a range is clamped to the nearest value between the ends, and then goes to the one step within half a step of that, upwards from the middle, if the step lies in the range; it lies in the range, on a step or at its end |
| ScanOptions.ConstrainedAllowed | src/pantum.c:2116-2153 | A constrained value satisfies its constraint, and constraining it again leaves it alone |
| ScanOptions.PickWord | src/pantum.c:2134-2148 | The search loop computes that choice |
| OptionPanel.Panel.UpdateState | src/pantum.c:2087-2112 | A change of mode or source puts the new entries in the table and pulls values back into them, and touches no others |
| OptionPanel.Panel.ControlOption | src/pantum.c:2156-2244 | The call's new values, status, buffer and flags are the specification's, and the table stays right for the mode and source |
| OptionPanel.Frontend | src/pantum.c:2156-2244 | After any sequence of calls every value satisfies its own table entry, and the threshold is active if and only if the mode is line art |
| OptionPanel.TextKeepsProper | src/pantum.c:2087-2112 | Whatever source or mode is chosen, pulling three values back is enough to make every option proper again |
| OptionPanel.SetStores | src/pantum.c:2188-2244 | What a successful set stores: the word as handed back, inexact exactly if changed; the list's own spelling of a string; a truth value as zero or one |
| OptionPanel.SetSucceeds | src/pantum.c:2156-2244 | A set succeeds if and only if no scan runs, there is a value, the option holds one of its own, line art is chosen if it is the threshold, and a text is one of its strings, however spelled |
| OptionPanel.GetSucceeds | src/pantum.c:2156-2187 | A get succeeds exactly for an option that is not a heading, the threshold only in line art; it hands over the value held and changes nothing |
| OptionPanel.ToldToReload | src/pantum.c:2205-2235 | Where a set leaves the frame different the frontend is told to read the parameters again, and where it leaves the table different, the options |
| OptionPanel.ThresholdStored | src/pantum.c:2116-2133 | The threshold is kept in whole percents from 0 to 100, the nearest to what is asked for |
| OptionPanel.CornerStored | src/pantum.c:2116-2133 | A corner is kept as asked for within the bed of the source, and otherwise at the bed's nearer end |
| OptionPanel.ResolutionStored | src/pantum.c:2134-2148 | What is stored is a resolution of the source's list, and the first nearest one if and only if the value asked for is not so far below zero that some of the differences overflow and not all |
| OptionPanel.SpelledAlike | src/pantum.c:2195-2199 | Strings are matched letter by letter, whatever the case |
| OptionPanel.SetThenGet | src/pantum.c:2156-2244 | A successful set can be read back |
| OptionPanel.SetWhatYouGot | src/pantum.c:2156-2244 | Setting an option to what it holds changes nothing and is not inexact |
| OptionPanel.OthersUntouched | src/pantum.c:2156-2244 | A call changes no other option, except that a new source may lower the vertical corners and the resolution |
| OptionPanel.EdgesOnBed | src/pantum.c:1169-1207 | The window lies on the bed whichever way round its corners are given, its far edge at the far corner or the end of the bed, its near edge at the near corner or the least before that for fifteen units; it is wide enough if and only if its far edge is |
| OptionPanel.WindowMeasures | src/pantum.c:1169-1207 | A window with its corners in order and far enough apart is what they say; the widest setting gives 850 by 1169 hundredths of an inch, or by 1400 with the feeder |
| OptionPanel.NearestUnit | src/pantum.c:1169-1180 | Fixed-point millimetres go to the nearest hundredth of an inch |
| OptionPanel.FrameMeasures | src/pantum.c:1212-1252 | The frame has as many pixels and lines as fit into the window at the resolution set, or at 75 for a preview, in the format of the mode and with its bytes per line |
| OptionPanel.FreshFrame | src/pantum.c:1212-1252 | A handle just opened scans the whole flatbed in grey at 300 dots to the inch: 2550 pixels by 3507 lines |
| OptionPanel.FrameUsable | src/pantum.c:1212-1252 | Every setting a frontend can arrive at gives a frame a job can run with, its lines as long as the job's rows |
| PageModel.FindPaper | src/rastertopantum.c:174-183 | The search finds a paper if and only if the table has one of that size, and then the first |
| PageModel.PageLayout | src/rastertopantum.c:470-501 | The layout computed with that search, A5 sideways included, is the geometry of which `GeometryFits` speaks |
| PageModel.GeometryFits | src/rastertopantum.c:470-501 | Every accepted header has a geometry of whole bytes within the limits, custom and sideways sheets included |
| PageRender.HalftoneRow | src/rastertopantum.c:508-540 | The accumulator and shift leave in the bitmap row exactly the packed dot codes of the grey row, and nothing else changes |
| PageRender.RenderPage | src/rastertopantum.c:681-793 | For every raster, depth, NegativePrint, ImageRotation and the quarter turn, the streaming renderer makes the whole-page bitmap and stores every byte of it exactly once; short of a failed read or allocation it fails exactly for a raster with too few lines, and it leaves the raster at the next header |
| PageModel.DotMeans | src/rastertopantum.c:508-540 | The dot at row y and column x, read back from the packed page, is at one bit set exactly if the grey there is below entry x % 16 of the screen's row y % 16, and at two bits the level that grey and threshold call for; under NegativePrint the opposite |
| PageRender.RenderLines | src/rastertopantum.c:716-759 | Every line of the raster is in its own row of the bitmap, each byte of which has been stored once, or in its own row of the grey page before a quarter turn; a page to be turned leaves the bitmap alone; without a failed read it fails exactly for a raster with too few lines |
| PagePrototype.PageGeometry | proto/rastertopantum.py:190-205 | With its own paper table and free rounding the Python form's geometry is the C filter's if and only if the size is known or neither rounding leaves 32 bits |
| PagePrototype.SearchTable | proto/rastertopantum.py:190-195 | A search of the prototype's own table of 23 papers finds what the filter's search finds |
| PagePrototype.PrototypePage | proto/rastertopantum.py:190-270 | With its own geometry the Python form makes the C filter's bitmap for every header the filter accepts |
| PagePrototype.GrayPage | proto/rastertopantum.py:208-238 | The Python form's rows, turned and padded, are the same grey page |
| PagePrototype.Halftone | proto/rastertopantum.py:241-270 | The Python form makes the same bitmap as the C filter |
| PagePrototype.TableCodeAgrees | proto/rastertopantum.py:255-264 | Python's lookup of a dot code agrees with the C filter's comparison at both depths and signs |
| PageModel.PackedCodeRecovered | src/rastertopantum.c:508-540 | Unpacking a page from its most significant bits gives back every pixel's dot code, at depth 1 and 2 |
| PageModel.NegativeIsComplement | src/rastertopantum.c:508-540 | A NegativePrint page is the complement of the positive one, byte for byte, padding included |
| PageModel.WhiteRow | src/rastertopantum.c:795-799 | White paper packs to all zero bytes, and to all ones under NegativePrint |
| ZjStream.WriteChunk | src/rastertopantum.c:328-358 | Writes the header, items and raw bytes of a chunk in order; it reports a failure only where the file may fail |
| ZjStream.Parse | proto/zjs_dump.py:81-113 | The parsing loop computes the entries of any document at all, well formed or not |
| ZjStream.MistakenForUel | proto/zjs_dump.py:91-95 | A chunk begins like the closing escape if and only if its size, type and item count have three particular values |
| ZjStream.NeverMistaken | proto/zjs_dump.py:91-95 | No chunk whose size fits its field does |
| ZjStream.DocumentRoundTrip | proto/zjs_dump.py:81-113 | Parsing any written document returns exactly its chunks, items and raw bytes, in order and at their positions, between the escapes |
| ZjStream.DocumentDeterminesChunks | proto/zjs_dump.py:81-113 | Two documents with the same bytes have the same chunks |
| ZjStream.CutShort | proto/zjs_dump.py:97-112 | A file that ends inside a chunk: in its header the rest is reported as trailing, among its items the reader fails, among its raw bytes the chunk is reported with as many as there are |
| PageStream.Buffer.Append | src/rastertopantum.c:277-299 | Appending keeps what was there and adds the bytes, whatever growing takes; a failed grow poisons the buffer and adds nothing |
| PageStream.PageOnTheWire | src/rastertopantum.c:635-650 | The BIH chunk holds the entity's first 20 bytes and the BID chunks, none empty and none over 65536 bytes, hold the rest in order |
| PageStream.EmitPage | src/rastertopantum.c:577-651 | Writes the chunks of a page in order: start with its items, header, blocks, ends |
| PageStream.FinishPage | src/rastertopantum.c:658-677 | A page is written whole, or its compression failed and not a byte of it was written, or a write failed; with memory and a sound file it is written exactly if the encoder made a header |
| DuplexSpool.Spool.Mark | src/rastertopantum.c:869-889 | Records the page just written behind the others, across growth of the table |
| DuplexSpool.Spool.Copy | src/rastertopantum.c:892-909 | Copies a spooled page byte for byte, in pieces of at most 64 KiB |
| PrintMain.PrintBlank | src/rastertopantum.c:800-825 | The back of an odd last sheet is a page whose entity is what the encoder makes of the blank bitmap, in the size before any quarter turn; `PrintJob.BlankIsClear` says that no bit of it is set |
| PrintJob.BlankIsClear | src/rastertopantum.c:800-825 | The blank sheet is what the encoder makes of a bitmap of the size before any turn, every byte of which is 0, whatever the options |
| PrintJob.BlankIsWhitePage | src/rastertopantum.c:795-825 | On a sheet without the quarter turn that bitmap is the one of a white page not printed negative; printed negative a white page has every byte 255, so it would come out black |
| PrintMain.TakePage | src/rastertopantum.c:1039-1086 | A page goes whole to the output, or to the fronts if its number is odd and the backs if it is even; a page that fails leaves the output as it was |
| PrintMain.ReadPages | src/rastertopantum.c:1012-1087 | The page loop, for every raster, rejected header, short read and cancel: what the output and the spools hold when it ends, that no page is begun once the job is cancelled, and what its status means |
| PrintMain.ReplaySpools | src/rastertopantum.c:1095-1134 | A replay sends fronts, pause, the blank back if the job is odd, and backs in reverse; with sound files and memory it succeeds if and only if the blank can be made; with sound files alone the output is what was to be sent up to a blank that cannot be made |
| PrintMain.Filter | src/rastertopantum.c:914-1161 | If output and spools are sound then whatever header is rejected, read falls short, memory runs out or cancel comes, the output is one whole document of the pages taken, or nothing, with an error status, if the raster could not be opened. Success without a cancel means that everything is printed, whatever may fail; where nothing may fail it is exactly the printable jobs that succeed. A duplex job cancelled at any moment before its replay prints no page, and no page is taken after a cancel |
| StreamPrototype.PackChunk | proto/rastertopantum.py:146-151 | The prototype packs a chunk if and only if every number in it fits its field, and then into the filter's bytes |
| StreamPrototype.EmitPage | proto/rastertopantum.py:292-336 | The prototype's page, its custom items put in afterwards, is the filter's chunks byte for byte, or fails exactly if the page's size does not fit |
| StreamPrototype.Prototype | proto/rastertopantum.py:339-369 | Over a whole raster of complete pages the prototype writes the very document that the filter writes, or fails exactly if the size of a page cannot be said |
| StreamPrototype.ParametersAgree | proto/rastertopantum.py:139-143 | The toner parameters are the same 72 bytes in both forms |
| PrintJob.DocumentWellFormed | src/rastertopantum.c:988-1142 | Each such document reads back as parameters (17), document start (0), complete pages (2, 4, 5, ..., 6, 3) with at most one pause (11) between them, document end (1) |
| PrintJob.SheetsPaired | src/rastertopantum.c:1095-1134 | If the second pass feeds the sheets in reverse, sheet k carries pages 2k-1 and 2k, or a blank back if there is no such page |

## Left out

- Rounding of the energy field: the source keeps it in floats; the weights here are exact integers.
- The gaussian's values: any symmetric kernel of natural numbers is allowed.
- The random generator and its rejection loop's termination: the draws are an input.
- Keeping the mask between scans (`dither_ready`): the builder is modelled as run once.
- `&` with a mask of ones is written as a remainder, and joining disjoint bits as a sum.
- Memory that cannot be had in the scanner backend; in the print filter every allocation may fail. After a failed growth `out_reserve` has already raised the capacity field.
- The tone curve's shape: the model takes any table, and needs only that 255 stays 255 where it says so.
- ScanSession.Handle.SaneStart: the job is a parameter; `OptionPanel.FrameUsable` shows that the options always give a usable one, but the margins in millimetres and the curve are not computed from them.
- ScanSession.Handle.SaneRead: the cancel flag is looked at when a call begins; a cancel raised in the middle of a call counts for the next one.
- Wire.Pipe.UsbRead: time does not pass, so a timeout may come or not come at any transfer.
- ScanSession.Handle.ResumeJob: frame boundaries are claimed from the end of the flush at open on, since the flush may cut a frame in two; and only while no transfer has failed, since some drain results are deliberately ignored.
- The settings block is patched from a map given with the job; the read-only echo that is only logged is not modelled.
- Several handles at once, device lists, the configuration file, `sane_get_parameters` while a page is being read, and the strings for statuses.
- ScanOptions.ListNearest: signed overflow is undefined in C; the model lets it wrap.
- OptionPanel.EdgesOnBed: millimetres are turned into hundredths of an inch in exact arithmetic, not in doubles.
- PageRender.RenderPage: the halftone screen is any table of 256 thresholds, not the one in the source.
- The print filter's option and PPD parsing, its messages and page accounting lines, and the signal handler itself.
- JBIG: an encoder is any function of the bitmap and its size, the same in both forms.
- StreamPrototype.Prototype: reading the raster and the command line is left out; the pages are given, complete and accepted, and the prototype has no manual duplex.
- ScanSession.Handle.FlushInput: of a device that is not prompt nothing is promised, since a transfer may end empty before the rest comes.
- PrintMain.Filter: what is in the output after a failed write is not described, beyond the status.
- The other Python tools, the scripts and the tests: device input and output, reports and fixtures.
- Loops whose body is long are split into one method for the loop and one for a turn of it.
