# TuxBooks: verified models of the main process and its binary writers

TuxBooks is a desktop e-book reader: an Electron main process, a sidecar
process that owns the library, and scripts that write the binary documents the
reader is exercised with. This project models the parts whose correctness
depends on several pieces of code agreeing with each other, and proves that
they do. `dafny verify dfyconfig.toml` checks everything.

* **Document writers with cross-references.** The PDF writer numbers every
  object before it writes one, then appends bodies and a table of byte
  offsets. The ZIP writer repeats each entry in a local record and in a central
  directory, with a table-driven CRC-32. The NCX writer nests navigation points
  with a running counter. Each is paired with a strict reader: those of ZIP and
  PDF know the format and not the writer, that of NCX knows the writer's fixed
  lines as well. The main theorems say exactly when reading undoes writing:
  `PdfWriter.WriterRoundTrip`, `Zip.ZipRoundTrip` and `Ncx.NcxRoundTrip` are
  equivalences over all inputs.
* **The sidecar channel.** `LineBuffer` frames newline-terminated lines
  incrementally under a cap; it agrees with "split the whole stream, keep the
  short lines" however the stream is cut. `Sidecar` is a transition system
  over calls, output, timers, write errors, exits, restarts and stop; its
  invariants hold in every reachable state, and the class whose methods change
  the fields takes exactly the steps of that system and keeps the same
  invariants as its own.
* **Files: walks, the storage report, clearing and resetting.** `directoryBytes`
  is an explicit-stack walk with a cap. On top of it stand the storage report,
  the cache clear and the data reset, over a finite file tree with links,
  removal and renaming: which bytes are counted, which are not, what is left
  alone, and that the catalog database survives.
* **Ranges, GPU fallback, command line.** Ranged serving of books, the
  crash marker that makes a later launch use software rendering, and the
  order-independent scan of the command line.

## How it is organised

| file | contents |
|---|---|
| Text.dfy | decimals, padding, scanning, white space: shared by printers and readers |
| Crc32.dfy, Zip.dfy | the checksum and the ZIP writer with its reader |
| PdfSyntax.dfy, PdfFile.dfy, PdfOutline.dfy, Pdf.dfy, PdfReader.dfy, PdfDrawing.dfy, PdfWriter.dfy | values and strings; file, offsets and table; outline; the bodies; the reader and the round trip; what a drawn page shows; what the writer accepts |
| Ncx.dfy | the navigation map and its reader |
| LineBuffer.dfy, SidecarSpec.dfy, SidecarProofs.dfy, SidecarCalls.dfy, SidecarRestart.dfy, Sidecar.dfy | framing; the transition system; what its runs keep; what every event does to every call; when an answer is heard: after a restart, and behind another line; the class |
| Sums.dfy, Paths.dfy, Walk.dfy | sums over sets of paths; containment; the walk |
| Volume.dfy, VolumeLaws.dfy | the file tree, and what removing and renaming keep |
| Storage.dfy, Reset.dfy, ResetProofs.dfy, ResetSafety.dfy, ResetExact.dfy, CacheClear.dfy, ResetRemoved.dfy, ResetReport.dfy, StorageCases.dfy | the report; the reset; its byte ledger; its frame and the database; completeness; the cache clear on its own; the paths it reports; when its report is exact; small disks where report and reset are off |
| GpuFallback.dfy, RangeServing.dfy, Cli.dfy | the three remaining components |

Loops and in-place updates of the program are methods and classes proved
against functions; the laws are lemmas about those functions.

## Where the program differs from what is said about it

* `stop()` is described as ending the service for good, but it does not cancel
  a restart timer that is already running, and a start clears the stopped flag.
  `SidecarProofs.StopIsFinalExactlyWithoutRestartTimer` says when it is final;
  `SidecarProofs.StopIsUndoneAfterACrash` is a run from the beginning in which
  it is not.
* The line buffer is not emptied between two child processes.
  `Transport.FramingStartsAfresh` says that a new process is framed as if it
  stood alone if and only if the old one left no unfinished line,
  `SidecarRestart.CheckIsHeardExactlyAfterACleanEnd` that the answer to the
  restart's health check is heard if and only if nothing but white space was
  left and fits into the cap with the answer, and
  `SidecarRestart.AnswerIsLostToAPartialLine` is a run in which a process that
  answers at once is timed out.
* A line of output that is the JSON text `null` makes the line handler throw,
  outside the block that catches parse errors, and the lines behind it in the
  same chunk are lost. So output does depend on how it is cut:
  `SidecarRestart.ChunksMayBeJoinedExactlyWhen` has the condition,
  `SidecarProofs.ChunkAnswersExactly` says which calls a chunk answers, and
  `SidecarRestart.AnswerBehindNullIsHeardOnlyApart` has the chunks.
* A carriage return in a PDF title, subject or outline title is read back as a
  line feed (section 7.3.4.2 of ISO 32000-1), because only backslash and
  parentheses are escaped; two images of one name on a page give their
  dictionary the same key twice, which section 7.3.7 forbids.
  `PdfReader.DocumentRoundTrip` has the condition, `PdfDrawing.CaptionIsDrawn` that
  for a drawn caption.
* The rectangle and the lines of text on a default page are said to make it
  visibly non-blank at any size, but they hang from the upper edge at fixed
  distances: on a page no higher than 48 all of them lie below it.
  `PdfDrawing.PagesHighEnough` says which heights show what.
* The NCX writer escapes nothing. Its text is read back if and only if every
  character is an XML character (section 2.2 of XML 1.0), none is an ampersand, a
  less-than sign or a carriage return, no label or title holds `]]>` (section
  2.4), and no attribute a quote, a line feed or a tab: `Ncx.NcxRoundTrip`.
* The cover directory and the browser caches may be links. The report then
  counts the linked directory, which the root's walk does not reach; so does the
  reset when the link stays inside its root, although only the link goes.
  `Storage.ConfigEntriesAddUp`, `Storage.DataEntriesFit` and
  `ResetProofs.RemovalReportIsExactlyWhen` have the conditions, and
  `StorageCases.LinkedCacheExceedsRoot`, `StorageCases.LinkedCoversExceedRoot` and
  `StorageCases.InwardLinkIsCountedTwice` the inputs.
* A rename into the quarantine can replace a file that already has the log's
  new name; those bytes go uncounted. `ResetReport.ReportIsDropExactlyWhen` tells
  from the disk before the call when that happens, and
  `StorageCases.TakenLogNameIsMissed` is such a disk.

## Model

| member | source | states |
|---|---|---|
| Crc32.BuildTable | e2e/specs/epub-content-security.e2e.ts:21-29 | the 256-entry array holds, at each index, the register left by eight bitwise steps of the polynomial 0xEDB88320 on that index |
| Crc32.ShiftLinear | e2e/specs/epub-content-security.e2e.ts:25 | any number of shift-and-xor steps is linear over xor, the fact the table rests on |
| Crc32.TableStep | e2e/specs/epub-content-security.e2e.ts:33 | one table lookup and shift has the effect of clocking the eight bits of the byte in one at a time |
| Crc32.ComputeCrc | e2e/specs/epub-content-security.e2e.ts:31-35 | with the table, the loop computes the bit-serial CRC-32 of every byte string (section 8 of RFC 1952) |
| Crc32.CheckValue | e2e/specs/epub-content-security.e2e.ts:21-35 | the nine digits "123456789" have the checksum 0xCBF43926 |
| Crc32.SingleByteDamageDetected | e2e/specs/epub-content-security.e2e.ts:31-35 | changing any one byte of any data changes the checksum |
| Zip.Le16Back | e2e/specs/epub-content-security.e2e.ts:37-39 | the two bytes written for a number read back as the number modulo 65536 |
| Zip.Le32Back | e2e/specs/epub-content-security.e2e.ts:41-48 | the four bytes written for a number read back as the number modulo 2 to the 32 |
| Zip.BuildZip | e2e/specs/epub-content-security.e2e.ts:51-110 | the loop with its running offset produces local records, then the directory with the true offsets, then the end record |
| Zip.LocalReadsBack | e2e/specs/epub-content-security.e2e.ts:59-73 | wherever a local record stands, reading at its position gives name, data, checksum and sizes back |
| Zip.CentralReadsBack | e2e/specs/epub-content-security.e2e.ts:74-93 | a directory record reads back with the checksum, both sizes, the name's length and the offset it was written for |
| Zip.RecordsBegin | e2e/specs/epub-content-security.e2e.ts:60-100 | the three kinds of record begin with the bytes "PK" and 3 4, 1 2, or 5 6 |
| Zip.DirectoryReadsBack | e2e/specs/epub-content-security.e2e.ts:94-98 | walking the directory and following each stored offset recovers every entry in order |
| Zip.EndReadsBack | e2e/specs/epub-content-security.e2e.ts:98-109 | the end record, found from the end of the file, tells where the directory stands and how many entries it has |
| Zip.ZipRoundTrip | e2e/specs/epub-content-security.e2e.ts:51-110 | a reader that starts at the end record recovers exactly the entries if and only if counts, lengths and offsets fit their 16 and 32-bit fields |
| PdfSyntax.ThreePassesEscapeEach | scripts/make-fixture.py:222-224 | the three successive replacements escape each backslash and parenthesis exactly once, also for text that already contains escapes |
| PdfSyntax.ReadEscaped | scripts/make-fixture.py:222-224 | a literal-string reader recovers any text without carriage return, and stops at the closing parenthesis |
| PdfSyntax.ReadValueBack | scripts/make-fixture.py:259-333 | every dictionary, array, name, number, reference and string the writer prints is read back, whatever delimiter follows |
| PdfFile.AppendObject | scripts/make-fixture.py:350-357 | appends exactly one numbered object, plain or with a stream |
| PdfFile.WriteFile | scripts/make-fixture.py:346-367 | fails exactly when a body is not ASCII, otherwise writes header, objects, table and trailer with the offsets it recorded |
| PdfFile.WriteTable | scripts/make-fixture.py:359-362 | the table has the free row and one row per recorded offset, in order |
| PdfFile.ObjectStartsAtOffset | scripts/make-fixture.py:348-350 | the recorded offset of object n is the position where "n 0 obj" and its body begin |
| PdfFile.OffsetsIncrease | scripts/make-fixture.py:347-349 | offsets strictly increase |
| PdfFile.RowsAreTwentyBytes | scripts/make-fixture.py:361-362 | while offsets have at most ten digits, every row is twenty bytes |
| PdfFile.RowPosition | scripts/make-fixture.py:360-362 | the row of object n is found by arithmetic, twenty bytes per object from the first row |
| PdfFile.StartxrefBack | scripts/make-fixture.py:363-366 | the number after startxref is recovered from the end of the file |
| PdfFile.TableReadsBack | scripts/make-fixture.py:359-367 | a reader starting at startxref recovers offsets and trailer if and only if every offset is below ten to the tenth |
| PdfFile.EveryObjectIsFound | scripts/make-fixture.py:348-362 | seeking to the recorded offset of n yields object n's body |
| PdfOutline.Allocate | scripts/make-fixture.py:186-197 | numbers one entry and its subtree consecutively in pre-order |
| PdfOutline.AllocateOutlineTree | scripts/make-fixture.py:174-200 | plans the whole forest under the root number and reports the next free number |
| PdfOutline.Emit | scripts/make-fixture.py:337-344 | appends the item dictionaries of a list of nodes, each before its children |
| PdfOutline.OneBodyPerEntry | scripts/make-fixture.py:256-257 | emission writes one body per planned number, and the count is the number of descendants |
| PdfOutline.ItemGet | scripts/make-fixture.py:259-274 | what each key of an item dictionary looks up to: title, parent, neighbours, first and last child, count, destination, and nothing else |
| PdfOutline.ReadChainBack | scripts/make-fixture.py:324-344 | walking First, Next, Prev, Parent, Last and Count from any planned number recovers the entries and rejects any inconsistency (section 12.3.3 of ISO 32000-1) |
| Pdf.CollectImageObjects | scripts/make-fixture.py:152-171 | one image object per image, page by page, with the number recorded for each and the next free number |
| Pdf.BuildObjects | scripts/make-fixture.py:281-344 | the list of bodies in the order emitted: catalog, page tree, information, pages, contents, font, images, outline |
| Pdf.BuildPdf | scripts/make-fixture.py:241-367 | from rendered pages to the file, failing exactly when a body does not encode |
| PdfReader.PlannedNumbersHold | scripts/make-fixture.py:241-254 | every number planned beforehand is the position at which that body is emitted |
| PdfReader.GraphReadsBack | scripts/make-fixture.py:276-344 | following references from the trailer recovers pages, contents, images, information and outline |
| PdfReader.ObjectsReadable | scripts/make-fixture.py:281-344 | every body of a clean document is readable: proper names and numerals, matching stream lengths |
| PdfReader.GraphClean | scripts/make-fixture.py:203-367 | whatever graph of objects is read, the document that comes out is clean: the other half of the equivalence |
| PdfReader.DocumentRoundTrip | scripts/make-fixture.py:241-367 | reading the text of header, objects and table gives the document back if and only if its strings, names and page references are clean, the images of each page have different names, and the offsets fit |
| PdfWriter.RenderPages | scripts/make-fixture.py:229-239 | the content streams page by page, a given one as it is, a drawn one when its caption is ASCII |
| PdfDrawing.CaptionIsDrawn | scripts/make-fixture.py:229-239 | executed operator by operator, a drawn stream paints the rectangle of 216 by 144 at (72, height - 192) and shows heading and caption at (72, height - 272) and (72, height - 332) in their fonts and colours, if and only if the caption has no carriage return |
| PdfDrawing.PagesHighEnough | scripts/make-fixture.py:211-239 | with the page's lower edge at zero, all of it lies on the page if and only if the height is at least 332, the rectangle from 192 on, and anything at all only above 48 |
| PdfWriter.PrintIsAscii | scripts/make-fixture.py:350-357 | a printed body encodes if and only if every text in it is ASCII |
| PdfWriter.ObjectsEncode | scripts/make-fixture.py:281-357 | all bodies of a document encode if and only if title, subject, outline titles, coordinates and image names are ASCII |
| PdfWriter.Write | scripts/make-fixture.py:203-367 | the whole writer on pages that are given or drawn |
| PdfWriter.WriterRoundTrip | scripts/make-fixture.py:203-367 | the writer returns a file if and only if all printed texts and drawn captions are ASCII, and a returned file reads back as the document if and only if that is clean and its offsets fit |
| Ncx.Emit | scripts/make-epub-fixtures.py:135-147 | prints one point and its children with consecutive play orders, and advances the counter by the subtree's size |
| Ncx.WriteNcx | scripts/make-epub-fixtures.py:131-174 | the text of the whole map |
| Ncx.ReadPointsBack | scripts/make-epub-fixtures.py:139-147 | parsing nested points recovers the forest and insists that play orders run 1, 2, 3 in document order |
| Ncx.NcxRoundTrip | scripts/make-epub-fixtures.py:131-174 | parsing recovers identifier, title, forest and depth if and only if all texts are of XML characters without ampersand, less-than sign and carriage return, no label or title holds `]]>`, and no attribute a quote, a line feed or a tab |
| Ncx.DepthIsLongestChain | scripts/make-epub-fixtures.py:149-155 | the declared depth is the length of a longest chain of nested points |
| Ncx.ChainsAreNoLonger | scripts/make-epub-fixtures.py:149-155 | no chain of nested points is longer than the declared depth |
| Transport.LineBuffer.Push | electron/main/sidecarTransport.ts:34-61 | returns exactly the lines this chunk completes that are within the cap; between calls the buffer is newline-free, at most the cap, and the overflow flag tells whether the current line is over it |
| Transport.NewLines | electron/main/sidecarTransport.ts:34-61 | the lines kept from the longer stream are those kept before plus these |
| Transport.StartPush | electron/main/sidecarTransport.ts:35-47 | appending a chunk to a well-formed buffer, overflowing or not, leaves exactly the unfinished work of the whole stream |
| Transport.KeptIsFilter | electron/main/sidecarTransport.ts:58-59 | a line survives as often as it occurs if it is within the cap, otherwise not at all |
| Transport.SplitIsLossless | electron/main/sidecarTransport.ts:56-57 | joining the complete lines and the unfinished tail gives the stream |
| Transport.PushAll | electron/main/sidecarTransport.ts:27-62 | a fresh buffer fed any sequence of chunks returns, all together, the lines within the cap of the concatenated stream |
| Transport.ChunkingIndependence | electron/main/sidecarTransport.ts:34-61 | the same of the function that names what each call returns |
| Transport.SameStreamSameLines | electron/main/sidecarTransport.ts:34-61 | two ways of cutting one stream give the same lines |
| Transport.FirstLineIsGlued | electron/main/sidecarTransport.ts:35-60 | the first line of a chunk is returned with what was left over in front of it, or dropped when both are over the cap |
| Transport.FramingStartsAfresh | electron/main/sidecar.ts:57 | what follows in the stream is framed as if it stood alone, however it goes on, if and only if nothing was left over |
| Transport.TailIsEmpty | electron/main/sidecarTransport.ts:48-57 | nothing is left over if and only if the stream is empty or ends in a newline |
| SidecarRestart.OneLineAnswers | electron/main/sidecar.ts:118-152 | a line sent to a pending call settles it if and only if it, with what was left over in front, is within the cap and, trimmed, decodes to that call's answer |
| SidecarRestart.CheckIsHeardExactlyAfterACleanEnd | electron/main/sidecar.ts:107-124 | a restarted process's answer settles its health check, whatever the encoding of answers, if and only if the answer is not blank, the old process left nothing but white space of an unfinished line, and both together are within the cap |
| SidecarRestart.UnheardCheckTimesOut | electron/main/sidecar.ts:114-124 | otherwise the check times out a window later though the process answered |
| SidecarRestart.AnswerIsLostToAPartialLine | electron/main/sidecar.ts:53-124 | a run from the beginning in which that happens |
| SidecarRestart.ChunksMayBeJoinedExactlyWhen | electron/main/sidecar.ts:118-152 | one chunk does what its two halves do at the same time if and only if no line of the first half throws or no line of the second answers a call still pending |
| SidecarRestart.AnswerBehindNullIsHeardOnlyApart | electron/main/sidecar.ts:118-141 | an answer behind a line that throws leaves its call pending in the same chunk and settles it in the next |
| SidecarObject.Sidecar.Call | electron/main/sidecar.ts:185-223 | the method takes exactly the step of the call event: refused without a child, id spent but not sent when too large, otherwise entered with a full-window timer |
| SidecarObject.Sidecar.StartOnce | electron/main/sidecar.ts:88-116 | the step of a spawn: clears the stopped flag, new child, health check |
| SidecarObject.Sidecar.Start | electron/main/sidecar.ts:75-85 | one start at a time, retried only after a failed one |
| SidecarObject.Sidecar.HandleData | electron/main/sidecar.ts:118-124 | the step of a chunk: activity noted, each new line trimmed and handled in order, blank ones skipped, up to the first that throws |
| SidecarObject.Sidecar.HandleLine | electron/main/sidecar.ts:126-160 | the step of one trimmed line: only a pending id is settled, and `null` throws |
| SidecarObject.Sidecar.HandleExit | electron/main/sidecar.ts:162-182 | the step of an exit: all pending rejected, restart scheduled unless stopped, delay doubled |
| SidecarObject.Sidecar.Stop | electron/main/sidecar.ts:226-242 | the step of stop |
| SidecarObject.Sidecar.CheckIdle | electron/main/sidecar.ts:197-212 | the step of a timer: re-armed for the remainder or timed out |
| SidecarObject.Sidecar.HandleWriteError | electron/main/sidecar.ts:215-221 | the step of a failed write |
| SidecarObject.Sidecar.HandleRestart | electron/main/sidecar.ts:176-180 | the step of a restart timer |
| SidecarProofs.TableKept | electron/main/sidecar.ts:118-242 | every event keeps: each issued id is either pending or settled, armed timers are exactly the pending ids, no child means nothing pending |
| SidecarProofs.TimingKept | electron/main/sidecar.ts:195-213 | every event keeps: each timer is due at least one window after its call and at most one window after call or last output |
| SidecarProofs.BackoffKept | electron/main/sidecar.ts:173-175 | every event keeps: the delay is the minimum of 500 times two to the k and 8000, with k the exits since the last good health check |
| SidecarProofs.CrashSchedulesRestart | electron/main/sidecar.ts:162-182 | in every reachable state an exit schedules one restart after that closed-form delay, none when stopped |
| SidecarCalls.CallIsEntered | electron/main/sidecar.ts:185-214 | in every reachable state with a process, a call that is not too large is entered under a new id: pending, unsettled, with a timer one window ahead, and nothing else changes |
| SidecarCalls.CallIsRefused | electron/main/sidecar.ts:186-194 | in every reachable state a call that is too large settles its own id at once and enters nothing; without a process no id is spent |
| SidecarCalls.CallIsAnswered | electron/main/sidecar.ts:118-214 | after such a call the next chunk settles it with the first response it brings for it |
| SidecarCalls.PendingCallAfter | electron/main/sidecar.ts:118-242 | exactly what each event does to each pending call: answered by its first response, timed out after a silent window, failed by its own write, ended by exit or stop; every other event leaves it waiting, with its timer where it was or one window past the last output |
| SidecarCalls.NewlyPending | electron/main/sidecar.ts:88-214 | only a call, a start that begins or a restart enters a call, under the next id and for its own waiter |
| SidecarCalls.ProcessAfter | electron/main/sidecar.ts:88-242 | exactly what each event does to the process, the stopped flag, the activity time and the number of restart timers |
| SidecarCalls.StartSpawnsOnce | electron/main/sidecar.ts:75-115 | a start spawns once with its health check entered; while one is in progress or has succeeded, or without a binary, nothing remains of it |
| SidecarCalls.StartingStep | electron/main/sidecar.ts:75-85 | a start is in progress until its health check ends otherwise than well |
| SidecarCalls.OneStartAtATime | electron/main/sidecar.ts:75-85 | in every reachable state at most one health check of a start is pending |
| SidecarCalls.RestartSpawns | electron/main/sidecar.ts:176-180 | a due restart timer is used up, no other is, and spawns with its health check entered |
| SidecarCalls.RestartDelayFromHistory | electron/main/sidecar.ts:114-182 | in every reachable state the delay is the minimum of 8000 and 500 doubled once for every exit since the last good health check, counted from the events alone, and an exit schedules one restart after it |
| SidecarProofs.SettlingHasItsCause | electron/main/sidecar.ts:126-242 | an outcome once given stays, and each new one has its cause: the call's own response before any line that throws, a timer after a full silent window, an exit, a stop, or its failed write |
| SidecarProofs.ChunkAnswersExactly | electron/main/sidecar.ts:118-152 | a chunk settles a pending call if and only if a response to it stands before the first line that throws, and with the first such response; otherwise the call and its timer are untouched |
| SidecarProofs.LateResponsesAreIgnored | electron/main/sidecar.ts:118-143 | in every reachable state a chunk whose handled lines answer only settled calls changes nothing but the time of the last activity |
| SidecarProofs.ReachableStates | electron/main/sidecar.ts:53-242 | all invariants hold after every sequence of events from the start |
| SidecarProofs.OutcomesAreForever | electron/main/sidecar.ts:141-223 | a settled call keeps its outcome and never becomes pending again, over any further run |
| SidecarProofs.FreshId | electron/main/sidecar.ts:188 | the next id has never been used, across restarts |
| SidecarProofs.AnswersComeFromOwnLines | electron/main/sidecar.ts:118-160 | in every reachable state an answered call has a line of its own id and reply in the output so far |
| SidecarProofs.NobodyWaitsPastTheWindow | electron/main/sidecar.ts:195-213 | if timers fire when due, nobody waits longer than one window past call or last output |
| SidecarProofs.NoSpawnAfterStop | electron/main/sidecar.ts:226-242 | a stopped sidecar without child and without restart timer spawns nothing until started |
| SidecarProofs.RestartOutlivesStop | electron/main/sidecar.ts:92-180 | with a restart timer outstanding, a run without any start revives a stopped sidecar |
| SidecarProofs.StopIsFinalExactlyWithoutRestartTimer | electron/main/sidecar.ts:226-242 | stop prevents every later spawn if and only if no restart timer is outstanding |
| SidecarProofs.StopIsUndoneAfterACrash | electron/main/sidecar.ts:92-242 | after a start and one crash a timer is outstanding, and stop is followed by a second spawn without any start |
| SidecarProofs.SupervisedRuns | electron/main/sidecar.ts:162-182 | while the binary exists, a started and not stopped sidecar has a child or a restart scheduled, in every reachable state |
| Paths.StartsBelowIsUnder | electron/main/pathContainment.ts:21-23 | on normalized paths the string test means a proper prefix of segments, except below "/" where it never holds |
| Paths.ContainedIsBelow | electron/main/pathContainment.ts:20-31 | a target is contained if and only if it lies properly below the root by name and by real path, and both real paths exist |
| Walk.ComputeDirectoryBytes | electron/main/storageSizing.ts:65-97 | the loops compute the walk function and end on every listing, cyclic ones included |
| Walk.WalkCounts | electron/main/storageSizing.ts:65-97 | on a finite listed tree the result is the sum over a set of its entries: all of them, or exactly the cap when there are more |
| Walk.WalkIsSum | electron/main/storageSizing.ts:65-97 | with at most 100000 entries the result is the sum of the regular files, links excluded |
| Walk.WalkIsLowerBound | electron/main/storageSizing.ts:79 | above the cap the result is a lower bound |
| Volume.WalkIsBytes | electron/main/storageSizing.ts:60-97 | over the file tree, the walk of anything but a link is the bytes at and below it |
| Volume.EntryWalk | electron/main/storageSizing.ts:65-97 | the walk of a root's entry is its bytes, plus the linked directory's if it is a link |
| Storage.ConfigEntriesAddUp | electron/main/storageSizing.ts:105-159 | caches and settings add up to the config root if and only if linked caches bring in no more than the root's other bytes; without links settings is exactly what lies outside the caches |
| Storage.DataEntriesFit | electron/main/storageSizing.ts:99-143 | database, covers and marker with what they leave out add up to the data root and a linked cover directory's bytes; they fit in the root if and only if those do not exceed what is left out |
| Storage.ReportSaysWhatIsThere | electron/main/storageSizing.ts:99-184 | each number of the report on its own: the catalog is three named files, the covers and the seven named caches their bytes and those of linked directories, the marker one file, and the totals their sums |
| VolumeLaws.MovedLedger | electron/main/resetData.ts:86-91 | a rename keeps every byte except those of the entry it replaces |
| VolumeLaws.RmLedger | electron/main/resetData.ts:109 | a removal takes exactly the bytes at and below its target |
| Reset.Machine.RemoveContained | electron/main/resetData.ts:100-114 | refuses, measures, removes; reports bytes only when it removed |
| Reset.Machine.ClearAppCache | electron/main/clearCache.ts:34-49 | the loop over the seven cache directories and the marker, adding up what was freed |
| Reset.Machine.FindQuarantineTarget | electron/main/resetData.ts:67-75 | the first free of a thousand candidate names, else the name with the time |
| Reset.Machine.MoveDatabaseAside | electron/main/resetData.ts:78-97 | nothing without a database; a failing rename ends the reset; otherwise log and shared memory follow when they can |
| Reset.Machine.SweepConfig | electron/main/resetData.ts:138-152 | removes every listed entry of the config root that is not a cache directory, collecting paths and bytes |
| Reset.Machine.ResetData | electron/main/resetData.ts:121-155 | the whole reset, as the sequence of those parts |
| ResetProofs.RemovalLedger | electron/main/resetData.ts:106-113 | one removal: bytes before, plus what a removed link makes it count, equal bytes after plus bytes reported |
| ResetProofs.RemovalReportIsExactlyWhen | electron/main/resetData.ts:106-113 | one removal's report is its true drop if and only if its target is no link or leads to nothing that has bytes |
| ResetProofs.QuarantineLedger | electron/main/resetData.ts:78-97 | the quarantine loses no byte but those of entries its renames replace |
| CacheClear.CacheClearFrame | electron/main/clearCache.ts:26-49 | a cache clear changes nothing but what is at and below the seven named caches and the marker |
| CacheClear.CacheClearSpares | electron/main/clearCache.ts:8-16 | the covers, the database with its log and shared memory, and every setting stay as they are |
| CacheClear.CacheClearLeavesNothing | electron/main/clearCache.ts:26-49 | with nothing busy and no link among them the eight entries are gone afterwards |
| CacheClear.CacheClearReportIsExact | electron/main/clearCache.ts:33-49 | when none of them is a link that leads below its root, the returned bytes are what the two roots lose |
| ResetProofs.ResetConserves | electron/main/resetData.ts:121-155 | over the whole reset every byte of the two roots, with those counted for removed links, is left, reported or replaced |
| ResetReport.ReportIsDropUnlessReplaced | electron/main/resetData.ts:121-155 | with disjoint roots, walks within the cap and no target a link that leads below its root, the report is the true drop if and only if no rename replaces a byte |
| ResetReport.ClobberedIsInitial | electron/main/resetData.ts:78-97 | the replaced bytes are those of the disk before the call at the quarantine's name and at its log's and shared memory's, when these follow |
| ResetReport.ReportIsDropExactlyWhen | electron/main/resetData.ts:66-155 | where no rename is refused, no target a link that leads below its root and no name in play a link, the disk before the call tells: the reset finishes if and only if nothing of another kind is in the database's way, and its report is then exact if and only if no byte lies at the names its files move to |
| ResetReport.ResetReportIsExact | electron/main/resetData.ts:121-155 | under the same hypotheses on links, if no entry of the data root bears a name the quarantine gives out, the reported bytes are exactly the drop |
| ResetReport.SidecarFollowsExactlyWhen | electron/main/resetData.ts:86-95 | where no rename is refused and no name in play is a link, log and shared memory end up beside the moved database if and only if nothing of another kind is in their way |
| ResetRemoved.RemovedExactly | electron/main/resetData.ts:99-155 | the reported paths are exactly the covers and the settings that were there before and are gone after, each once |
| StorageCases.LinkedCacheExceedsRoot | electron/main/storageSizing.ts:105-159 | a disk with a linked cache directory on which caches exceed the root and the clamp bites |
| StorageCases.LinkedCoversExceedRoot | electron/main/storageSizing.ts:119-143 | a disk with a linked cover directory on which the data entries exceed their root |
| StorageCases.TakenLogNameIsMissed | electron/main/resetData.ts:86-95 | a disk whose log's new name is taken, on which the reset drops more than it reports |
| StorageCases.InwardLinkIsCountedTwice | electron/main/clearCache.ts:34-49 | a disk with a cache linked into its own root, on which the reset reports more than it drops |
| ResetSafety.ResetFrame | electron/main/resetData.ts:121-155 | finished or failed, nothing changes but what lies below the config root, the marker, the covers, and the database's old and new names |
| ResetSafety.DatabaseSurvives | electron/main/resetData.ts:77-97 | everything that was at the database's path is at the reported one, and log and shared memory are beside it or where they were |
| ResetSafety.QuarantineNameIsFree | electron/main/resetData.ts:66-75 | the chosen name is taken if and only if all thousand candidates and the name with the time are |
| ResetSafety.QuarantineNameIsFirstFree | electron/main/resetData.ts:66-75 | it is the first free of tuxbooks.db.corrupt-stamp, then with -1, -2 and so on to -999, else that of the stamp with the time |
| ResetSafety.LinkedTargetStaysInside | electron/main/resetData.ts:99-114 | a target that is a link is removed if and only if it leads properly below its root and nothing refuses |
| ResetExact.ResetLeavesNothing | electron/main/resetData.ts:116-155 | when nothing is refused and no target is a link, the config root ends empty and marker and covers are gone |
| GpuFallback.Store.RecordGpuCrashes | electron/main/gpuFallback.ts:84-110 | below two crashes nothing changes; otherwise the marker is written with carried-over count and first time, and reads back active |
| GpuFallback.Store.ClearGpuFallbackMarker | electron/main/gpuFallback.ts:116-124 | removes whatever marker there is unless the removal fails, and says whether it removed one |
| GpuFallback.Session.GpuProcessGone | electron/main/index.ts:624-646 | counts crashes only, and records them only in a hardware session and when the write succeeds |
| GpuFallback.Session.WillQuit | electron/main/index.ts:605-610 | clears the marker only after a hardware session without crashes |
| GpuFallback.Live | electron/main/index.ts:118-131 | one whole session from launch decision to quit |
| GpuFallback.MarkersWellFormed | electron/main/gpuFallback.ts:84-110 | after any history the stored marker has at least two crashes, first no later than last, and expiry seven days after the last |
| GpuFallback.ActiveMarkerSurvives | electron/main/index.ts:605-606 | a session launched under an active marker leaves it untouched |
| GpuFallback.LifeReads | electron/main/index.ts:118-131 | after one session the marker is active at a later time exactly if that session armed it, or, for a software session, if it was active anyway |
| GpuFallback.SessionMarker | electron/main/gpuFallback.ts:84-110 | the marker of a hardware session that recorded crashes: their count, the first of the last series without a gap of seven days, the last, and seven days later; quitting leaves it |
| GpuFallback.LifeLeaves | electron/main/index.ts:605-646 | exactly what each session leaves: the file as it was, the marker of its recorded crashes, or no file after a crash-free quit |
| GpuFallback.RefreshKeepsTheFirst | electron/main/gpuFallback.ts:84-110 | recording over an active marker keeps the first crash and the larger count |
| GpuFallback.LaunchCharacterised | electron/main/gpuFallback.ts:54-110 | whatever the file at the start and whichever writes fail: a launch is software-rendered if and only if that file is still an active marker, or some earlier hardware session recorded its second or a later crash less than seven days before |
| GpuFallback.SoftwareLaunchCharacterised | electron/main/gpuFallback.ts:54-110 | from a file that is no active marker: if and only if such a crash was recorded |
| RangeServing.ParseIsGrammar | electron/shared/pathSchema.ts:121-142 | a header is accepted with a given start and end if and only if its trimmed text is of the form bytes=s-e with at least one number, both safe integers, and not reversed |
| RangeServing.WindowIsSane | electron/main/protocolHandler.ts:160-165 | the length passed to the source lies between 1 and 2 to the 53 |
| RangeServing.ServersAgree | electron/main/protocolHandler.ts:147-231 | the book and the member server give the same status, body and Content-Range |
| RangeServing.FailureIsAnswered | electron/main/protocolHandler.ts:252-260 | with a failing source either server answers 404, the given status or 500 without a body, unless the header is refused first |
| RangeServing.RangeIsServed | electron/main/protocolHandler.ts:159-176 | over an honest source an accepted range yields exactly that slice, cut at the end of the file, or 416 when it starts past the end |
| RangeServing.EveryHeaderIsAnswered | electron/main/protocolHandler.ts:147-185 | over an honest source, for every header: header and file length decide between 206, 416 and 200, and these mean a truly declared part from the named start, nothing, and the whole file |
| RangeServing.ContentRangeBack | electron/main/protocolHandler.ts:173-175 | the Content-Range text reads back as its three numbers |
| RangeServing.ContentRangeIsTrue | electron/main/protocolHandler.ts:172-175 | every 206 response carries a Content-Range whose numbers describe its body and the file's length (section 14.4 of RFC 9110) |
| RangeServing.RangeTextParses | electron/shared/pathSchema.ts:129-142 | every well-formed range text parses to its numbers |
| RangeServing.WindowsReassemble | electron/main/protocolHandler.ts:147-185 | the bodies fetched for consecutive windows, however cut, put together are the file |
| Cli.ScanArgv | electron/main/cli.ts:124-151 | the scan records exactly which commands and which first error occur before the separator, and what follows it |
| Cli.ParseCli | electron/main/cli.ts:109-117 | the command by precedence: help, version, usage error, dry run, reset, launch |
| Cli.CommandIsDecidedByTokens | electron/main/cli.ts:82-151 | for every command line, which tokens before the separator make which command, the options and switches spelled out |
| Cli.ErrorNamesTheFirstFault | electron/main/cli.ts:82-143 | the message is about the first faulty token, by its part before the equals sign, and says whether a value was wrong or the option unknown |
| Cli.ForwardSwitches | electron/main/cli.ts:193-198 | the switches handed on, in order |
| Cli.KindIgnoresOrder | electron/main/cli.ts:109-151 | the kind of command depends only on the set of tokens before the separator |
| Cli.KindUnderPermutation | electron/main/cli.ts:109-151 | permuting those tokens does not change the kind |
| Cli.EarliestErrorIsReported | electron/main/cli.ts:141-143 | the reported error is that of the first faulty token |
| Cli.NothingIsLost | electron/main/cli.ts:133-138 | options, separator and forwarded tokens together are the arguments |
| Cli.SwitchRejoins | electron/main/cli.ts:195-197 | name and value of a switch rejoin to the token, and the name has no equals sign |
| Cli.SwitchesForwardedVerbatim | electron/main/cli.ts:193-198 | rejoined, the forwarded switches are exactly the tokens after the separator that are switches, in order |

## Left out

- PdfWriter.WriterRoundTrip: coordinates are numerals as text and the height of a page with a drawn label is an integer; zlib and the PNG and EPUB helpers of the script are not part of this model.
- Pdf.BuildPdf: starts from rendered pages; PdfWriter.Write is the writer on its own input.
- Zip.ZipRoundTrip: names and data are byte strings; the UTF-8 encoding of them is not modelled.
- Ncx.NcxRoundTrip: the package documents and the XHTML navigation document, templates filled in by loops and a nested list printed like the NCX points but without play orders, are not modelled, nor is the order of the archive's entries.
- Transport.LineBuffer.Push: lengths count characters, where the code counts UTF-16 units and names the constant in bytes.
- SidecarObject.Sidecar.HandleLine: JSON parsing of a trimmed line is a decoder parameter, total and with `null` as a value of its own; an event callback that throws, the payload of progress events and diagnostic output are not modelled.
- SidecarObject.Sidecar.Stop: the kill and its escalation after two seconds are not modelled; the killed process may still send output and exit at any time.
- SidecarProofs.NobodyWaitsPastTheWindow: needs that the clock does not pass an armed timer, which a busy event loop does not promise.
- SidecarObject.Sidecar.CheckIdle: a timer fires when it is due, not before.
- SidecarObject.Sidecar.Start: the shared promise is a flag; the child's `error` event and concurrent direct starts are not modelled.
- Walk.ComputeDirectoryBytes: sizes are unbounded naturals; files that change during the walk are not modelled.
- ResetProofs.ResetConserves: needs that no link lies on the way to either root, that the roots are disjoint, and that a failing removal removes nothing; a removal that stops half-way is not modelled.
- ResetReport.ReportIsDropExactlyWhen: with a target of the whole reset that is a link below its root, what the walk behind it counts depends on which targets the listing puts first; there ResetProofs.RemovalReportIsExactlyWhen decides removal by removal. Where a rename may be refused, ResetReport.ClobberedIsInitial names the bytes.
- ResetSafety.DatabaseSurvives: the same roots; a reset whose database rename fails ends without a report and falls under ResetSafety.ResetFrame.
- Reset.Machine.FindQuarantineTarget: the ISO time stamp is a parameter.
- GpuFallback.LaunchCharacterised: needs a clock that does not run back and one session at a time; a marker damaged or removed from outside, by a cache clear or a reset, is not part of a history.
- RangeServing.ServersAgree: MIME types, base64 and error texts are not modelled; parsing of book ids and member paths is a row of single-branch checks.
- The single-instance lock, cover serving, and the parsing of member paths, book ids and URLs: single-branch checks.
- Windows, dialogs, menus, preload bridges, policies and allowlists, the renderer, the Rust services, and the browser tests beside the ZIP writer: foreign interfaces or tables without an algorithm.
