# Board protocols and algorithms, modelled in Dafny

This project models the parts of the board repository that carry real
algorithms or protocols and proves what they are for. `dafny verify
dfyconfig.toml` checks all of it.

| file | what it models |
|---|---|
| `Crc.dfy`, `CrcErrors.dfy`, `CrcFields.dfy`, `CrcReference.dfy` | the boot-header CRC, the changes it always catches, where each header field stands in its message, two independent definitions it agrees with |
| `DmaProtocol.dfy`, `DmaSafety.dfy`, `DmaStale.dfy`, `DmaLiveness.dfy` | the Linum DMA service as a step system of dispatcher, workers, clients and streams |
| `DmaRequests.dfy` | what its clients are told, in terms of what they asked for |
| `DmaTransfer.dfy` | the bytes of its messages, and its client |
| `ScanOut.dfy`, `ScanAnswers.dfy` | double-buffered DSI scan-out: presenter, re-arm interrupt, hardware, painting client; that presents are answered |
| `HexFormat.dfy`, `HexWriter.dfy`, `FlashImage.dfy`, `ElfFile.dfy` | ELF segments, the packed image, Intel HEX text, a reader of that text, and the way from a written file to the loader's memory |
| `Flash.dfy` | erase groups, page and burst programming over a flash controller |
| `CacheLines.dfy`, `CacheArea.dfy` | two-level cache maintenance by range and by rectangle |
| `ChannelServer.dfy` | the AXI and AHB DMA servers under arbitrary hardware and notifications |
| `CanHandOff.dfy`, `CanProgress.dfy` | the two-core CAN hand-off over a server that may block, and that it goes on |
| `Formatter.dfy`, `FormatLaws.dfy`, `Console.dfy` | the bounded printf, what its text means, and its chunked way to the UART |
| `Breakpoints.dfy` | hardware breakpoint slots |
| `Tuning.dfy`, `Pwm.dfy` | window search of the PSRAM tuning, PWM divider arithmetic |

Concurrent parts are step systems: a state, the steps each thread, interrupt or
device can take (one function for each), and runs as sequences of steps. What
changes one thing after another is written that way: methods with loops over
arrays and fields, proved against functions and predicates of the old state.
Where the environment decides (hardware, notifications, bus errors, time-outs)
it is a free choice in every step; the flash and debug buses and the PSRAM are
arbitrary functions of the number of the access, so that results can be tied to
the accesses really made.

Kernel contract used throughout: a signal sets a sticky bit, a wait takes only
the bits it asks for, a call hands one message over and blocks until the reply.

## Where the steps come from

- `DmaProtocol`: `Accept*` and `Move*` follow witte_linum/drivers/dma/src/server.c:174-251 and 277-325 one access at a time; `Do*` follow slot_arm_hw (76-101), slot_wait_tc (103-123) and dma_worker (140-171). `MayCall` is the discipline of witte_linum/drivers/i2c/src/server.c:143-155 and 170-182.
- `ScanOut`: `DoEnter` is do_present and do_flip (esp32p4_ev_function/drivers/display/src/server.c:57-99); `DoCheckStart` to `DoSettle` are dsi_fb_start (esp32p4_ev_function/drivers/dsi/src/dsi_fb.c:258-316), `DoCheckPresent` to `DoDrain` are dsi_fb_present (373-400), `Rearm` is the interrupt handler with lli_revalidate and channel_start (173-198, 238-256).
- `CanHandOff`: `TxMove` and `RxMove` are the two threads (tc275_lite/components/smp_can_demo/src/root_thread.c:49-79 and 95-127), `DoServe` the server (tc275_lite/drivers/can/src/server.c:279-336 and 362-419). A frame is known by a serial number; its low and high words are read separately.

## What does not hold, and exactly when it does

- A wait can return a success that is not its own arm's. slot_arm_hw clears the flags before it stops the stream, so a stream left running by a time-out can complete in between. `DmaStale.StaleExactly` gives the condition at the clear, `DmaStale.StaleAtCallExactly` the one a client can check before it calls, `DmaStale.StaleSuccessHappens` the run, `DmaSafety.GenuineUntilTimeout` the guarantee that remains.
- After a timed-out present the panel may read what has become the back buffer (`ScanSafety.OneTimeoutExposes`); nothing else brings that about (`ScanSafety.OnlyTimeoutsExpose`), and the first success afterwards restores the promise. The handler returns true without a completed transfer; with a line that something else can raise, presents may complete early (`ScanSafety.PrematureExactly`).
- A SEND reports success when any frame stands in the receive object, which after a timed-out SEND may be an older one (`CanHandOff.StaleExactly`, with the run in `CanHandOff.StaleHappens`).
- On the AHB server slot 0 serves receives and copies with one descriptor. After an arm, a copy that is answered OK or EINVAL leaves a wait that cannot succeed; one that is answered with a time-out, and only that, can pass for the received frame (`ChannelServer.CopyPassesExactly`, with the transcript in `ChannelServer.CopyPassesForFrame`). Slot 1 and all AXI slots are free of this (`ChannelServer.OnlySharedSlotIsOverridden`).
- A single good delay setting other than the first is passed over (`Tuning.PickIsGoodExactly`, on a device in `Tuning.SingleGoodDelayIsPassedOver`).
- The PWM CONFIG message takes duties above 1000, for which the compare value can exceed the reload or wrap (`Pwm.SafeDutyExactly`, with the messages in `Pwm.ConfigExceedsReload`).
- A write-back helps only lines without a stale clean copy (`CacheLines.WriteBackAgreesExactly`, one such line in `CacheLines.StaleCopyStays`), and a range that runs from external into internal memory reaches level 2 with internal addresses (`CacheSync.WedgesExactly`, one such range in `CacheSync.RangeWedges`).
- On the Linum board a range whose rounded length reaches 2^32 is flushed only in part (`CacheArea.SpanExactly`). On the EV-function board a cached range that passes the top of the address space is not maintained at all (`CacheSync.SentExactly`).
- A step does not always leave slot 7 clear: it returns without clearing it when its first write fails, although the event word may have been written, and it ignores the result of its last write. `Breakpoints.StepLeavesClearExactly` says exactly when the slot is clear or live; `Breakpoints.StepLeavesLiveTrigger` and `Breakpoints.StepSucceedsAndLeavesTrigger` are the two failing inputs.
- Reset-halt ignores the result of the write that clears the triggers, so it can succeed with stale triggers. They are in order exactly if the clear left nothing in the slots without an owner (`Breakpoints.ResetIsArmedExactly`); `Breakpoints.ResetSucceedsAndLeavesTrigger` is a failing input.
- A LOAD longer than twelve bytes takes bytes behind its message, and one whose offset and length wrap in 32 bits leaves the buffer (`DmaTransfer.LoadIsInMessageExactly`, `DmaTransfer.WrappedLoadStrays`); the client sends neither.

## Model

| member | source | states |
|---|---|---|
| `Crc.Crc32TricoreWord` | tc275_lite/tools/gen_bmhd_crc.py:28-37 | the register after one word is the register after its 32 bits, bytes from the top, each byte least significant bit first |
| `Crc.ClockByte` | tc275_lite/tools/gen_bmhd_crc.py:30-36 | eight clocks feed the byte in reverse bit order |
| `Crc.Reflect32` | tc275_lite/tools/gen_bmhd_crc.py:19-25 | the five mask-and-shift lines together are exact bit reversal |
| `Crc.SwapGroups` | tc275_lite/tools/gen_bmhd_crc.py:20-24 | one line exchanges neighbouring groups of 1, 2, 4, 8 or 16 bits and nothing else |
| `Crc.BmhdCrcHead` | tc275_lite/tools/gen_bmhd_crc.py:40-55 | the two results are the header CRC of the six words and its complement |
| `CrcErrors.BurstsAreCaught` | tc275_lite/tools/gen_bmhd_crc.py:28-37 | for messages of any equal length and any start register: differences confined to 32 consecutive fed bits always change the register |
| `CrcErrors.GeneratorIsMissed` | tc275_lite/tools/gen_bmhd_crc.py:16 | the bound 32 is exact: the 33-bit generator pattern changes nothing, at any place in any message |
| `CrcErrors.FeedLinear` | tc275_lite/tools/gen_bmhd_crc.py:31-36 | the register is linear: the sum of two runs is the run on the sums |
| `CrcErrors.FeedAtOnce` | tc275_lite/tools/gen_bmhd_crc.py:31-36 | feeding up to 32 bits one by one equals adding them to the register at once and clocking zeros |
| `CrcErrors.OneWordIsCaught` | tc275_lite/tools/gen_bmhd_crc.py:40-55 | changing any one word of any word list changes the header CRC |
| `CrcErrors.StartAddressIsCaught` | tc275_lite/tools/gen_bmhd_crc.py:43-54 | two headers that differ in STAD alone have different CRCs |
| `CrcErrors.BootModeIsCaught` | tc275_lite/tools/gen_bmhd_crc.py:43-54 | so have two headers that differ in BMI, BMHDID or both |
| `CrcFields.RangeFieldsAreCaught` | tc275_lite/tools/gen_bmhd_crc.py:43-54 | so have two headers that differ in one of the two check addresses or the two range CRCs |
| `CrcFields.FieldsStandInOrder` | tc275_lite/tools/gen_bmhd_crc.py:28-54 | the message bit of each field: word by word in the order of the header, BMI in the low and BMHDID in the high half of the second word, the most significant byte of a word first and of a byte its least significant bit |
| `CrcReference.HeadIsCrc32` | tc275_lite/tools/gen_bmhd_crc.py:28-55 | for every word list the register, complement and reflection give the reflected byte-wise CRC-32 (section 3.2.9 of IEEE 802.3) of the words written out big-endian |
| `CrcReference.FeedIsRemainder` | tc275_lite/tools/gen_bmhd_crc.py:28-37 | from a zero register the loop computes the remainder of long division by the generator over GF(2) |
| `CrcReference.HeadIsRemainder` | tc275_lite/tools/gen_bmhd_crc.py:40-55 | the header CRC is the complemented and reversed remainder of the message with its first 32 bits complemented |
| `DmaSafety.StepKeeps` | witte_linum/drivers/dma/src/server.c:103-325 | every step of dispatcher, workers, clients and stream hardware keeps the whole slot invariant |
| `DmaSafety.ReachableKeeps` | witte_linum/drivers/dma/src/server.c:103-325 | every reachable state satisfies it |
| `DmaSafety.WaitsAnswerTheirArm` | witte_linum/drivers/dma/src/server.c:125-172 | the n-th answer of a slot is the n-th outcome its worker recorded, and a genuine success carries the bytes this arm delivered, cut to both lengths |
| `DmaRequests.WaitsAnswerTheirRequests` | witte_linum/drivers/dma/src/server.c:208-251 | in every run the n-th WAIT is told success or, after exactly the time-out its ARM asked for (one second for zero), a time-out; a genuine success brings what the transfer moved, as much as both the n-th granted ARM and the n-th WAIT asked for, and nothing in sending direction; all in terms of the requests, the replies and the bytes the device moves |
| `DmaRequests.OthersAreJudged` | witte_linum/drivers/dma/src/server.c:174-227 | in every run OPEN, CLOSE, LOAD and ARM are answered OK exactly when the requests before them make them grantable, else ENOSPC for OPEN and EINVAL for the rest; a WAIT is never refused |
| `DmaRequests.BudgetIsAsked` | witte_linum/drivers/dma/src/server.c:118-121 | a worker that goes to sleep has slept less than the last granted ARM asked for |
| `DmaRequests.RunTies` | witte_linum/drivers/dma/src/server.c:208-251 | every run keeps the service tied to the book of its requests and replies: job, lengths, direction, buffer contents and sleeping time |
| `DmaSafety.ArmedAfterEnable` | witte_linum/drivers/dma/src/server.c:156-161 | ARMED is taken only after this arm has enabled the stream |
| `DmaSafety.OneDonePerArm` | witte_linum/drivers/dma/src/server.c:162-170 | each arm yields exactly one DONE, taken by exactly one wait, even when the transfer ends before WAIT is posted |
| `DmaSafety.GenuineUntilTimeout` | witte_linum/drivers/dma/src/server.c:103-123 | until a wait times out every success is its own arm's completion |
| `DmaSafety.MovedIsBuffer` | witte_linum/drivers/dma/src/server.c:87-101 | once a transfer has ended and until its wait is answered, the bytes moved are those in the slot, in either direction |
| `DmaSafety.RequestsDoExactly` | witte_linum/drivers/dma/src/server.c:174-251 | which requests are granted and all they change: who may open, close, load, arm and wait, the direction, and exactly the loaded bytes |
| `DmaStale.StreamsAreQuiet` | witte_linum/drivers/dma/src/server.c:87-116 | a stream is stopped before it is enabled, and after a success of its own arm it is stopped with its flag cleared |
| `DmaStale.StaleExactly` | witte_linum/drivers/dma/src/server.c:87-99 | an arm can report a success that belongs to an older transfer if and only if its stream is still enabled when its flags are cleared |
| `DmaStale.StaleAtCallExactly` | witte_linum/drivers/i2c/src/server.c:170-182 | the same as the client meets it: its next arm can be answered with an older success if and only if its stream is still enabled when it calls |
| `DmaStale.StaleSuccessHappens` | witte_linum/drivers/dma/src/server.c:87-88 | a run from power-up in which the first wait times out and the second reports the first transfer's completion |
| `DmaStale.RunStaysClean` | witte_linum/drivers/i2c/src/server.c:143-155 | an arm that started on a stopped stream stays free of old completions in every run |
| `DmaLiveness.EveryRequestIsAnswered` | witte_linum/drivers/dma/src/server.c:277-325 | in every fair infinite run of clients that alternate arm and wait, whatever the hardware does, a request the dispatcher has taken is answered |
| `DmaLiveness.WorkShrinks` | witte_linum/drivers/dma/src/server.c:103-123 | while it is awaited every step of a worker brings the signal or leaves less to do, by phase and remaining time-out |
| `DmaLiveness.StepHelps` | witte_linum/drivers/dma/src/server.c:208-251 | no other step undoes that, and the thread that can help stays the same until it has helped |
| `DmaTransfer.Pack` | witte_linum/drivers/dma/src/client.c:19-32 | the bytes stand four to a word from the low end, the rest of the words is zero, no other word changes |
| `DmaTransfer.WordIsLittleEndian` | witte_linum/drivers/dma/src/client.c:19-32 | a word is its bytes as a little-endian number |
| `DmaTransfer.HoldsReadsBack` | witte_linum/drivers/dma/src/client.c:34-44 | each packed byte reads back from its word |
| `DmaTransfer.Slot.DoLoad` | witte_linum/drivers/dma/src/server.c:194-206 | when a load is accepted, in 32-bit arithmetic; it stays in its arrays exactly if the sum of offset and length does not wrap, and then exactly its bytes change |
| `DmaTransfer.WrappedLoadStrays` | witte_linum/drivers/dma/src/server.c:202-205 | every byte of an accepted load lies in scratch array and buffer if and only if the sum does not wrap |
| `DmaTransfer.Slot.HandleLoad` | witte_linum/drivers/dma/src/server.c:303-307 | every load message, of any length: when it is accepted, whether it stays inside, and then that the slot holds what the message and the word behind it carry |
| `DmaTransfer.LoadIsInMessageExactly` | witte_linum/drivers/dma/src/server.c:303-305 | what a load takes depends on its message alone if and only if its length is at most twelve |
| `DmaTransfer.Slot.HandleArm` | witte_linum/drivers/dma/src/server.c:208-222 | when an arm is accepted, and that it hands exactly one job to the worker |
| `DmaTransfer.Load` | witte_linum/drivers/dma/src/client.c:46-57 | one load message carries its bytes unchanged into the slot |
| `DmaTransfer.Arm` | witte_linum/drivers/dma/src/client.c:79-107 | after an accepted arm the slot holds exactly the client's bytes, whatever the chunking; the job is posted only if every load was taken |
| `DmaTransfer.Wait` | witte_linum/drivers/dma/src/client.c:109-122 | every result, direction and length: a success of a receive brings the first bytes of the slot's buffer, as many as asked for and armed, and nothing arrives otherwise |
| `ScanSafety.StepKeeps` | esp32p4_ev_function/drivers/dsi/src/dsi_fb.c:238-400 | every step of presenter, interrupt handler, scan-out hardware and client keeps the invariant |
| `ScanSafety.RunKeeps` | esp32p4_ev_function/drivers/dsi/src/dsi_fb.c:238-400 | so does every run |
| `ScanSafety.BackBufferIsFree` | esp32p4_ev_function/drivers/display/src/server.c:48-92 | in every run, from a successful present to the next call, scan-out and the next re-arm use the presented buffer only, never the back buffer |
| `ScanSafety.PanelSeesWholeFrames` | esp32p4_ev_function/drivers/dsi/src/dsi_fb.c:173-256 | in every run of a client that paints the back buffer after successes only, every scanned frame is whole and frames appear in the order of publication, time-outs or not |
| `ScanSafety.OldFramesAreGone` | esp32p4_ev_function/drivers/dsi/src/dsi_fb.c:373-400 | no present completes early: once the answer is decided, every scan that ends shows the presented frame or a later one |
| `ScanSafety.PrematureExactly` | esp32p4_ev_function/drivers/dsi/src/dsi_fb.c:184-189 | while an older frame is being read the answer can come too early if and only if something other than the end of a transfer can raise the line |
| `ScanSafety.AskedBufferIsShown` | esp32p4_ev_function/drivers/display/src/server.c:57-99 | a request answered OK shows the buffer it named by either address, a flip the other one; anything else is refused |
| `ScanSafety.OnlyTimeoutsExpose` | esp32p4_ev_function/drivers/dsi/src/dsi_fb.c:390-398 | as long as no wait times out an idle server's back buffer is never read, whatever calls fail |
| `ScanSafety.OneTimeoutExposes` | esp32p4_ev_function/drivers/display/src/server.c:74-92 | one timed-out flip of a steady server leaves the panel reading what has become the back buffer |
| `ScanSafety.FirstPresentStreams` | esp32p4_ev_function/drivers/dsi/src/dsi_fb.c:258-316 | the first present of a working board brings the steady state about |
| `ScanAnswers.EveryPresentIsAnswered` | esp32p4_ev_function/drivers/display/src/server.c:57-99 | in every fair infinite run without time-outs from then on, a request to a display that is up is answered: OK, with the buffer it names in front and the channel at its frame, if it names one, else refused |
| `ScanAnswers.AnswerableExactly` | esp32p4_ev_function/drivers/dsi/src/dsi_fb.c:238-256 | a waiting present can be answered OK without its wait timing out if and only if a frame is under way, a completion or a notification pending |
| `ScanAnswers.WaitingCanBeAnswered` | esp32p4_ev_function/drivers/dsi/src/dsi_fb.c:238-400 | after any run from power-up, time-outs included, a waiting present can still be answered OK: the channel never stalls |
| `ScanAnswers.FlipsOnAndOn` | esp32p4_ev_function/drivers/display/src/server.c:74-99 | from every steady state a flip is answered OK at the end of the frame and leaves the steady state of the other buffer |
| `ScanAnswers.StartAnswersExactly` | esp32p4_ev_function/drivers/dsi/src/dsi_fb.c:258-316 | in every run, a present that finds the display off is answered OK exactly if the link is ready and the interrupt, when it is not attached yet, can be attached and enabled |
| `ScanAnswers.TornExactly` | esp32p4_ev_function/drivers/dsi/src/dsi_fb.c:173-198 | a fetch takes the image its buffer then holds, and the scan that ends is shown as torn exactly if that buffer was painted meanwhile |
| `ScanAnswers.EveryScanIsShown` | esp32p4_ev_function/drivers/dsi/src/dsi_fb.c:238-256 | every scan that ends is on record, and nothing else |
| `HexWriter.WriteIhex` | tc275_lite/scripts/elf-flash-hex.py:90-114 | for every base and every image length the text, read by an independent reader of the format, loads exactly the image at base, base + 1, ... modulo 2^32 |
| `HexWriter.LineReadsBack` | tc275_lite/scripts/elf-flash-hex.py:82-87 | a printed line reads back as the record it was printed from, so its bytes sum to zero modulo 256 |
| `HexWriter.PartsAreRecord` | tc275_lite/scripts/elf-flash-hex.py:78-85 | the checksum makes the record bytes sum to zero modulo 256 |
| `HexWriter.LinesReadBack` | tc275_lite/scripts/elf-flash-hex.py:112-114 | joining the lines loses none of them |
| `HexFormat.OneWrongByteIsRefused` | tc275_lite/scripts/elf-flash-hex.py:78-79 | a reader that checks the sum refuses any single wrong byte |
| `HexFormat.SwapIsAccepted` | tc275_lite/scripts/elf-flash-hex.py:78-79 | but no exchange of two neighbouring bytes |
| `FlashImage.WindowsAgree` | tc275_lite/scripts/elf-flash-hex.py:17-25 | both flash windows are mapped one to one onto the first, idempotently |
| `FlashImage.ReadTable` | tc275_lite/scripts/elf-flash-hex.py:39-53 | the loop takes the flash segments of the complete program headers, in order, up to the first incomplete one |
| `FlashImage.SegmentsExactly` | tc275_lite/scripts/elf-flash-hex.py:39-53 | a segment is taken if and only if some header, with it and all before it wholly in the file, is a non-empty PT_LOAD in flash that describes it |
| `FlashImage.ParseElf` | tc275_lite/scripts/elf-flash-hex.py:28-56 | errors, and otherwise those segments sorted by offset |
| `FlashImage.SortIsStable` | tc275_lite/scripts/elf-flash-hex.py:55 | the sort orders offsets, keeps every segment and the order of equal offsets |
| `FlashImage.PackImage` | tc275_lite/scripts/elf-flash-hex.py:59-75 | the image ends with the segment that reaches furthest and holds, at every address, the byte of the last segment that has one there, else 0xFF |
| `FlashImage.SegmentIsPlaced` | tc275_lite/scripts/elf-flash-hex.py:70-73 | a segment no later one overlaps is in the image as it is in the file |
| `FlashImage.RestIsErased` | tc275_lite/scripts/elf-flash-hex.py:69 | where no segment has bytes the image is 0xFF |
| `FlashImage.FlashHex` | tc275_lite/scripts/elf-flash-hex.py:123-125 | the script fails exactly on a file without the ELF magic, a truncated one or one without flash segments; otherwise its text loads the packed image at the flash base |
| `FlashImage.ByteArrives` | tc275_lite/scripts/elf-flash-hex.py:90-125 | the loader's memory holds at each address of the image what the last segment says, else 0xFF |
| `FlashImage.SegmentArrives` | tc275_lite/scripts/elf-flash-hex.py:59-125 | from the ELF file to the loader's memory: each segment that no later one overlaps arrives at its normalised address |
| `ElfFile.U32ReadsBack` | tc275_lite/scripts/elf-flash-hex.py:35-44 | a 32-bit number written least significant byte first is read back, wherever it stands |
| `ElfFile.U16ReadsBack` | tc275_lite/scripts/elf-flash-hex.py:36 | so is a 16-bit one |
| `ElfFile.TakenAreDescribed` | tc275_lite/scripts/elf-flash-hex.py:35-55 | of a file with a whole header table the segments taken are exactly those of its non-empty PT_LOAD headers in one of the two 4 MiB windows, moved to the first window |
| `ElfFile.AcceptedExactly` | tc275_lite/scripts/elf-flash-hex.py:35-61 | such a file is flashed exactly if it has a header of that kind |
| `ElfFile.WrittenArrives` | tc275_lite/scripts/elf-flash-hex.py:28-114 | from the numbers and bytes written into the file to the loader's memory: each byte of a flash segment that overlaps no other arrives at its address in the first window |
| `ElfFile.UncoveredIsErased` | tc275_lite/scripts/elf-flash-hex.py:69 | what no flash header covers is 0xFF |
| `CacheLines.WriteBackAgreesExactly` | esp32p4_ev_function/board_cache.c:108-119 | after the write-back of a line, level 1 first, memory equals the processor's view if and only if the line had no stale clean copy; the view is unchanged |
| `CacheLines.StaleCopyStays` | esp32p4_ev_function/board_cache.c:108-119 | a line whose clean copy differs from memory is still different after its write-back |
| `CacheLines.InvalidateAgrees` | esp32p4_ev_function/board_cache.c:131-135 | after an invalidate the processor reads memory, whatever the copies were |
| `CacheLines.SecondLevelFirstExactly` | esp32p4_ev_function/board_cache.c:12-14 | the other order leaves memory stale exactly on lines that were dirty in level 1 with new data |
| `CacheLines.CleanThenInvalidate` | esp32p4_ev_function/board_cache.c:147-150 | write-back and invalidate keeps the processor's view; invalidate alone keeps it exactly where memory had it already |
| `CacheLines.NothingIsSpilled` | esp32p4_ev_function/board_cache.c:108-135 | after a write-back or an invalidate of a line no eviction overwrites what a device then writes |
| `CacheSync.Board.SyncOp` | esp32p4_ev_function/board_cache.c:55-69 | four register writes start one operation on exactly the lines of the range |
| `CacheSync.Board.SyncChunk` | esp32p4_ev_function/board_cache.c:115-119 | level 1 and then, where the map says so, level 2 of one chunk |
| `CacheSync.Board.SyncRange` | esp32p4_ev_function/board_cache.c:92-123 | null, empty and uncached ranges are ignored; any other one is sent as the tiling of the rounded range, in 32-bit arithmetic, and the loop ends |
| `CacheSync.TilesCoverOnce` | esp32p4_ev_function/board_cache.c:105-122 | each line of the rounded range is sent to each of its levels exactly once, no other line anywhere |
| `CacheSync.TilesAreProper` | esp32p4_ev_function/board_cache.c:109-119 | commands are whole lines, at most 4 KiB, inside the range, level 1 directly before level 2 |
| `CacheSync.SentExactly` | esp32p4_ev_function/board_cache.c:104-109 | the end is rounded up modulo 2^32; nothing is sent exactly if the range passes the top of the address space without covering all of it |
| `CacheSync.WedgesExactly` | esp32p4_ev_function/board_cache.c:71-90 | a level-2 command reaches internal memory if and only if the range starts in external memory and ends beyond the start of the internal one |
| `CacheSync.RangeWedges` | esp32p4_ev_function/board_cache.c:71-90 | 64 MiB from 0x4BFFF000 on are such a range |
| `CacheSync.RangeAgreesExactly` | esp32p4_ev_function/board_cache.c:125-129 | a clean of a range in one window leaves memory equal to the processor's view on each requested byte exactly if its line had no stale clean copy, and changes no view anywhere |
| `CacheSync.RangeReadsMemory` | esp32p4_ev_function/board_cache.c:131-135 | an invalidate makes the processor read memory on every requested byte and changes no memory |
| `CacheArea.AreaOp` | witte_linum/board_cache.c:65-91 | row loop and fast path: the calls cover exactly the bytes of the pixels in the columns x to x + w and rows y to y + h, byte j of a pixel being at buf + cy * stride + cx * px + j |
| `CacheArea.FullWidth` | witte_linum/board_cache.c:78-83 | the one call of the fast path, h * stride bytes from buf + y * stride, covers the same pixels |
| `CacheArea.StripOp` | esp32p4_ev_function/board_cache.c:158-172 | the strip is exactly the bytes from buf + y * stride to buf + (y + h) * stride, which hold every pixel of a rectangle inside the stride |
| `CacheArea.LinumBoard.CleanInvalidate` | witte_linum/board_cache.c:51-63 | for every 32-bit address and size: a null address or an empty range changes nothing, any other flushes the lines of the rounded span, wrapped as its 32-bit arithmetic does; below the top of the space those are exactly the lines that hold a byte of the range |
| `CacheArea.SpanExactly` | witte_linum/board_cache.c:57-60 | the span has the rounded length of the range if and only if that is below 2^32; otherwise only the rest modulo 2^32 |
| `CacheArea.LinumBoard.CleanInvalidateArea` | witte_linum/board_cache.c:65-91 | exactly the lines that hold a byte of a pixel of the rectangle are flushed |
| `CacheArea.LinumBoard.PresentRects` | witte_linum/drivers/display_dm/src/server.c:98-104 | after the loop exactly the lines that hold a byte of a pixel of a listed rectangle are flushed |
| `CacheArea.LinumBoard.Present` | witte_linum/drivers/display_dm/src/server.c:82-109 | refused untouched exactly on a null or short message, a null frame buffer or a message shorter than its list; otherwise the listed rectangles, or the whole frame buffer when none is listed, are flushed |
| `CacheArea.ListedPixelsAgree` | witte_linum/drivers/display_dm/src/server.c:96-109 | then each byte fb + cy * stride + 2 * cx + j of each pixel of each rectangle is in memory as the processor sees it, and no view has changed |
| `CacheArea.WholeBufferAgrees` | witte_linum/drivers/display_dm/src/server.c:105-107 | without a list, so is every byte of the frame buffer |
| `Flash.EraseSectors` | tc275_lite/openocd/patches/overlays/tc3xx.c:266-318 | succeeds exactly when no bus access it makes fails; then sectors first to last are erased and nothing else, by the plan for physical sectors of 16 on the TC2xx and 64 on the TC3xx; otherwise a first part of them |
| `Flash.ErasePlanPartitions` | tc275_lite/openocd/patches/overlays/tc3xx.c:273-279 | each sector of the range is erased by exactly one command, no other by any, and no command crosses a physical sector of 16 or 64 |
| `Flash.EraseGroup` | tc275_lite/openocd/patches/overlays/tc3xx.c:274-309 | one erase sequence is taken whole or not at all; succeeds exactly when no access fails |
| `Flash.LoadAssembly` | tc275_lite/openocd/patches/overlays/tc3xx.c:320-348 | succeeds exactly when no access fails; the assembly buffer then holds the chunk padded with 0xFF, completely |
| `Flash.ProgramChunk` | tc275_lite/openocd/patches/overlays/tc3xx.c:359-401 | the controller takes the command - page mode, full buffer, aligned, blank - and programs exactly the chunk; success exactly when no access fails, and after a failure it did or nothing changed |
| `Flash.Write` | tc275_lite/openocd/patches/overlays/tc3xx.c:403-469 | at any 32-byte-aligned offset and any length it succeeds exactly when no access fails; the flash then equals the buffer with its last page padded, nothing else changed, the commands are the plan, and a TC2xx is back in read mode; another offset is refused untouched; a bus error leaves a first part in whole pages |
| `Flash.ProgramPlanPartitions` | tc275_lite/openocd/patches/overlays/tc3xx.c:420-455 | each page of the rounded range is programmed by exactly one command, no other by any, every burst at a multiple of 256 |
| `Flash.BurstsWhereTheyFit` | tc275_lite/openocd/patches/overlays/tc3xx.c:424-446 | every whole aligned block of 256 bytes goes out as one burst |
| `Flash.EraseAndWrite` | tc275_lite/scripts/elf-flash-hex.py:126 | erasing sectors 0 to last_sector covers every page the write then programs; it succeeds exactly when no access fails, and the image is then in the flash |
| `ChannelServer.Server.Begin` | esp32p4_ev_function/drivers/gdma_axi/src/server.c:217-231 | descriptor, reset, clear and start: the half has been started once more and no old flag survives |
| `ChannelServer.Server.HwChannelOpen` | esp32p4_ev_function/drivers/gdma_axi/src/server.c:172-201 | exactly when a slot is opened, and that nothing else changes |
| `ChannelServer.Server.HwRxArm` | esp32p4_ev_function/drivers/gdma_axi/src/server.c:203-233 | exactly when a receive is armed; the slot then knows its start, no other half is touched |
| `ChannelServer.Server.HwTxArm` | esp32p4_ev_function/drivers/gdma_axi/src/server.c:274-307 | the same for a transmit |
| `ChannelServer.Server.AwaitHalf` | esp32p4_ev_function/drivers/gdma_axi/src/server.c:250-271 | whatever the notification, a count is returned only if the latest start of this half ended its frame, and is that frame's length cut to the armed one; any other answer than a time-out leaves the half stopped with its flags down |
| `ChannelServer.Server.HwRxWait` | esp32p4_ev_function/drivers/gdma_axi/src/server.c:235-272 | that for the armed slot, which is disarmed afterwards; channel isolation |
| `ChannelServer.Server.HwTxWait` | esp32p4_ev_function/drivers/gdma_axi/src/server.c:309-338 | the same for a transmit |
| `ChannelServer.Server.HwMemcpy` | esp32p4_ev_function/drivers/gdma_axi/src/server.c:340-404 | the errors, and that a copy starts both halves once for its length and succeeds only if its own start ended its frame; slots are untouched |
| `ChannelServer.CopyAnsweredExactly` | esp32p4_ev_function/drivers/gdma_axi/src/server.c:370-404 | a copy is answered OK exactly if it was notified and its own frame had ended when the status was read, EINVAL exactly if it was notified and had failed, else with a time-out |
| `ChannelServer.CopyMayBeExactly` | esp32p4_ev_function/drivers/gdma_axi/src/server.c:340-404 | each of these three answers can come about, and no other |
| `ChannelServer.Server.Serve` | esp32p4_ev_function/drivers/dma/src/server.c:325-362 | over every message sequence and all hardware and notification behaviour: every successful wait reports the frame of the arm before it; after a copy on the same slot it succeeds only if the copy timed out, and then reports the copy; the transcript is a run of the server |
| `ChannelServer.OnlySharedSlotIsOverridden` | esp32p4_ev_function/drivers/dma/src/server.c:188-217 | on slot 1 of the AHB server and on every AXI slot no copy comes in between |
| `ChannelServer.SlotsAre` | esp32p4_ev_function/drivers/gdma_axi/src/server.c:462-496 | slots 1 and 3 of the AXI server receive, 2 and 4 transmit and 0 copies; both AHB slots receive |
| `ChannelServer.CopyPassesExactly` | esp32p4_ev_function/drivers/dma/src/server.c:219-310 | in every state with slot 0 armed: a copy with a given reply can be followed by a wait that returns a count if and only if the reply was a time-out |
| `ChannelServer.CopyPassesForFrame` | esp32p4_ev_function/drivers/dma/src/server.c:165-310 | a whole transcript from power-up - open, arm, copy answered with a time-out, wait - in which the wait returns the length of the copy and the arm never received a frame |
| `ChannelServer.ClearBeforeResetIsNotEnough` | esp32p4_ev_function/drivers/gdma_axi/src/server.c:226-229 | with the flags cleared before the reset an old frame could pass for a new one; in the order of the code it cannot |
| `CanHandOff.ServerNeverBlocks` | tc275_lite/components/smp_can_demo/src/root_thread.c:49-107 | in every interleaving, time-outs or not: posted minus taken is 0 or 1 modulo 2^32, every RECV finds NEWDAT set, and the server never blocks in RECV |
| `CanHandOff.StepKeeps` | tc275_lite/drivers/can/src/server.c:362-419 | every step of both threads, the server and the message objects keeps the hand-off |
| `CanHandOff.NothingIsLost` | tc275_lite/components/smp_can_demo/src/root_thread.c:49-127 | while no send has timed out the k-th RECV returns the k-th frame sent, whole |
| `CanHandOff.FramesAscend` | tc275_lite/drivers/can/src/server.c:311-336 | time-outs or not, frames are received in order and none twice; a torn one is made of successive arrivals |
| `CanProgress.FramesKeepComing` | tc275_lite/components/smp_can_demo/src/root_thread.c:49-127 | the demonstration never stops: every run of so many steps has received a frame for every 21 of them but for a constant and 11 for each timed-out send, and some step is always possible, without a time-out unless a frame was lost |
| `CanProgress.SendIsToldExactly` | tc275_lite/drivers/can/src/server.c:290-308 | over all runs: a SEND that has loaded its frame is reported as sent exactly if the receive object was full then or a frame has arrived by the decision, the last look included |
| `CanProgress.RecvIsToldExactly` | tc275_lite/drivers/can/src/server.c:311-336 | over all runs: a RECV is answered with a frame exactly if there was one or one has arrived since, and takes it |
| `CanProgress.BlockedRecvEnds` | tc275_lite/drivers/can/src/server.c:362-419 | a RECV that blocks ends after the interrupt |
| `CanHandOff.StaleExactly` | tc275_lite/drivers/can/src/server.c:279-308 | a SEND can be reported as done with the frame of an earlier one if and only if NEWDAT is set when its frame is loaded |
| `CanHandOff.StaleHappens` | tc275_lite/drivers/can/src/server.c:279-336 | a run from the start: the first SEND times out, its frame arrives, the second SEND is reported as done, and the RECV that answers it returns the first frame |
| `Console.FmtPad` | esp32p4_ev_function/board_console.c:89-100 | padding as the unbounded formatter would write it, cut to the buffer |
| `Console.Reverse` | esp32p4_ev_function/board_console.c:105-111 | the scratch array of ten or sixteen always suffices and holds the digits reversed |
| `Console.FmtU32` | esp32p4_ev_function/board_console.c:102-119 | decimal text with padding, cut to the buffer |
| `Console.FmtI32` | esp32p4_ev_function/board_console.c:121-133 | sign, then padding, then the digits of the magnitude, for every 32-bit value |
| `Console.FmtHex` | esp32p4_ev_function/board_console.c:135-155 | hexadecimal text with padding, cut to the buffer |
| `Console.FmtStr` | esp32p4_ev_function/board_console.c:157-166 | the string or "(null)", cut to the buffer |
| `Console.ParseSpec` | esp32p4_ev_function/board_console.c:186-202 | flag, 32-bit width and letter of a conversion |
| `Console.Convert` | esp32p4_ev_function/board_console.c:204-268 | one conversion, cut to the buffer |
| `Console.Format` | esp32p4_ev_function/board_console.c:168-269 | for every well-formed format the buffer holds the first 160 characters of the unbounded expansion, and no write passes it |
| `Formatter.SignedReadsBack` | esp32p4_ev_function/board_console.c:121-133 | unpadded %d reads back as its argument for every int32, the least included |
| `FormatLaws.HexReadsBack` | esp32p4_ev_function/board_console.c:135-155 | hexadecimal digits of either case are 0-9 and A-F or a-f only, have no leading zero but for zero itself, and read back as the number |
| `FormatLaws.HexIsUnique` | esp32p4_ev_function/board_console.c:135-155 | there is only one such text |
| `FormatLaws.HexFieldIsPrinted` | esp32p4_ev_function/board_console.c:89-155 | a padded hexadecimal field is as long as the wider of width and digits, ends with the digits, and has zeros or blanks before them |
| `FormatLaws.SignedFieldIsPrinted` | esp32p4_ev_function/board_console.c:121-133 | a padded signed field is that of the magnitude behind a sign, one shorter |
| `FormatLaws.ConversionReadsBack` | esp32p4_ev_function/board_console.c:186-202 | a conversion written with flag, decimal width, length letter and letter is read as it was written, wherever it stands |
| `FormatLaws.FormatPrintsItsPieces` | esp32p4_ev_function/board_console.c:168-269 | every format written from plain characters and such conversions is accepted with the arguments they take and expands to what each prints, one after the other |
| `Formatter.DigitsSuffice` | esp32p4_ev_function/board_console.c:105-111 | n digits are enough below the n-th power of the base, so ten for %u |
| `Console.Server.Serve` | esp32p4_ev_function/board_services.c:98-108 | the UART receives the bytes of one message, newlines with a carriage return |
| `Console.Server.ConsoleWrite` | esp32p4_ev_function/board_console.c:26-53 | chunk by chunk the server puts out the same as one write of the whole text would, whatever the message buffer held behind a short chunk |
| `Console.Server.Printf` | esp32p4_ev_function/board_console.c:168-272 | the UART receives the first 160 characters of the expanded format |
| `Breakpoints.TriggerAddresses` | tc275_lite/openocd/patches/overlays/aurix.c:372-379 | triggers sit on even 32-bit addresses: the one asked for or one below, or one instruction behind the program counter |
| `Breakpoints.Target.FindFreeTrigSlot` | tc275_lite/openocd/patches/overlays/aurix.c:94-103 | the lowest free user slot; none exactly when seven breakpoints are set |
| `Breakpoints.FullExactly` | tc275_lite/openocd/patches/overlays/aurix.c:83-103 | all user slots are busy exactly when seven breakpoints are set, and never more are |
| `Breakpoints.Target.WriteTrig` | tc275_lite/openocd/patches/overlays/aurix.c:105-116 | how far a trigger is written follows from its two accesses, and no other slot changes |
| `Breakpoints.Target.AddBreakpoint` | tc275_lite/openocd/patches/overlays/aurix.c:664-701 | refused exactly when the type is not hardware or seven are set; otherwise it gets the lowest free slot; when the write fails it stays unset and its slot holds what was written |
| `Breakpoints.Target.RemoveBreakpoint` | tc275_lite/openocd/patches/overlays/aurix.c:715-725 | the slot is cleared and only this breakpoint changes; when the write fails it stays set and its slot holds what was written |
| `Breakpoints.Target.ReapplyBreakpoints` | tc275_lite/openocd/patches/overlays/aurix.c:123-138 | each owned slot holds its owner's trigger again, the others are untouched |
| `Breakpoints.Target.StepOnce` | tc275_lite/openocd/patches/overlays/aurix.c:360-419 | while the core runs slot 7 halts it at the next instruction and the breakpoints are in place; what is left in slot 7, from how far the first and the last write got; no breakpoint changes, and without a failed write the triggers are in order again |
| `Breakpoints.StepLeavesClearExactly` | tc275_lite/openocd/patches/overlays/aurix.c:383-418 | exactly when slot 7 is clear after a step, and exactly when what is left there would still halt the core: if the first write reached its event word only, or the last write nothing |
| `Breakpoints.StepLeavesLiveTrigger` | tc275_lite/openocd/patches/overlays/aurix.c:383-387 | a step whose first write fails half way: it fails, and a live trigger stays in the slot that was clear |
| `Breakpoints.StepSucceedsAndLeavesTrigger` | tc275_lite/openocd/patches/overlays/aurix.c:413-418 | a step whose last write fails: it succeeds, and its trigger stays |
| `Breakpoints.Target.DeassertResetHalt` | tc275_lite/openocd/patches/overlays/aurix.c:492-524 | from arbitrary trigger contents, whichever of the sixteen words a failing clear reached: a success leaves each slot exactly so, and the triggers in order if and only if the clear left nothing in the slots without an owner |
| `Breakpoints.ResetIsArmedExactly` | tc275_lite/openocd/patches/overlays/aurix.c:70-76 | that condition, for any breakpoints, contents and cleared words |
| `Breakpoints.ResetSucceedsAndLeavesTrigger` | tc275_lite/openocd/patches/overlays/aurix.c:505-509 | a reset whose clear fails: it succeeds, and a trigger without an owner stays live |
| `Breakpoints.Target.Session` | tc275_lite/openocd/patches/overlays/aurix.c:83-138 | over any sequence of add, remove, step and reset-halt, whichever accesses fail: the log of replies and failed writes fits and determines the breakpoints; the triggers are in order (distinct slots 0 to 6 hold their owners' triggers, the others none, slot 7 is clear) as long as no write fails, and again after a reset in which none did; if no access fails, no command does |
| `Tuning.FindWindow` | esp32p4_ev_function/board_psram_tune.c:228-253 | length and end of the first longest run |
| `Tuning.LongestIsUnique` | esp32p4_ev_function/board_psram_tune.c:228-253 | there is only one such answer |
| `Tuning.TableIsALine` | esp32p4_ev_function/board_psram_tune.c:72-78 | one step of the delay table is one step of data against strobe, with one of the two at zero |
| `Tuning.Tuner.SweepPhase` | esp32p4_ev_function/board_psram_tune.c:255-276 | one read at each phase; the chosen phase starts a longest run of the phases that were read right, and is one of them if any is |
| `Tuning.Tuner.SweepDelayline` | esp32p4_ev_function/board_psram_tune.c:278-309 | fifteen reads at each setting; the chosen delay is in the longest run of settings whose reads were all right, with distances to its ends that differ by at most one, when a run of two exists; else the first setting |
| `Tuning.Tuner.Tune` | esp32p4_ev_function/board_psram_tune.c:311-332 | both sweeps from cleared settings, the delays swept at the chosen phase; succeeds exactly when the read after them is right, with both choices applied |
| `Tuning.Tuner.Refine` | esp32p4_ev_function/board_psram_tune.c:340-405 | refused untouched without a window of 64 bytes; otherwise succeeds exactly when its reads show a run of two, takes its middle, and else keeps and re-applies the earlier setting |
| `Tuning.PickIsGoodExactly` | esp32p4_ev_function/board_psram_tune.c:298-302 | the delay sweep takes a good setting if and only if there is a run of two or the first setting is good |
| `Tuning.SingleGoodDelayIsPassedOver` | esp32p4_ev_function/board_psram_tune.c:298-302 | on a device that reads right at the sixth setting alone the sweep ends at the first, which reads wrong |
| `Pwm.EveryPeriodFits` | witte_linum/drivers/pwm/src/server.c:74-83 | every request of two or more ticks (short of the last 65536 of 32 bits) gives a prescaler and reload of 16 bits, the prescaler being the least whose full count covers the request |
| `Pwm.PeriodIsClose` | witte_linum/drivers/pwm/src/server.c:74-81 | the period made never exceeds the request and falls short by less than one part in 65536 |
| `Pwm.PrescalerIsLeast` | witte_linum/drivers/pwm/src/server.c:74-81 | at every accepted frequency no smaller prescaler gives a reload of 16 bits |
| `Pwm.AcceptsExactly` | witte_linum/drivers/pwm/src/server.c:67-76 | the frequencies that can be made are those from 1 Hz to half the timer clock |
| `Pwm.CompareGrows` | witte_linum/drivers/pwm/src/server.c:49 | up to duty 1000 the compare value grows with the duty from zero to the reload value |
| `Pwm.SafeDutyExactly` | witte_linum/drivers/pwm/src/server.c:49-51 | a duty keeps the compare value within the reload at every accepted frequency exactly when it is at most 1000 |
| `Pwm.ConfigExceedsReload` | witte_linum/drivers/pwm/src/server.c:58-103 | a CONFIG at 120 MHz with duty 2000, then enabled, leaves the compare value 2 above the reload 1 |
| `Pwm.Server.Configure` | witte_linum/drivers/pwm/src/server.c:58-103 | accepted exactly for a mapped channel and a frequency from 1 Hz to half the clock; reload and least prescaler divide the clock down to it, the duty is not looked at, the counter is left stopped, and no other register changes |
| `Pwm.Server.SetDuty` | witte_linum/drivers/pwm/src/server.c:162-167 | accepted exactly up to 1000 on a configured channel; only its compare value changes and is then at most the reload |
| `Pwm.Server.SetEnable` | witte_linum/drivers/pwm/src/server.c:105-126 | accepted exactly on a configured channel; compare value, output and counter afterwards, and no other register |
| `Pwm.Server.Serve` | witte_linum/drivers/pwm/src/server.c:153-173 | over any messages: which are answered OK, by the messages before them, and every field of each channel and timer afterwards - last accepted frequency, duty and switch, least prescaler, compare value, and a counter that runs exactly if it was switched on since the last CONFIG |

## Left out

- Bring-up of clocks, PLL, PMP, watchdog, PHY, SDRAM and panels, linker scripts and shell scripts: straight-line register writes.
- The ulmk kernel, iLLD, STM32 LL, ESP ROM and the OpenOCD core are not part of this model; only the contracts above are used.
- `*_dm` adapters other than the rectangle loop of display_dm, LEDs, device tables and forwarding clients: easy members only.
- LTDC present on the Linum board: it depends on the timing of a hardware reload that the code does not show.
- Caches inside the DMA slot structure and during scan-out, memory fences, spontaneous cache eviction during DMA: the protocol models are on flat memory.
- The DMA model assumes that completion raises the flag and disables the stream, that reading or writing one register or field is one step, and that a client keeps the arm/wait discipline; LOAD data of the step system are whole sequences, their packing is in `DmaTransfer`. Which caller the dispatcher takes next is free, so only requests it has taken are claimed to be answered.
- In the DMA step system LOAD offsets and lengths are added without wrap-around, as the client sends them; `DmaTransfer` has the 32-bit sum. What a load that strays writes outside the buffer is not modelled.
- `CacheArea` takes rectangles with non-negative coordinates; the flushes on the Linum board also take them inside the stride and below the top of the 32-bit space, so that row addresses do not wrap; plain ranges may. The kernel is taken to walk a range modulo the size of the space. The sizes of the present header and of a listed rectangle are parameters: the structure definitions are not part of this model.
- `ScanOut` assumes that the interrupt handler is atomic with respect to the presenter, and buffers are two distinct ones; the panel's timing is not modelled, and a scan ends or not.
- Spin limits of cache, flash, UART and CAN hardware: a cache operation retires; a poll of the flash or a CAN spin may give up at any time.
- `ChannelServer` does the two halves of a copy one after the other; the code interleaves their independent register writes. Cache maintenance around the transfers is left to the cache model. Peripheral selection registers are not modelled.
- `Flash` does not model ECC, protection or the OCDS queue; what erased flash reads is a constant nothing depends on. The 32-bit page offset of the write loop would wrap only for buffers of nearly 4 GiB; offsets are bounded by the bank.
- `FlashImage`: file access; a segment that would end beyond the 32-bit space is excluded from `SegmentArrives`, as the printed addresses then wrap; `ElfFile` writes whole header tables, files cut off inside the table are covered by `SegmentsExactly`.
- Formats that end inside a conversion, for which the code reads past the end, and arguments that do not fit their conversion. `long` is 32 bits wide, as on the target. Atomicity of lines between clients is not claimed: a line is several messages.
- The text before the console server exists goes out character by character; what the kernel's character output does with newlines is not part of this model.
- In the breakpoint model halting, resuming, waiting and polling are one access each, whose failure changes nothing; debug reasons, stepping over taken branches and re-examination are left out; the address of the next instruction is a parameter, and the list of breakpoints is a sequence owned by the target.
- What a PSRAM read gives is an arbitrary function of its number and the settings; `set_bus_mhz`, the reference pattern and `pattern_word` are constants. Noise between the sweep and the last verification is not bounded.
- ESP LEDC, DSI timing and ADC pattern arithmetic: constants only.
