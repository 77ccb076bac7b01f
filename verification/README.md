# Verified model of the Adreno A5xx submission path

A Dafny model of the parts of the Adreno A5xx kernel driver that schedule work on the GPU, of the
command streams that work consists of, and of four self-contained companions. `dafny verify
dfyconfig.toml` checks it.

| files | what they model |
|---|---|
| `PreemptProtocol` | ring-buffer preemption as a concurrent state machine: any number of driver threads with program counters, per-ring write pointers, preemption records, the CP's registers, the timer and the hardware |
| `PreemptInvariant`, `PreemptRuns`, `PreemptQuiet`, `PreemptAlone`, `PreemptFresh`, `PreemptDrain` | its invariant, and what follows for whole runs: safety, FIFO refinement, conservation, boundedness, freshness of the write pointer register, progress |
| `PreemptDevice` | the driver's own functions as methods of a device object, each equal to a protocol thread that runs undisturbed |
| `Pm4`, `Pm4Machine` | packet headers, framing, and an interpreter for the packets the driver emits |
| `Pm4Commands`, `Pm4Meaning`, `Pm4Emit` | the wrapper around a command body: its packets, its meaning, and the code that writes it |
| `Ringbuffer` | the circular buffer: reserving space, wrapping, publishing |
| `CommandBody`, `PageTables`, `Submission`, `LostSwitch` | the command body built from a list of indirect buffers (IBs), page-table switches, a submission from end to end, and two that lose a page-table switch |
| `RegSequence`, `Firmware`, `GpmuLoad` | the register-sequence interpreter, the firmware block readers and the GPMU packetizer |
| `FaultTable`, `CrashScript`, `CrashDumper`, `CrashReadback`, `Touch`, `AhbTimeout` | the sorted table of faulting processes, the two-pass crash-dump script and its readers, the fingerprint handler's touch slots, the AHB timeout |

## Assumptions of the preemption protocol

They are all visible in `PreemptProtocol.Apply`.

- The section of a submission under `preempt_lock` is one step. State changes do not take that lock,
  and every other step may come between any two steps of a thread.
- Storing TRIGGERED and writing CONTEXT_SWITCH_CNTL is one step. The source relies on the order of the
  two stores; `InterruptInsideFireBreaksAgreement` shows what a CP_SW interrupt between them would do.
- The CP saves and restores the read and write pointers through the preemption record, as documented
  at adreno_a5xx.h:50-77, and switches only at the yield that ends a submission.
- The scheduler and the timeout worker hold the device mutex. The timer may fire at any time; power
  being off shows only as a register read that fails.
- A restart happens when no thread is inside the driver. It forces NONE and does not clear `next_rb`.
- Positions in a ring are counted in submissions since the last restart; `Ringbuffer` counts words.

## Where the code differs from what it is meant to do

Each has a theorem with the exact condition and an input or a whole family of states at which it
happens.

- In NONE the write pointer register can be behind `cur_rb`: a submission that finds another state
  is not seen until the next register update (`RegisterIsFreshIff`, `LateSubmissionIsNotSeen`,
  `SubmissionBehindTheScanIsNotSeen`).
- A context switch that finds no room is ignored, and the context's IBs then run under the table in
  force before; a context with the default page table gets no update at all, so that another
  context's table stays in force (`SubmitCmd`, `SwitchWithoutRoom`, `DefaultTableIsNotRestored`).
- A GPMU image with a bad length, type or size is not loaded, yet zero is returned
  (`SilentlyNotLoadedIff`, `BadLengthIsSilent`).
- 64-bit register writes of the LM sequence keep only the low halves (`WritesAreTruncated`,
  `UpperHalvesAreLost`).
- A process with an empty name can get several entries in the fault table (`DistinctIff`,
  `TwoEntriesForTheEmptyName`).
- The GPMU registers and the shader banks above the first are read back from the wrong place
  (`GpmuReadbackIff`, `GpmuReadbackWrong`, `BankReadbackIff`).
- INTR2 can stay high after all fingers have left (`LineAfterPass`,
  `LiftingTwoAtOnceLeavesTheLineHigh`).
- adreno.c describes the AHB timeout as below the NOC timeout; this fails when the 64-bit cycle
  count wraps (`TrueCountIffNoWrap`, `WrappedProductGivesAResult`).

## Model

| member | source | states |
|---|---|---|
| PreemptInvariant.StepKeepsInv | qcom/opensource/graphics-kernel/adreno_a5xx_preempt.c:19-318 | every atomic step of every driver thread, of the timer, of a submitter and of the CP keeps the global invariant (rings, records, page tables, phase of the switch, owner of each state, what each thread relies on at each program point) |
| PreemptInvariant.InitialInv | qcom/opensource/graphics-kernel/adreno_a5xx_preempt.c:413-462 | a started GPU satisfies the invariant |
| PreemptInvariant.RestartKeepsInv | qcom/opensource/graphics-kernel/adreno_a5xx.c:1817-1909 | a restart re-establishes the invariant: the state is NONE on the given ring, next_rb is left alone, CNTL is clear, and every ring is empty with a zeroed record and the default table |
| PreemptRuns.HardwareAgrees | qcom/opensource/graphics-kernel/adreno_a5xx_preempt.c:19-301 | after any run: in NONE and START the CP runs cur_rb; from TRIGGERED to COMPLETE it runs cur_rb until CNTL reads 0 and next_rb after; next_rb is set in TRIGGERED and FAULTED, stays set until the swap in PENDING and COMPLETE, and differs from cur_rb; the hardware write pointer never passes the published wptr of the ring being run |
| PreemptRuns.SubmitWritesItsOwnRing | qcom/opensource/graphics-kernel/adreno_a5xx_ringbuffer.c:85-92 | a submission that writes the register writes it for the ring the CP runs, with that ring's new wptr; in NONE on cur_rb it always does |
| PreemptRuns.FifoPerRing | qcom/opensource/graphics-kernel/adreno_a5xx_preempt.c:169-301 | the multi-ring machine refines one FIFO per ring: a ring holds exactly the submissions the run has given it since the last restart, in order; what the CP ran from it is a prefix of that list, each submission under the last page table switched to before it in that list, whatever switches, timeouts and callbacks came between |
| PreemptRuns.RingsHoldWhatWasGiven | qcom/opensource/graphics-kernel/adreno_a5xx_ringbuffer.c:85-92 | no step but a submission to a ring changes what that ring holds, a submission adds exactly itself at the end, and a restart empties it |
| PreemptRuns.PageTablesAgree | qcom/opensource/graphics-kernel/adreno_a5xx_preempt.c:215-234 | page-table agreement: the table in force and the running ring's scratch slot, and the table copied to smmu_info for the incoming ring, are the ones those rings last switched to, or their start-up default |
| PreemptRuns.SwitchSavesTheOutgoingRing | qcom/opensource/graphics-kernel/adreno_a5xx.h:50-77 | every hardware switch saves the outgoing ring's pointers in that ring's own record, loads next_rb and touches no other ring |
| PreemptRuns.PendingSwitchNeverWedges | qcom/opensource/graphics-kernel/adreno_a5xx_preempt.c:237-253 | while CNTL is set the CP can execute towards a yield or switch |
| PreemptRuns.OneOwner | qcom/opensource/graphics-kernel/adreno_a5xx_preempt.c:178-205 | START and PENDING have exactly one owner each, trigger and callback exclude each other, and the callback and COMPLETE paths never both stand before the swap |
| PreemptRuns.TriggersBalance | qcom/opensource/graphics-kernel/adreno_a5xx_preempt.c:256-301 | between restarts, triggers fired, hardware switches and swaps of cur_rb/next_rb balance exactly |
| PreemptRuns.CompletedAtMostOnce | qcom/opensource/graphics-kernel/adreno_a5xx_preempt.c:46-95 | each triggered preemption is completed at most once, and never before the hardware has switched |
| PreemptFresh.RegisterIsFreshIff | qcom/opensource/graphics-kernel/adreno_a5xx_preempt.c:19-44 | in every reachable NONE state the register holds cur_rb's wptr iff no submission to cur_rb has found another state since the last _update_wptr, submission in NONE or restart; otherwise it is behind |
| PreemptFresh.LateSubmissionIsNotSeen | qcom/opensource/graphics-kernel/adreno_a5xx_preempt.c:287-298 | a window: a submission to cur_rb between the last register update and the store of NONE leaves the register behind, from every such state |
| PreemptFresh.SubmissionBehindTheScanIsNotSeen | qcom/opensource/graphics-kernel/adreno_a5xx_preempt.c:183-204 | a window: the same for a submission to cur_rb after the scan has passed it, when no later ring has work |
| PreemptRuns.InterruptInsideFireBreaksAgreement | qcom/opensource/graphics-kernel/adreno_a5xx_preempt.c:250-253 | why storing TRIGGERED and writing CNTL is modelled as one step: a CP_SW interrupt between them makes the callback swap rings although the CP has not switched |
| PreemptQuiet.RunConservesWork | qcom/opensource/graphics-kernel/adreno_a5xx_preempt.c:148-167 | without submissions, outstanding work falls by exactly one per execution and by nothing else |
| PreemptQuiet.SwitchesGetLessUrgent | qcom/opensource/graphics-kernel/adreno_a5xx_preempt.c:169-205 | once submissions stop and the state is NONE, the rings switched to have strictly increasing index, so each is switched to at most once |
| PreemptQuiet.QuietRunIsBounded | qcom/opensource/graphics-kernel/adreno_a5xx_preempt.c:169-301 | such a run fires, switches and swaps at most once per ring and executes at most the outstanding submissions |
| PreemptAlone.NoStrandedWork | qcom/opensource/graphics-kernel/adreno_a5xx_preempt.c:169-254 | a trigger that runs undisturbed from NONE ends in NONE on the most urgent busy ring with an up-to-date register, or in TRIGGERED with next_rb that ring, its record holding its current wptr and its table in smmu_info; with no work it changes nothing |
| PreemptAlone.TriggerAlone | qcom/opensource/graphics-kernel/adreno_a5xx_preempt.c:178-205 | the whole trigger of one undisturbed thread, from the compare-and-exchange to its return, for every starting state |
| PreemptAlone.RunAloneIsARun | qcom/opensource/graphics-kernel/adreno_a5xx_preempt.c:169-318 | an undisturbed thread is one of the runs of the concurrent machine and always returns |
| PreemptDrain.EverythingCanBeExecuted | qcom/opensource/graphics-kernel/adreno_a5xx_preempt.c:19-318 | from every reachable state with no thread inside the driver (switch in progress, timed out or handed to the scheduler included) some run without submissions or restarts executes everything the run so far has given every ring, in order and under the right tables |
| PreemptDrain.Progress | qcom/opensource/graphics-kernel/adreno_a5xx_preempt.c:46-145 | from any such state with work left, a quiet continuation brings an execution closer by a lexicographic measure |
| PreemptDevice.AdrenoDevice.constructor | qcom/opensource/graphics-kernel/adreno_a5xx_preempt.c:413-462 | the device as started is an initial state of the protocol |
| PreemptDevice.AdrenoDevice.NextRingbuffer | qcom/opensource/graphics-kernel/adreno_a5xx_preempt.c:148-167 | the scan returns the lowest-numbered ring with work, or none exactly if all rings are empty |
| PreemptDevice.AdrenoDevice.UpdateWritePointer | qcom/opensource/graphics-kernel/adreno_a5xx_preempt.c:19-44 | the register ends equal to cur_rb's wptr and nothing else changes |
| PreemptDevice.AdrenoDevice.MoveState | qcom/opensource/graphics-kernel/adreno.h:1960-1964 | compare-and-exchange of the preemption state |
| PreemptDevice.AdrenoDevice.Trigger | qcom/opensource/graphics-kernel/adreno_a5xx_preempt.c:169-254 | from NONE: nothing if no ring has work; the register brought up to date if the first ring with work is cur_rb; otherwise TRIGGERED with next_rb that ring, its record's wptr and smmu_info its own, the restore address and CNTL set; from any other state nothing; and this is the protocol's trigger thread run alone |
| PreemptDevice.AdrenoDevice.PreemptCallback | qcom/opensource/graphics-kernel/adreno_a5xx_preempt.c:256-301 | outside TRIGGERED nothing; with CNTL set COMPLETE and nothing else; otherwise prev_rb, cur_rb and next_rb move up, the register is cur_rb's wptr, and a trigger follows; and this is the protocol's callback thread run alone |
| PreemptDevice.AdrenoDevice.PreemptionDone | qcom/opensource/graphics-kernel/adreno_a5xx_preempt.c:46-95 | completing a COMPLETE switch: nothing if asleep, a fault and nothing else if CNTL is still set, else the swap, NONE and the register update |
| PreemptDevice.AdrenoDevice.PreemptionSchedule | qcom/opensource/graphics-kernel/adreno_a5xx_preempt.c:303-318 | the scheduler's call: completion of a COMPLETE switch, then a trigger, with the outcome of each case; and this is the protocol's scheduler thread run alone |
| PreemptDevice.AdrenoDevice.FaultWorker | qcom/opensource/graphics-kernel/adreno_a5xx_preempt.c:97-145 | FAULTED becomes COMPLETE if the switch has finished after all, else a fault is queued; from any other state nothing |
| PreemptDevice.AdrenoDevice.PreemptionTimer | qcom/opensource/graphics-kernel/adreno_ringbuffer.c:156-169 | the timer moves TRIGGERED to FAULTED and changes nothing otherwise |
| PreemptDevice.AdrenoDevice.RingbufferSubmit | qcom/opensource/graphics-kernel/adreno_a5xx_ringbuffer.c:85-92 | the section under preempt_lock: the ring holds the submission at its end, its write pointer is one further, what it has executed, its table and its record stay, every other ring stays, and the register is written iff the state is NONE and it is cur_rb |
| Pm4.ParityIsOdd | qcom/opensource/graphics-kernel/adreno_pm4types.h:157-163 | a word and its parity bit hold an odd number of ones, for every 32-bit word |
| Pm4.Header7RoundTrip | qcom/opensource/graphics-kernel/adreno_pm4types.h:173-201 | a type 7 header is recognised as type 7 and gives back its opcode and count |
| Pm4.Header4RoundTrip | qcom/opensource/graphics-kernel/adreno_pm4types.h:165-190 | a type 4 header is recognised as type 4, and not as type 7, and gives back its register and count |
| Pm4.Header7Layout | qcom/opensource/graphics-kernel/adreno_pm4types.h:173-180 | the opcode stands at bit 16, the count at bit 0, and bits 23 and 15 make the ones of either field odd |
| Pm4.Header4Layout | qcom/opensource/graphics-kernel/adreno_pm4types.h:165-171 | the register stands at bit 8, the count at bit 0, and bits 27 and 7 make the ones of either field odd |
| Pm4.RoundTrip | qcom/opensource/graphics-kernel/adreno_pm4types.h:165-201 | parsing the encoding of any packet list gives back that list |
| Pm4.ParseConcat | qcom/opensource/graphics-kernel/adreno_pm4types.h:182-201 | framed words followed by words parse to both packet lists, in order |
| Pm4.Put | qcom/opensource/graphics-kernel/adreno_a5xx_ringbuffer.c:153-184 | writing one packet word by word appends its encoding and touches nothing else |
| Pm4Commands.WrapperIsSmall | qcom/opensource/graphics-kernel/adreno_a5xx_ringbuffer.c:134-151 | for every flag, context, profiling and preemption combination the wrapper takes no more than the 64 words reserved for it |
| Pm4Meaning.PrologueRuns | qcom/opensource/graphics-kernel/adreno_a5xx_ringbuffer.c:159-200 | running what precedes the body has exactly the listed effects in the listed modes and ends in the body's mode |
| Pm4Meaning.EpilogueRuns | qcom/opensource/graphics-kernel/adreno_a5xx_ringbuffer.c:205-277 | the same for what follows the body, ending protected and not secure |
| Pm4Meaning.WrappedRuns | qcom/opensource/graphics-kernel/adreno_a5xx_ringbuffer.c:136-285 | the body runs unprotected iff NOTPROTECTED and secure iff SECURE; the stream ends with protected mode on and secure mode off, whatever the flags |
| CommandBody.StampsFrameTheSubmission | qcom/opensource/graphics-kernel/adreno_a5xx_ringbuffer.c:174-262 | in the run of a whole submission, body included, start timestamps are written before the body and not later, end timestamps after it and not earlier; from the body on the only plain memory write is the interrupt-storm marker |
| Pm4Meaning.WrapperWritesOnlyTheSaveAddress | qcom/opensource/graphics-kernel/adreno_a5xx_preempt.c:320-393 | the only registers the wrapper writes are the two save-address registers, unprotected, with the address of this ring's record |
| CommandBody.YieldEndsTheSubmission | qcom/opensource/graphics-kernel/adreno_a5xx_preempt.c:395-411 | with preemption the yield is the last effect of a whole submission and its only yield; without, there is none |
| Ringbuffer.PadIsNop | qcom/opensource/graphics-kernel/adreno_ringbuffer.c:76-93 | a wrap leaves one framed NOP covering exactly the rest of the buffer |
| Ringbuffer.AppendIntoFree | qcom/opensource/graphics-kernel/adreno_ringbuffer.c:66-103 | writing into a free run leaves the unread words alone and appends to them |
| Ringbuffer.Ringbuffer.AllocSpace | qcom/opensource/graphics-kernel/adreno_ringbuffer.c:66-103 | for every 32-bit request whose sum with the head does not wrap: success exactly when there is a contiguous free run; the run is clear of everything unread and the head never catches the read pointer; failure changes nothing. A sum that wraps always succeeds and moves the head back |
| Ringbuffer.Ringbuffer.Submit | qcom/opensource/graphics-kernel/adreno_a5xx_ringbuffer.c:62-95 | publishes everything written and writes the register iff told the ring runs; with sync it first queues a read-pointer report and fails without effect if there is no room for that |
| Ringbuffer.Ringbuffer.AddCmds | qcom/opensource/graphics-kernel/adreno_a5xx_ringbuffer.c:136-285 | error codes and their exact conditions; the timestamp is one more than before, or 0 after 0xFFFFFFFF, whenever the call gets as far as asking for room, and so is the sequence number of a success; a success publishes everything written, and the ring's history grows by the pad, the body wrapped with these numbers and, with preemption off, the read-pointer report, which always finds room |
| Ringbuffer.WrappedIsSmall | qcom/opensource/graphics-kernel/adreno_a5xx_ringbuffer.c:278-282 | the wrapper leaves at least three of its reserved words, which is why the report after it finds room |
| Ringbuffer.Ringbuffer.Fetched | qcom/opensource/graphics-kernel/adreno_ringbuffer.c:66-103 | words leave the ring in the order they entered |
| Ringbuffer.AppendedMeaning | qcom/opensource/graphics-kernel/adreno_a5xx_ringbuffer.c:136-285 | read together with everything before it, one call keeps the ring framed, returns the CP to kernel mode, and makes it do exactly the wrapper around the body, wrapped around or not |
| Ringbuffer.AppendedNumbers | qcom/opensource/graphics-kernel/adreno_a5xx_ringbuffer.c:153-262 | what one call adds stores the timestamp it drew when it starts, signals that timestamp when it ends, and writes the marker with the sequence number it drew |
| Submission.Submitter.Queue | qcom/opensource/graphics-kernel/adreno_a5xx_ringbuffer.c:136-285 | over any history: each call draws the next timestamp, each success the next sequence number; what the CP does additionally is the body in the mode asked for between a start store and an end stamp of these numbers |
| CommandBody.VerifyIbs | qcom/opensource/graphics-kernel/adreno.c:3528-3556 | a command list passes iff every IB is word aligned, not empty, of at most 0xFFFFF words, and lies inside one window of the page table without passing 2^64 |
| CommandBody.MaskIsLossless | qcom/opensource/graphics-kernel/adreno_a5xx_ringbuffer.c:463-464 | the size mask loses nothing exactly when the size passes the size check |
| CommandBody.VerifiedIbStaysInside | qcom/opensource/graphics-kernel/adreno.c:3504-3526 | an accepted IB is called for all its whole words, which lie inside one window of the page table without wrap-around |
| CommandBody.SkippedIbIsCovered | qcom/opensource/graphics-kernel/adreno_a5xx_ringbuffer.c:454-464 | the four words of a skipped call are exactly the payload of the NOP before it |
| CommandBody.BodyCalls | qcom/opensource/graphics-kernel/adreno_a5xx_ringbuffer.c:423-497 | in any mode the body calls, between the profiling calls, exactly the nodes of the list that are not marked to be skipped and are not unwanted preambles, none if everything is skipped, in list order, each with its address and its size in words |
| CommandBody.BodyRuns | qcom/opensource/graphics-kernel/adreno_a5xx_ringbuffer.c:423-497 | everything the body does, in order: the always-on counter read into the kernel's start entry, the first profiling call, the wanted calls, the end of rendering and the yield point, the counter read into the end entry, the last profiling call |
| CommandBody.ProfilePage.UserProfilingIb | qcom/opensource/graphics-kernel/adreno_a5xx_ringbuffer.c:307-331 | fills the next slot with the counter read, calls the byte address of that slot for its four words, leaves the others alone, moves to the next slot modulo 256 |
| CommandBody.BuildBody | qcom/opensource/graphics-kernel/adreno_a5xx_ringbuffer.c:412-497 | the buffer allocated always suffices, its contents encode the body's packets, and the two profiling slots of one submission are different and read the counter into the user's buffer at bytes 24 and 32 |
| PageTables.SwitchMovesBoth | qcom/opensource/graphics-kernel/adreno_a5xx_ringbuffer.c:14-50 | the context-switch commands set the table in force and the ring's scratch slot to the same new values, or neither |
| PageTables.SwitchRuns | qcom/opensource/graphics-kernel/adreno_a5xx_ringbuffer.c:14-50 | everything the context-switch commands do, in order: with an update the table and, with register 0x831 set around it, the slot; then both current-context words and the cache invalidation |
| PageTables.WrappedTables | qcom/opensource/graphics-kernel/adreno_a5xx_ringbuffer.c:136-285 | the wrapper moves neither |
| Submission.QuietRan | qcom/opensource/graphics-kernel/adreno_a5xx_ringbuffer.c:412-497 | a stream that leaves the table alone runs all its calls under the table it found |
| Submission.AppendedView | qcom/opensource/graphics-kernel/adreno_a5xx_ringbuffer.c:136-285 | one successful addcmds changes the table, the slot and the list of IBs run exactly as its wrapped body does |
| Submission.SwitchView | qcom/opensource/graphics-kernel/adreno_a5xx_ringbuffer.c:333-369 | a context switch moves table and slot together, or neither, and runs no IB |
| Submission.Submitter.constructor | qcom/opensource/graphics-kernel/adreno.h:1865-1883 | at start the slot holds the table in force |
| Submission.Submitter.SwitchContext | qcom/opensource/graphics-kernel/adreno_a5xx_ringbuffer.c:333-369 | table and slot move to the context's table and id iff the call succeeds, the table differs from the active context's (or none is active) and is not the default one; it succeeds iff the GPU is not faulted and there is room for 64 + 30 words, 64 + 12 without an update; the commands run unprotected |
| Submission.Submitter.SwitchTo | qcom/opensource/graphics-kernel/adreno_a5xx_ringbuffer.c:371-396 | the new context becomes active even if its switch was not queued (the code ignores that error); the table moves exactly when a switch was tried, needed one and found room |
| Submission.Submitter.SubmitCmd | qcom/opensource/graphics-kernel/adreno_a5xx_ringbuffer.c:412-528 | end to end over any history: on success the CP additionally runs exactly the wanted nodes of the list in order, between the profiling IBs, all under one table; that is the new context's own if the context was not active, its table is neither the active one's nor the default one and there was room for 64 + 30 words, and the one in force before otherwise; the scratch slot always holds it; the timestamp rises by one, or by two with a switch, and the submission is stamped with it; with no switch queued it succeeds exactly when the body finds room |
| LostSwitch.SwitchWithoutRoom | qcom/opensource/graphics-kernel/adreno_a5xx_ringbuffer.c:371-396 | the exception occurs: on a nearly full ring the switch is lost, the call succeeds, and the new context's IB runs under the old table |
| LostSwitch.DefaultTableIsNotRestored | qcom/opensource/graphics-kernel/adreno_a5xx_ringbuffer.c:22-23 | the exception occurs: switching to a context with the default page table leaves another table in force |
| RegSequence.ExecuteRegSequence | qcom/opensource/graphics-kernel/adreno_a5xx.c:902-932 | success exactly on words that encode some operation list, which is then performed one action per operation, writes with the lower halves of register and value and delays with their microseconds; otherwise the longest encoded prefix is performed and an error returned; all reads in bounds, always terminates |
| RegSequence.Longest | qcom/opensource/graphics-kernel/adreno_a5xx.c:902-932 | the operation encoding is a prefix code: a list stopping where no operation starts extends every other |
| RegSequence.EncodingIsUnique | qcom/opensource/graphics-kernel/adreno_a5xx.c:902-932 | a word array encodes at most one operation list |
| RegSequence.WritesAreTruncated | qcom/opensource/graphics-kernel/adreno_a5xx.c:908-922 | a register write does what the operation says iff register and value fit in 32 bits (the register accessor takes 32-bit arguments) |
| RegSequence.UpperHalvesAreLost | qcom/opensource/graphics-kernel/adreno_a5xx.c:908-922 | the exception occurs: two writes that lose the upper half of their register and of their value |
| Firmware.ReadFw2BlockHeader | qcom/opensource/graphics-kernel/adreno_a5xx.c:765-814 | accepts exactly the headers of even size 2 to 10, below the remaining words, with a valid sequence field first where required, in which every version field 1 is 0 or not older than wanted; reads stay in the header |
| Firmware.LoadRegfile | qcom/opensource/graphics-kernel/adreno_a5xx.c:838-900 | visits the blocks a file starts with up to the first bad one; succeeds iff the whole file is tiled by valid blocks and an LM slice is known after them; on any tiled file the slice is what those blocks say; on failure a slice found earlier stays set |
| Firmware.TiledFileIsVisitedExactly | qcom/opensource/graphics-kernel/adreno_a5xx.c:860-893 | in a file tiled by valid blocks it visits exactly the block boundaries |
| Firmware.LmSliceIsTheOpcodes | qcom/opensource/graphics-kernel/adreno_a5xx.c:876-890 | the LM slice is the opcode section of the last LM block and ends exactly where that block ends |
| Firmware.SmallestLmFile | qcom/opensource/graphics-kernel/adreno_a5xx.c:838-900 | a concrete seven-word file of one LM block is accepted and its slice is the two opcode words |
| GpmuLoad.LoadGpmuFirmware | qcom/opensource/graphics-kernel/adreno_a5xx.c:555-619 | for every file: load commands are built iff the image is well formed; the slice ends at its block's end; only a bad header gives a non-zero return |
| GpmuLoad.SilentlyNotLoadedIff | qcom/opensource/graphics-kernel/adreno_a5xx.c:587-611 | an image is neither loaded nor reported iff its length or type is wrong, or its header is good and it is too large |
| GpmuLoad.BadLengthIsSilent | qcom/opensource/graphics-kernel/adreno_a5xx.c:587-591 | the exception occurs: a file with a bad length and one with a wrong type |
| GpmuLoad.CreateLoadCmds | qcom/opensource/graphics-kernel/adreno_a5xx.c:493-548 | for every image and packet limit the packets fit size + size/limit + 1 + 4 words |
| GpmuLoad.ChunksPoke | qcom/opensource/graphics-kernel/adreno_a5xx.c:524-541 | however the image is cut up, running the chunks stores it word by word |
| GpmuLoad.LoadRoundTrip | qcom/opensource/graphics-kernel/adreno_a5xx.c:493-548 | running the packets leaves exactly the image at consecutive registers from 0x8800, every other register alone, and the CP protected |
| FaultTable.FaultStats.AddProcFault | qcom/opensource/graphics-kernel/adreno.c:3886-3949 | the two scans and the swap equal the specification of one fault, counter wrap-around included |
| FaultTable.FaultKeepsOrder | qcom/opensource/graphics-kernel/adreno.c:3886-3949 | a fault keeps the table sorted, raises at most one count (by exactly one if tracked), lowers none, and the head reaches the process's own count |
| FaultTable.DistinctIff | qcom/opensource/graphics-kernel/adreno.c:3900-3912 | names stay distinct iff it is not the case that the name is empty, already occupies an entry and the last entry is free |
| FaultTable.TwoEntriesForTheEmptyName | qcom/opensource/graphics-kernel/adreno.c:3900-3912 | the exception occurs: two faults of a process with an empty name leave two entries |
| FaultTable.EveryHistoryIsSound | qcom/opensource/graphics-kernel/adreno.c:3886-3949 | after any history: sorted; no entry and no own count exceeds the true number of faults; the head reaches every process's own count |
| FaultTable.EveryHistoryIsDistinct | qcom/opensource/graphics-kernel/adreno.c:3886-3949 | after any history without empty names, occupied entries have distinct names |
| FaultTable.SmallHistoriesAreExact | qcom/opensource/graphics-kernel/adreno.c:3886-3949 | while at most ten names have faulted nobody is evicted and every entry is the true count |
| CrashScript.ScriptFillsTheBuffer | qcom/opensource/graphics-kernel/adreno_a5xx_snapshot.c:1146-1181 | for arbitrary tables, running the script fills the data buffer with exactly the intended image |
| CrashScript.RegionsTile | qcom/opensource/graphics-kernel/adreno_a5xx_snapshot.c:1148-1177 | the destination regions are disjoint and tile the buffer |
| CrashScript.ImageAt | qcom/opensource/graphics-kernel/adreno_a5xx_snapshot.c:1044-1067 | each read's words stand where the reads before it end |
| CrashDumper.InitShader | qcom/opensource/graphics-kernel/adreno_a5xx_snapshot.c:1014-1042 | all four banks are emitted in order and the block remembers the first bank's offset |
| CrashDumper.CrashdumpInit | qcom/opensource/graphics-kernel/adreno_a5xx_snapshot.c:1069-1181 | the second pass emits exactly script_size + 16 bytes, ends at offset data_size, and records every block's offset; data_size is four bytes for each of the end - start + 1 registers of every range, for four banks of each shader block and for each set, and the offsets are the same sum over what comes before |
| CrashReadback.SnapshotRegisters | qcom/opensource/graphics-kernel/adreno_a5xx_snapshot.c:679-722 | whole ranges are paired with the buffer's words from its start as long as they fit the section; the returned size never exceeds the room |
| CrashReadback.DumpIsTheImage | qcom/opensource/graphics-kernel/adreno_a5xx_snapshot.c:724-766 | running a finished script on the buffer leaves exactly the image in it |
| CrashReadback.MainRoundTrip | qcom/opensource/graphics-kernel/adreno_a5xx_snapshot.c:679-722 | each main register is read back with its own value |
| CrashReadback.FlatLists | qcom/opensource/graphics-kernel/adreno_a5xx_snapshot.c:672-677 | register k of range j, both ends included, stands at the number of registers of the earlier ranges plus k - start |
| CrashReadback.PlacesCover | qcom/opensource/graphics-kernel/adreno_a5xx_snapshot.c:672-677 | and every position below the total belongs to such a register |
| CrashReadback.HlsqRoundTrip | qcom/opensource/graphics-kernel/adreno_a5xx_snapshot.c:768-780 | each HLSQ, SP and TP register is read back with the word the aperture showed for it |
| CrashReadback.BankSlice | qcom/opensource/graphics-kernel/adreno_a5xx_snapshot.c:1014-1042 | bank j of a shader block stands j block sizes after the block's offset and holds what the aperture showed under the block's selector plus j |
| CrashReadback.DumpHlsqSpTp | qcom/opensource/graphics-kernel/adreno_a5xx_snapshot.c:782-806 | all sets from their recorded offsets or, if they do not fit the section, nothing |
| CrashReadback.DumpAndReadBack | qcom/opensource/graphics-kernel/adreno_a5xx_snapshot.c:1069-1181 | end to end, for any tables and any register file: build the script, run it, read both sections back; with n the most ranges whose registers, eight bytes each, fit the section, exactly the registers of the first n ranges are there, in order, each with its own value; and all sets with theirs, if they fit |
| CrashReadback.GpmuReadbackIff | qcom/opensource/graphics-kernel/adreno_a5xx_snapshot.c:949-955 | the GPMU read-back, whose source restarts at 0, is right for every register file iff the GPMU list is a prefix of the main list followed by itself |
| CrashReadback.GpmuReadbackWrong | qcom/opensource/graphics-kernel/adreno_a5xx_snapshot.c:406-409 | tables that start with different registers, as these do, are read back wrongly |
| CrashReadback.BankReadbackIff | qcom/opensource/graphics-kernel/adreno_a5xx_snapshot.c:632-638 | a shader bank is copied from where it is iff it is the first bank or the block is empty (the index counts bytes) |
| Touch.TouchHandler.Work | qcom/opensource/fingerprint/qbt_handler.c:327-409 | one pass of the work function equals the specification of a pass over all slots |
| Touch.EventKind | qcom/opensource/fingerprint/qbt_handler.c:349-373 | MOVE iff both contacts are the same finger inside the area; DOWN iff the new one is a finger inside the area and that is not so; UP iff the area is left by a finger, or a lifted one is reported inside it; nothing otherwise |
| Touch.PassReports | qcom/opensource/fingerprint/qbt_handler.c:327-409 | a pass produces at most one event per slot, in slot order, of the kind its new and last contact make and at the position of the new one |
| Touch.TouchHandler.FilterByRadius | qcom/opensource/fingerprint/qbt_handler.c:303-325 | accumulates the movement, reports it when it leaves the radius, and then starts again from zero |
| Touch.TouchHandler.ReportEvent | qcom/opensource/fingerprint/qbt_handler.c:149-163 | a full fifo drops the event; until then user space gets what was produced, in order |
| Touch.TouchHandler.ReadAll | qcom/opensource/fingerprint/qbt_handler.c:783-802 | a read drains the fifo in order |
| Touch.SlotsFollowContacts | qcom/opensource/fingerprint/qbt_handler.c:327-409 | after any history under one configuration: a slot is DOWN iff its last contact is a finger inside the area; every MOVE falls between a DOWN of its slot and the next UP; unreported movement stays within the radius |
| Touch.PassLine | qcom/opensource/fingerprint/qbt_handler.c:385-399 | the INTR2 line after a pass is driven high iff some finger was down right after some DOWN or UP of that pass, and left alone if there was none |
| Touch.LineAfterPass | qcom/opensource/fingerprint/qbt_handler.c:385-399 | after a pass that switched a finger the line is low only if no finger is down, and it is wrong iff no finger stays down and some slot switched before a later slot that was down had its turn (both read off the update and the state before it) |
| Touch.QuietPassKeepsTheLine | qcom/opensource/fingerprint/qbt_handler.c:385-399 | any other pass changes neither the line nor which fingers are down |
| Touch.LiftingTwoAtOnceLeavesTheLineHigh | qcom/opensource/fingerprint/qbt_handler.c:385-399 | the exception occurs: two fingers lifted in one update leave the line high |
| AhbTimeout.TimeoutMeaning | qcom/opensource/graphics-kernel/adreno.c:2169-2206 | a non-zero result r means 2^(r+1) < C <= 2^(r+2) for the computed cycle count C, with r+1 <= 31 and, below 31, 1000 x MHz <= 2^(r+1); zero means no such value exists; nothing underflows |
| AhbTimeout.TrueCountIffNoWrap | qcom/opensource/graphics-kernel/adreno.c:2169-2206 | the bound holds of the true cycle count iff the 64-bit product does not wrap |
| AhbTimeout.WrappedProductGivesAResult | qcom/opensource/graphics-kernel/adreno.c:2177-2178 | the exception occurs: a clock and a timeout whose product wraps and still gives a non-zero result |

## Left out

- Preemption in the middle of a submission: the styles other than ring level only change the enable packets; the CP of the model switches at the final yield.
- Memory barriers, weak memory and real time: steps are sequentially consistent, timers are steps that may happen, tracing and retry counters are dropped.
- The read-pointer shadow lagging behind the CP inside the protocol: a ring's shadow is updated with each execution; `Ringbuffer` reads the shadow at any earlier value.
- Power management, LM and voltage register writes, zap shader and secure-world calls, coresight, sysfs and debugfs: foreign calls without an effect the model could state.
- Device-tree parsing, probe and remove, ioctl copy-in and copy-out, ring and firmware file allocation; a failed kmalloc of the command buffer returns ENOMEM before anything else happens and is not modelled.
- Register, hwcg, vbif and protect tables and GPU list entries: constant data. The crash-dump theorems hold for any tables whose ranges are ordered and fit the script's fields.
- The contents of indirect buffers: they are called, not interpreted; the model takes it that user buffers leave the page-table registers and the scratch slot alone, as protected mode is there to ensure.
- Addresses of timestamps, profile entries and the scratch slot are parameters required to differ from the scratch slot; their layout in memory is not modelled.
- `internal_timestamp`, submit times, profiling counters and constraints of a draw context: bookkeeping beside the stream.
- Ringbuffer.Ringbuffer.AddCmds: bodies of 2^30 words and more are excluded; AllocSpace, which it calls, covers every 32-bit request, wrapping sums included.
- CrashDumper.CrashdumpInit: the two allocation guards in the source allocate only if the buffers already exist; the model takes them as allocating when absent. Sizes are unbounded, so the wrap of the 32-bit size counters is not modelled.
- GpmuLoad.CreateLoadCmds: a second call, which returns at once because commands exist, and a failed allocation are not modelled.
- Touch.TouchHandler.Work: accumulated movement is unbounded where the driver's is a C int; last_events, delta and state of a slot are one record instead of parallel arrays; raw input events are modelled from the updated contacts on; a change of configuration between passes is not modelled.
- FaultTable.EveryHistoryIsSound: histories long enough to wrap a 32-bit count are excluded, although AddProcFault models the wrap.
- The legacy register snapshot, HLSQ, MERCIU and debug-bus register reading, and shader payloads beyond their place in the buffer.
