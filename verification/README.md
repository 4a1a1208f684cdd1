# Memory Dwell: a verified model

Memory Dwell (MD) is a flight-software application that samples memory addresses on a schedule and
packs the samples into telemetry packets. Each dwell table is a cyclic list of entries (length,
delay, address). A periodic wakeup counts a table's countdown down; when it reaches zero the current
entry is read into the packet, the entry's delay becomes the new countdown, and after the last active
entry the packet is sent. Ground commands (Start, Stop, Jam, Set Signature) and table loads change
the tables while this is going on, each in two places: the local control structure and the copy that
Table Services keeps and hands back after a processor reset.

This project models that engine, the commands, the validators and the recovery in Dafny and proves
what they promise. `dafny verify dfyconfig.toml` checks everything.

## How it is organised

- `Types`, `Signatures`, `Summary` - values; fixed-size texts; the active part of a table and its sums.
- `Engine` - one wakeup of one table as a function (`Pass`, `Drain`, `Wakeup`), the invariant
  `WellFormed`, and when the inner loop ends.
- `AnyTable` - the same wakeup for entries of any length, where a write can leave the data area, and the
  proof that on legal lengths it is the engine's.
- `Schedule`, `ClosedForm`, `Liveness` - the countdown machine follows a schedule given by arithmetic
  on the delays.
- `PacketContent` - alignment of the write offset and the content of packets.
- `DwellTable` - the control structure, its packet and the buffer as classes updated in place, each
  method proved against the functions above.
- `Validation` - the two validators and their loops.
- `Commands`, `Runs` - one stream (local structure, buffer, past) under wakeups, commands, loads and
  failing buffer accesses; safety and countdown over every run.
- `Effects` - what each action does, field by field, without the functions that make it up.
- `Coherence` - the summary fields against the entries over every run.
- `StartSchedule` - the schedule after a Start command, in any run.
- `Recovery` - the buffer as a backup.
- `LoadContract`, `TailLengths`, `TakenEntries` - what validation does and does not guarantee for what
  follows a load: active entries, writes, reads and lengths.
- `Telemetry` - mask bits.
- `AppRuns`, `App` - runs of the application and table independence; the application object with its
  handlers over all tables, proved to refine those runs.
- `Witnesses`, `TailWitnesses` - concrete runs in which a promise fails.

A control structure is split into a `Setup` (what commands and loads write) and a `Cursor` (what
wakeups move). The table size is the length of the entry sequence, 1 to 255, and the number of tables
the length of the table sequence, 1 to 16. Symbol lookup, address-range validation and the width of
an address are parameters (`Env`); what memory answers to each read is a parameter (`Memory`), which
may fail any read. Every access to the Table Services buffer carries a flag that says whether it
succeeded. Machine integers are bounded, with every wrap written out. A uint16 mask is its 16 bits.

One action of a stream (`Commands.Perform`) is defined for every load of the right size, also for one
that breaks its contract: a wakeup that does not end or that writes outside the data area leaves the
stream hung. `StreamOk`, `ActionLegal` (legal lengths in loads) and `ActionOk` (the whole load contract)
are the hypotheses under which more is promised; a result that needs none of them says so by requiring
sizes only.

## Main results

- **Schedule.** `RunFollowsSchedule` proves that the countdown machine, wrap-around included, is at
  every wakeup exactly where a closed-form schedule says. `SampledIffDue`, `StartAfterAnyRun`,
  `PacketsAfterStartCommand` and `NextPacketArrives` are what a user reads off it: an entry is sampled at
  a wakeup if and only if the delays say so, for every cycle, after any run in which loads had legal
  lengths and no lost Jam did harm; packets are counted by an integer division.
- **Termination.** The inner loop of a wakeup ends if and only if some active delay is nonzero, within
  AddrCount passes (`LoopEndsIffSomeDelay`).
- **Safety of every run.** Under any interleaving of wakeups, commands and loads, and with any buffer
  accesses failing, every read is aligned, of a legal width and in a validated range, and every write
  is inside the data area, as long as no wakeup meets a bad active entry (`RunIsSafe`) - which it never
  does while loads keep their contract (`GoodLoadsRunSafely`). That memory is asked for nothing else is
  shown by changing its other answers: the run is the same.
- **Effects.** Every action is pinned field by field in terms of its message, of memory's answers and of
  the symbols' values (`CollectReads`, `StartEffect`, `StopEffect`, `JamEffect`, `SignatureEffect`,
  `LoadEffect`, `NotRecovered`).
- **Packets.** In every undisturbed run, wherever it starts, each packet after the first holds, slot by
  slot, the bytes read at each entry's own wakeup; a failed read shifts nothing; and so does the rest
  of the first one if it was aligned (`PacketsHoldTheirSamples`, `PacketSlotsAreAnswers`). A misaligned
  table is aligned again at its next packet boundary and not before (`AlignedIffBoundaryPassed`).
- **Recovery.** Run with every buffer access succeeding, reset, recover: that gives the configuration
  that was running, and it behaves the same (`RecoveryRestores`, `SameConfigRunsAlike`).
- **Table independence.** The object with its loops and shared state refines the application's run
  whenever no wakeup of it hangs (`ProcessMessages`), whatever is loaded, and there one table is a
  single-table machine that sees its own messages only (`TableIndependence`).

Eight promises hold only under a condition, which is proved to be the exact one, next to a concrete
input that breaks the promise. None of these needs the load contract as a hypothesis:

- The countdown of an enabled table stays in 1..65535 exactly when no wakeup meets a shortened table
  whose last active delay is zero (`CountdownSafeIff`, `CountdownWraps`). Otherwise it is stored as
  zero, wraps, and the table is silent for 2^32 wakeups (`OverrunRecovers`).
- The summary fields are the sums over the active entries, each in its width, in every state of a run
  exactly when every Jam that loses its buffer access is rejected or harmless where it arrives
  (`RunIsCoherentIff`, `FailedJamCoherence`). The next accepted Jam or load makes them right again
  (`CoherenceRestored`); until then a wakeup can run for ever (`FailedJamHangs`, `WakeupHangs`).
- They are the sums themselves exactly when moreover the active lengths never add up to 2^16
  (`RunIsCoherentIff`). Entries that validation does not look at can make them (`DataSizeWraps`).
- Validation makes a table good for all later Jams exactly when the entries behind the first null one
  are good too (`TailMustBeGood`, `LoadMustBeGood`).
- Whatever is jammed after an accepted load, every read is good exactly when every entry, with the
  address the copy gives it, is null or good (`LoadReadsGoodIff`, `ValidatedTailIsRead`).
- Likewise the engine's branch for invalid lengths is dead exactly when the low byte of every non-null
  entry's length is 1, 2 or 4 (`LoadInvalidLengthIff`, `InvalidLengthSampled`).
- Whatever is jammed after a load, no byte is written outside the packet's data area exactly when every
  length of the load but the last one's is at most 4 in its low byte (`LoadWritesInsideIff`).
  Validation does not look at those behind the first null entry, and a length of 200 there leads to a
  write outside (`WriteLeavesDataArea`).
- The resolved addresses of null entries - which nothing reads - match the buffer throughout a run
  exactly when every action of the run keeps them so, which for a Jam is the condition in `JamExactIff`
  (`RunIsExactIff`, `NullAddressNotRestored`).

Where code and documentation differ the model follows the code: `fsw/inc/md_fcncodes.h:228-229` says
that a Jam is not saved across resets, but the handler updates the recoverable buffer;
`config/default_md_tblstruct.h:35` wants every entry valid, but validation stops at the first null
one; `fsw/src/md_verify.h:49-53` allows 65535 entries, but the copy of a load counts them in a uint8.

## Model

| member | source | states |
|---|---|---|
| Signatures.CopySignatureKeepsText | fsw/src/md_dwell_tbl.c:305-311 | A copied signature keeps its size and the text before the first NUL, and is NUL-terminated; only a text that fills the field loses its last character |
| Signatures.CopySignatureIdempotent | fsw/src/md_cmds.c:495-501 | Copying a copied signature changes nothing, so command, buffer and reload agree on the text |
| Summary.ActiveCount | fsw/src/md_utils.c:68-74 | The longest non-null prefix: no null entry before it, a null entry or the end after it |
| Summary.ActiveCountIs | fsw/src/md_dwell_tbl.c:162-168 | Any loop that stops there, having met no null entry, has found that count |
| Engine.LoopEndsIffSomeDelay | fsw/src/md_dwell_pkt.c:82-137 | The inner loop ends if and only if some active delay is nonzero, and then within AddrCount passes |
| Engine.DrainIsPasses | fsw/src/md_dwell_pkt.c:82-137 | One wakeup makes between 1 and AddrCount passes, the countdown being zero before each |
| Engine.HangsIff | fsw/src/md_dwell_pkt.c:79-137 | A wakeup hangs exactly if it enters the inner loop and the countdown is zero after every pass |
| Engine.Fetch | fsw/src/md_dwell_pkt.c:149-202 | A sample, read or failed, moves the write offset by exactly its entry's length and stays inside the data area |
| Engine.Pass | fsw/src/md_dwell_pkt.c:84-135 | One pass keeps the cursor in bounds, moves to the cyclically next entry and reloads the countdown |
| Engine.Drain | fsw/src/md_dwell_pkt.c:82-137 | The inner loop leaves a nonzero countdown and an active, in-bounds position |
| Engine.Wakeup | fsw/src/md_dwell_pkt.c:56-141 | A wakeup keeps the table well formed in all three branches |
| Engine.Summarised | fsw/src/md_utils.c:56-80 | Recomputing the summary makes it describe the entries, with no wrap for legal lengths |
| Engine.LastErrorIs | fsw/src/md_dwell_pkt.c:89-96 | The wakeup's status is the code of the last failed sample, and unchanged without one |
| AnyTable.CollectReads | fsw/src/md_dwell_pkt.c:84-202 | One pass reads the current entry's own address; the bytes answered go to the write offset and nothing else changes; the code fits the answer; the event names that read; after the last entry a packet with this data goes out |
| AnyTable.IterateEnds | fsw/src/md_dwell_pkt.c:82-137 | For entries of any length too, a loop with some active delay has ended after AddrCount passes |
| AnyTable.WakeupAnyIs | fsw/src/md_dwell_pkt.c:56-141 | On a well-formed table the wakeup that allows any length and checks every write is the engine's wakeup |
| AnyTable.WakeupFits | fsw/src/md_dwell_pkt.c:190-199 | If no active entry but the last moves the offset by more than four, no pass of any wakeup, even an endless one, writes outside the data area |
| DwellTables.DwellTable.GetDwellData | fsw/src/md_dwell_pkt.c:149-202 | The read asked is of the entry's own address and length; its bytes are stored at the offset, or nothing is; the status fits; the offset moves by the length's low byte |
| PacketContent.PacketDescribesTable | fsw/src/md_dwell_pkt.c:206-231 | The fields of a packet are the number, rate and size of the active entries, none cut by its width, and the table's text NUL-terminated |
| DwellTables.DwellTable.CollectEntry | fsw/src/md_dwell_pkt.c:84-135 | The loop body in place: new cursor, packet, events and status |
| DwellTables.DwellTable.CollectWhileDue | fsw/src/md_dwell_pkt.c:82-137 | The while loop in place, whenever it ends inside the data area: final cursor, whole event sequence, last error |
| DwellTables.DwellTable.ProcessWakeup | fsw/src/md_dwell_pkt.c:52-141 | One table's wakeup in place refines the specification's, for every wakeup that has an outcome; the setup is untouched |
| DwellTables.DwellTable.StartDwellStream | fsw/src/md_dwell_pkt.c:244-249 | Countdown 1, first entry, offset 0; the data area is kept |
| DwellTables.DwellTable.UpdateDwellControlInfo | fsw/src/md_utils.c:56-80 | The accumulator loop computes the summary of the longest non-null prefix |
| DwellTables.DwellTable.CopyUpdatedTbl | fsw/src/md_dwell_tbl.c:293-332 | The copy loop, with its address carried over unresolved symbols, gives the setup CopyOf describes |
| DwellTables.DwellTable.constructor | fsw/src/md_app.c:163-183 | A cleared, disabled control structure with countdown 1 |
| DwellTables.TableBuffer.UpdateEnabledField | fsw/src/md_dwell_tbl.c:335-360 | Writes the flag and nothing else, or nothing if the address is not obtained |
| DwellTables.TableBuffer.UpdateDwellEntry | fsw/src/md_dwell_tbl.c:364-402 | Writes one entry and nothing else, or nothing if the address is not obtained |
| DwellTables.TableBuffer.UpdateSignature | fsw/src/md_dwell_tbl.c:407-438 | Writes the NUL-terminated signature, or nothing if the address is not obtained |
| Schedule.RunFollowsSchedule | fsw/src/md_dwell_pkt.c:56-137 | Refinement: after w wakeups the engine has produced exactly the events of the samples due by then and stands before the next one, countdown included |
| Schedule.DrainTakesWhatIsDue | fsw/src/md_dwell_pkt.c:82-137 | One wakeup takes exactly the samples due now |
| ClosedForm.PositionOf | fsw/src/md_dwell_pkt.c:99-135 | Entry and wakeup of the i-th sample in terms of cycle number and entry |
| ClosedForm.SampledIffDue | fsw/src/md_dwell_pkt.c:56-137 | From any position in a packet: entry k is sampled at a wakeup if and only if the delays say so |
| StartSchedule.WakesAreRun | fsw/src/md_dwell_pkt.c:38-145 | Wakeups alone make a stream, its trace included, do what the engine's run says |
| StartSchedule.ScheduleAfterStartCommand | fsw/inc/md_fcncodes.h:108-116 | After a Start command on a coherent table, entry k is sampled at wakeups 1 + c * Rate + (delays before k), for every cycle c, and at no other |
| StartSchedule.StartAfterAnyRun | fsw/src/md_cmds.c:105-120 | The same after any run of wakeups, commands and loads of legal lengths in which no lost Jam did harm |
| StartSchedule.PacketsAfterStartCommand | docs/dox_src/cfs_md.dox:304-310 | Number and times of the packets in the w wakeups after a Start command, by integer division |
| Liveness.SampledOncePerWakeup | fsw/src/md_dwell_pkt.c:63-137 | No entry is sampled twice in one wakeup, wherever the table stands |
| ClosedForm.PacketsOnTime | fsw/src/md_dwell_pkt.c:99-120 | The packets sent are exactly those whose closed-form time has come, in order |
| Liveness.OnePacketPerWakeup | fsw/src/md_dwell_pkt.c:63-120 | At most one packet per table and wakeup, wherever the table stands, shortened tables included |
| Liveness.PacketCountAfterStart | docs/dox_src/cfs_md.dox:304-310 | Number and times of the packets in the first w wakeups after a start, by integer division |
| Liveness.OverrunRecovers | fsw/src/md_dwell_pkt.c:63-71 | A shortened table sends on the very next wakeup; its first entry follows after the last active delay, or after 2^32 wakeups if that is zero |
| Liveness.NextPacketArrives | fsw/src/md_dwell_pkt.c:63-134 | From any position the next packet comes exactly when the countdown and the remaining delays say |
| PacketContent.AlignedIffBoundaryPassed | fsw/src/md_dwell_pkt.c:63-135 | The write offset equals the lengths collected if and only if it did before or a packet boundary has passed |
| PacketContent.JamKeepsAlignmentIff | fsw/src/md_cmds.c:387-389 | A Jam misaligns a table exactly when it changes the length of an entry already collected |
| PacketContent.StoredIsFilled | fsw/src/md_dwell_pkt.c:190-199 | Storing at the running offset lays the slots out one after the other; a failed read keeps its slot's old bytes |
| PacketContent.PacketsHoldTheirSamples | fsw/src/md_dwell_pkt.c:87-120 | From any position, misaligned ones too, every packet but the first holds in slot k the bytes read at entry k's own wakeup of its cycle; so does the rest of the first if the table was aligned |
| PacketContent.PacketSlotsAreAnswers | fsw/src/md_dwell_pkt.c:84-202 | Slot by slot: each holds what memory answered to the read of that entry's address at its own wakeup of the cycle, or what the packet before held |
| PacketContent.PacketsOfShortenedTable | fsw/src/md_dwell_pkt.c:63-71 | A shortened table sends its data area as it is, and all later packets hold their own cycle's samples |
| Validation.ResolvedAddress | fsw/src/md_utils.c:186-224 | No name: the offset; an unknown symbol: nothing; a known one: its value plus the offset, up to whole address spaces |
| Validation.ValidTableEntry | config/default_md_tbldefs.h:41-55 | An entry is accepted if and only if it is null or resolves to a valid range, has length 1, 2 or 4 and is aligned; each fault is reported for exactly its own inputs, range before length before alignment |
| Validation.JamChecks | fsw/src/md_cmds.c:325-378 | A Jam is rejected with each fault for exactly its own inputs, length before range before alignment, and otherwise accepted with the resolved address |
| Validation.GoodCountIs | fsw/src/md_dwell_tbl.c:204-218 | The good count is the number of good entries among those checked |
| Validation.CheckTableEntries | fsw/src/md_dwell_tbl.c:173-237 | Accepts if and only if the active entries are good; otherwise reports the first bad one and its code; good, bad and unused add up |
| Validation.ReadDwellTable | fsw/src/md_dwell_tbl.c:152-171 | Count, size (in 16 bits) and rate of the active prefix |
| Validation.TableValidationFunc | fsw/src/md_dwell_tbl.c:39-149 | Which tables are accepted, with which code the others are rejected, and exactly when the zero-rate notice is issued |
| Validation.ValidatorsAgree | fsw/src/md_cmds.c:325-378 | Jam and load validation accept the same entries, and name the same fault unless range and length are both wrong |
| Commands.Perform | fsw/src/md_cmds.c:74-520 | Defined for every load of the right size: every action keeps the sizes; from a well-formed stream it keeps offset bound and legal lengths if a load has legal lengths |
| Effects.StartEffect | fsw/src/md_cmds.c:105-126 | A Start enables both copies, the buffer only if it is reached, makes entry 0 due on the next wakeup, and keeps all else |
| Effects.StopEffect | fsw/src/md_cmds.c:178-198 | A Stop disables both copies, clears countdown, entry and offset, and keeps all else |
| Effects.LostAccessKeepsBuffer | fsw/src/md_dwell_tbl.c:335-360 | A command that does not reach the buffer leaves all of it as it was |
| Effects.IdleUntilStarted | fsw/src/md_dwell_pkt.c:56 | A disabled table takes no sample and sends nothing in any run without a Start or a load |
| Effects.SignatureEffect | fsw/src/md_cmds.c:461-501 | A signature with a NUL arrives as its text in both copies, the buffer's only if it is reached; one without a NUL changes nothing |
| Effects.PacketsCarryText | fsw/src/md_dwell_pkt.c:218-222 | Every packet of a wakeup carries the text the table has |
| Effects.JamEffect | fsw/src/md_cmds.c:279-442 | A null Jam clears the entry, a good dwell replaces it, resolved locally and as it came in the buffer, and any other changes nothing; the summary is recomputed only if the buffer is reached |
| Effects.JamIdRejected | fsw/src/md_cmds.c:258-266 | An entry id outside 1 to the table size changes nothing |
| Effects.JammedSymbol | fsw/src/md_utils.c:207-219 | A good dwell at a known symbol is jammed to the symbol's value plus the offset |
| Effects.LoadEffect | fsw/src/md_dwell_tbl.c:293-332 | A load replaces the buffer and, if its address is obtained, is copied in field by field, with the address before carried over an unknown symbol; an enabled one starts |
| Effects.WakeEffect | fsw/src/md_dwell_pkt.c:38-145 | A wakeup only moves the cursor and adds to the past |
| Effects.OverrunEffect | fsw/src/md_dwell_pkt.c:63-71 | A shortened table sends its data area as it is and goes back to entry 0 with the delay of its last active entry |
| Runs.InitialStream | fsw/src/md_app.c:163-183 | A cleared structure meets every invariant the run theorems start from |
| Runs.RunIsSafe | fsw/src/md_dwell_pkt.c:158-202 | In every run, whatever is loaded and whatever access fails, all samples are of good width, range and alignment, the run depends on memory's answers to good reads only, and all writes stay inside the data area, if no wakeup meets a bad active entry |
| Runs.GoodLoadsRunSafely | config/default_md_tblstruct.h:35 | While loads keep their contract no wakeup meets one, so every run is safe |
| TakenEntries.SamplesAreReal | fsw/src/md_dwell_pkt.c:183-188 | While no lost Jam does harm and all lengths loaded have a low byte of 1, 2 or 4, no sample is of length 0 or has the code for an invalid length |
| TakenEntries.InvalidLengthIff | fsw/src/md_dwell_pkt.c:162-188 | From any stream with a right summary: the branch for invalid lengths is dead in all such runs if and only if every entry is null, or has such a length, or is alone without a delay |
| TakenEntries.LoadInvalidLengthIff | fsw/src/md_dwell_tbl.c:197-204 | The same for an accepted load just copied in, in terms of the load's lengths |
| TakenEntries.ReadsGoodIff | fsw/src/md_dwell_pkt.c:149-202 | In all runs every entry taken is a good dwell if and only if every entry is null or good, or alone without a delay |
| TakenEntries.LoadReadsGoodIff | config/default_md_tblstruct.h:35 | The same for an accepted load just copied in: exactly when every entry of the copy is null or good |
| Runs.PassesSafe | fsw/src/md_dwell_pkt.c:82-137 | Even a loop that never ends asks memory for good addresses only and writes inside the data area |
| Coherence.RunIsCoherentIff | fsw/src/md_utils.c:56-80 | For loads of any lengths: the summary is right, each field in its width, in every state of a run if and only if every Jam that loses its buffer access is rejected or harmless where it arrives; it is exact if and only if moreover the active lengths stay below 2^16 |
| Coherence.HangsByWriting | fsw/src/md_dwell_pkt.c:56-141 | From a right summary nothing hangs but a wakeup that writes outside the data area |
| Coherence.CoherenceRestored | fsw/src/md_cmds.c:424-429 | The next accepted Jam that reaches the buffer, or the next load copied in, makes the summary right again, and exact if the size fits |
| Coherence.FailedJamCoherence | fsw/src/md_cmds.c:386-442 | Exactly which Jams leave the summary right although the buffer access failed, for entries of any length |
| Coherence.FailedJamHangs | fsw/src/md_cmds.c:386-442 | Exactly which failed Jams make the next due wakeup run for ever |
| Runs.CountdownSafeIff | fsw/src/md_dwell_pkt.c:70-79 | For loads of any lengths whose enable flag is 0 or 1: the countdown stays in 1..65535 throughout a run if and only if no wakeup meets a shortened table with a zero last delay |
| Recovery.RunIsBacked | fsw/src/md_cmds.c:386-398 | While buffer accesses succeed, the buffer stays valid and copying it gives the running configuration |
| Recovery.RecoveryRestores | fsw/src/md_app.c:338-354 | Run with every buffer access succeeding, reset, recover: the table is accepted, has the configuration that was running, and restarts if enabled |
| Recovery.SameConfigRunsAlike | fsw/src/md_dwell_pkt.c:56-141 | Tables of the same configuration produce the same cursor and events on every wakeup from the same cursor |
| Recovery.JamExactIff | fsw/src/md_dwell_tbl.c:316-328 | Exactly when a Jam keeps even null entries' addresses equal to what a copy of the buffer would give |
| Recovery.RunIsExactIff | fsw/src/md_dwell_tbl.c:316-328 | The same throughout a run, commands and loads that lose their access included |
| LoadContract.CopyHasReadSummary | fsw/src/md_dwell_tbl.c:152-171 | For any load the copied summary is the one validation read, in the same widths |
| LoadContract.ZeroRateNotice | fsw/src/md_dwell_tbl.c:98-112 | For an accepted, enabled load the notice is due if and only if no run of wakeups, starts, stops and signature changes takes a sample or sends a packet, until a Jam or load |
| LoadContract.TailMustBeGood | fsw/src/md_dwell_tbl.c:197-204 | For entries of any length: the active ones stay good under all Jams if and only if those behind the first null one are good |
| LoadContract.LoadMustBeGood | config/default_md_tblstruct.h:35 | The same for an accepted load just copied in; where symbols resolve the condition is the documented contract |
| TailLengths.WritesInsideIff | fsw/src/md_dwell_pkt.c:190-199 | In all runs, whatever is jammed and whatever memory answers, no write leaves the data area if and only if no entry but the last has a length above 4 in its low byte |
| TailLengths.LoadWritesInsideIff | fsw/src/md_dwell_tbl.c:197-204 | The same for a load just copied in, whatever the write offset was, in terms of the load's lengths |
| Telemetry.InMaskIsBit | fsw/src/md_utils.c:35-52 | Shift-and-test for oddness is the table's bit of the mask |
| Telemetry.FailuresAre | fsw/src/md_cmds.c:119-126 | The error count of a Start or Stop is the number of tables whose mask bit is set and whose buffer access fails |
| Telemetry.EnableBitIs | fsw/src/md_app.c:537 | Bit i of the housekeeping mask is table i's flag and no other's |
| Telemetry.MaskFold | fsw/src/md_app.c:526-553 | Over any run of Start and Stop the housekeeping mask is the fold of or-with-table-bits and and-with-complement |
| App.MdApp.DwellLoop | fsw/src/md_dwell_pkt.c:38-145 | One wakeup, whenever every table's ends inside its data area, steps every table as if it were alone; the status is that of the last failed sample |
| App.MdApp.StartDwellCmd | fsw/src/md_cmds.c:74-162 | Starts exactly the tables in the mask, keeps the others, counts failed accesses, rejects an empty mask |
| App.MdApp.StopDwellCmd | fsw/src/md_cmds.c:166-228 | Stops exactly the tables in the mask, keeps the others, counts failed accesses, rejects an empty mask |
| App.MdApp.JamDwellCmd | fsw/src/md_cmds.c:232-445 | Jams exactly the addressed entry of the addressed table, and says when the command counts as accepted |
| App.MdApp.SetSignatureCmd | fsw/src/md_cmds.c:450-520 | Sets both copies of the signature of the addressed table if it has a NUL and the id is valid |
| App.MdApp.UpdateTable | fsw/src/md_app.c:460-487 | Any load replaces the buffer, is copied in if its address is obtained, and starts an enabled table; other tables are kept |
| App.MdApp.InitTable | fsw/src/md_app.c:325-417 | A recovered table is copied in if and only if its address is obtained and it validates; otherwise the initial file goes to the buffer only, and the table is left disabled |
| Recovery.NotRecovered | fsw/src/md_app.c:392-417 | A table that is not recovered is disabled with its entries, signature and cursor kept; the initial file, if it loads, is in the buffer only |
| Recovery.RecoveredIsLoaded | fsw/src/md_app.c:338-354 | A recovered table is what a load of the buffer's contents gives |
| App.MdApp.ProcessMessage | fsw/src/md_dispatch.c:60-146 | The handler of every message, with its loops and shared state, does to all tables what the specification's message does |
| App.MdApp.ProcessMessages | fsw/src/md_app.c:62-98 | A whole run of messages in which no wakeup hangs, with loads of any lengths, leaves every table where the specification's run leaves it |
| App.MdApp.DwellEnabledMask | fsw/src/md_app.c:526-553 | The accumulated mask is the or of the shifted flags |
| App.MdApp.constructor | fsw/src/md_app.c:163-183 | All tables cleared, separate and well formed |
| AppRuns.TableIndependence | fsw/src/md_dwell_pkt.c:50-143 | In any run that ProcessMessages refines, table i is where a single-table machine would be that saw the wakeups and only its own messages |
| AppRuns.NothingHangs | fsw/src/md_cmds.c:424-439 | While no Jam loses its buffer access and every length loaded, but the last, is at most 4 in its low byte, no run of the application hangs |
| Witnesses.CountdownWraps | fsw/src/md_dwell_pkt.c:70 | A concrete run, one successful Jam, after which an enabled table has countdown 0 |
| Witnesses.WakeupHangs | fsw/src/md_cmds.c:407-414 | A concrete Jam whose buffer access fails, after which the wakeup never ends |
| TailWitnesses.ValidatedTailIsRead | fsw/src/md_dwell_tbl.c:197-204 | A concrete accepted load; after one good Jam and a Start the next wakeup makes a misaligned read |
| TailWitnesses.InvalidLengthSampled | fsw/src/md_dwell_pkt.c:183-188 | A concrete accepted load behind which, with no access lost, a sample has the code for an invalid length |
| TailWitnesses.DataSizeWraps | fsw/src/md_utils.c:59-71 | A concrete accepted load and a good, successful Jam after which DataSize has wrapped |
| TailWitnesses.WriteLeavesDataArea | fsw/src/md_dwell_pkt.c:193-199 | A concrete accepted load with a length of 200 behind a null entry; after one good Jam and a Start the next wakeup writes outside the data area |
| Witnesses.NullAddressNotRestored | fsw/src/md_dwell_tbl.c:320-324 | A concrete load and Jam after which a null entry's address differs from what recovery would compute |

## Left out

- The framework calls (software bus, event services, performance log, pipe, time stamps): a send is an event in a table's past; event texts are not modelled, except when the zero-rate notice is due.
- Packet header, TableId and packet size in the header: only the payload's count, rate, signature, byte count and data area.
- Dispatch by function code, message length checks and the command counters; each handler returns whether the command is accepted.
- Housekeeping fields other than the enable mask; rate and countdown are cut to 16 bits there.
- Table Services internals: status polling, notification and release of the buffer; the buffer is a value that an access replaces, so aliasing of its entries is not captured.
- Registration of the tables and their names; initialisation stops at the first table whose initial file does not load, which InitTable reports.
- The configurations without a signature, with 16-bit alignment of 4-byte dwells (that branch of the Jam handler names an undeclared variable), and with more than 255 entries.
- Symbol names longer than their message field; a symbol lookup that fails is taken to leave the address variable as it was.
- App.MdApp.DwellLoop: requires that the wakeup ends and stays inside the data area, because a method has to end and cannot write outside an array; Commands.Perform models both, and Engine.LoopEndsIffSomeDelay and TailLengths.WritesInsideIff are the exact conditions.
- App.MdApp.ProcessMessages: for runs in which no wakeup hangs, for the same reason.
- PacketContent.PacketsHoldTheirSamples: no description of the first packet of a run that starts misaligned, part of which was collected under other entries.
