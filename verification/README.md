# A verified model of bssl-ram

bssl-ram is a daemon that watches browser renderer processes, decides which of them have been idle long enough, and asks
the kernel to page their private anonymous memory out to zram. A browser extension tells it, through a native-messaging
bridge, which browsers are playing sound, are focused or were used a moment ago.

This project models the decision logic of the daemon, the kernel-side CPU accounting program, the process table kept from
kernel events, the signal store, the bridge protocol and the parsers, and proves what they guarantee over whole runs.
Code that updates state in place is modelled by classes and loops; the specification of each is a function on values, and
the theorems are about those functions and about all runs built from them. `dafny verify dfyconfig.toml` checks all of it.

| file | what it holds |
|---|---|
| Base, Ascii, Text, Endian | machine words with wrap-around, case folding, tokenising and number parsing, 32-bit words |
| Tracker, History, Spacing | the idle tracker as a class; its state as a function of a PID's whole history; how far apart page-outs are |
| Compressor, Smaps, Stat | the batched page-out with the kernel as an oracle; the smaps and stat parsers |
| Signals | the TTL cache of browser reports and its veto |
| Scan, Daemon, Promises | one scan cycle, the main loop over any number of cycles, and what holds of every run of it |
| Scanner, ProcEvents, ProcessTable, TableRuns | command-line matching, the event decoder, the table class, and all interleavings of world, seed walk, reader thread and drift correction |
| Sched, BpfPath | the context-switch accumulator on many CPUs, and the scan loop reading its maps |
| Frames, Bridge, NativePort | the frame codec, the bridge loop, and the extension's promise queue against the bridge |

Conventions. A release build has no overflow checks, so `+`, `*` and sums wrap; `WrapU32` and `WrapU64` say where. Calls
into the kernel, clocks and the network are parameters: a `Visit` carries all that the system answers about one target in
one cycle, a `PageOutEnv` all that it answers during one page-out. JSON is an abstract codec whose decoder inverts its
encoder. Frame lengths and kernel words are little-endian, as on the machines the daemon targets.

## What turned out to differ from the documentation

- The promised spacing of the compressions of one PID holds over all runs exactly if the idle bar does not exceed the wakeup
  bar, the warm-up is the degenerate 2^32 - 1 cycles, or the daemon is in dry-run mode. Both bars are the configured ticks
  times 10^7 as 64-bit products, wrap-around included. The configuration loader does not compare them.
  `Promises.SpacingExactly`.
- Playing media vetoes a page-out unless the 32-bit sum of the counts wraps to zero. `Signals.VetoExactly`,
  `Signals.MediaSumCanWrap`.
- On the BPF path the start time is written once per map entry, and the daemon only forgets a PID it cannot read. A
  recycled PID therefore keeps the first task's start time, and the tracker's PID-reuse guard never fires on that path.
  `BpfPath.DeltaIsExact`, `BpfPath.BirthIsFirstStart`, `BpfPath.ReuseGoesUnnoticed`.
- The accumulator undercounts when threads of one process overlap. It is exact if and only if no thread leaves a CPU after
  a sibling came on, or before any thread came on since load or forget. `Sched.CountExactly`, `Sched.OverlapUndercounts`.
- The process table misses a child that matches without an exec and an argv rewrite that changes the match. A drift
  correction that races with events can drop a live target or bring a dead one back; it does so exactly if it overwrites a
  PID that changed in its window and no longer is what the correction takes it for. `TableRuns.ReactionSufficesExactly`,
  `TableRuns.LossIsHarmlessExactly`, `TableRuns.ReseedWriteExactly`, and the witnesses listed with them below.
- The bridge only logs a reply it fails to write. After one such reply every later one on that port settles the wrong
  promise; replies and promises match in all runs exactly if no response exceeds the frame limit of 1 MiB.
  `NativePort.OwnReplyExactly`, `NativePort.PairingBySize`.
- A command line is decoded byte by byte, so the bytes 0x85 and 0xA0 split an argument even inside a UTF-8 character such as
  U+00E0. The two forms of a command line still tokenise alike. `Scanner.ParseRendered`, `Scanner.AccentSplitsArgument`.

## Model

| member | source | states |
|---|---|---|
| Base.WrapU64IsRemainder | Cargo.toml:20-22 | unchecked 64-bit arithmetic of a release build is the remainder modulo 2^64 |
| Base.WrapU32IsRemainder | Cargo.toml:20-22 | the same for 32 bits |
| Ascii.LowerLetter | daemon/src/signals.rs:410 | lower-casing maps each capital to the small letter of its place in the alphabet |
| Ascii.LowerOther | daemon/src/signals.rs:410 | and leaves every other character alone |
| Text.SpaceExactly | daemon/src/compressor.rs:56 | tokens are cut at exactly the 25 code points of Unicode White_Space |
| Text.ParsePrint | daemon/src/compressor.rs:60-63 | printed numbers below 2^64 parse back in both radixes, larger ones do not parse |
| Text.HexDigits | daemon/src/compressor.rs:60-63 | hexadecimal digits count alike in both cases |
| Text.ValueExactly | daemon/src/compressor.rs:60-63 | a string denotes a number iff all its characters are digits of the radix |
| Tracker.CpuTracker.Update | daemon/src/state.rs:82-136 | returns idle exactly when the delta is within the idle bar; moves this PID's slot as specified and leaves every other PID alone |
| Tracker.CpuTracker.IdleCycles | daemon/src/state.rs:139-141 | the stored idle count, 0 for an unknown PID |
| Tracker.CpuTracker.MarkCompressed | daemon/src/state.rs:153-155 | sets only this PID's flag |
| Tracker.CpuTracker.Remove | daemon/src/state.rs:158-162 | empties this PID's slot in all three maps and no other |
| Tracker.CpuTracker.RetainOnly | daemon/src/state.rs:170-174 | empties exactly the slots outside the live set |
| History.ThresholdIsNotSentinel | daemon/src/main.rs:432-434 | a threshold converted from ticks never equals the first-observation sentinel, even when the product wraps |
| History.BarsInTicks | daemon/src/main.rs:429-434 | the two bars are the configured ticks times 10,000,000 modulo 2^64 |
| History.IdleExactly | daemon/src/state.rs:104-112 | a cycle is idle iff the same incarnation burnt at most the configured ticks since the cycle before |
| History.DisturbedExactly | daemon/src/state.rs:90-113 | a cycle is disturbed iff the PID was unobserved in it or before, changed start time, or burnt more than the wakeup ticks |
| History.TrackerIsHistory | daemon/src/state.rs:82-180 | after any history the tracker holds exactly: the last snapshot, the length (mod 2^32) of the trailing run of observed same-incarnation idle deltas, and a flag iff a page-out succeeded in this incarnation with no wakeup since; PIDs not seen in the last cycle are untracked |
| Spacing.WarmupBefore | daemon/src/main.rs:462-490 | before every page-out lie max(1, threshold) consecutive idle cycles |
| Spacing.ActivityBetween | daemon/src/state.rs:74-81 | between two page-outs of a PID lies a cycle where it was unobserved, changed start time or exceeded the wakeup bar |
| Spacing.PageOutsAreSpaced | daemon/src/state.rs:82-136 | under a configuration that keeps the law two page-outs are at least 1 + max(1, threshold) cycles apart |
| Spacing.PageOutBudget | daemon/src/state.rs:74-81 | in n cycles at most n / (1 + max(1, threshold)) page-outs of one PID |
| Compressor.CompressPid | daemon/src/compressor.rs:216-294 | the outcome or error, and the exact list of page-out calls issued: none in a dry run or without a pidfd |
| Compressor.SendBatches | daemon/src/compressor.rs:238-281 | the chunk loop issues the batches of the specification, sums accepted bytes mod 2^64 and counts failures |
| Compressor.SumSizes | daemon/src/compressor.rs:246 | the total of the region sizes mod 2^64 |
| Compressor.ChunksCover | daemon/src/compressor.rs:238-281 | the batches together are all regions, once each and in order |
| Compressor.ChunkShape | daemon/src/compressor.rs:238-281 | ceil(n / 1024) batches, none empty, none over 1024, all but the last full |
| Compressor.BytesAreConserved | daemon/src/compressor.rs:246-293 | advised bytes are what the kernel reported, and with the skipped ones they are the bytes requested, when the kernel accepts no more than it was given |
| Compressor.AllOrNothing | daemon/src/compressor.rs:246-293 | against a kernel that takes or refuses whole batches: advised bytes are those of the batches taken, skipped bytes all others, failures the batches refused |
| Compressor.TotalSizeCounts | daemon/src/compressor.rs:246 | the bytes requested for disjoint regions are the addresses they cover, each once |
| Compressor.RealSuccessExactly | daemon/src/compressor.rs:205-207 | a page-out is a real success iff it was no dry run, had a region to send and no batch failed |
| Compressor.AddressSpaceBound | daemon/src/compressor.rs:246 | regions of one address space cannot overflow the byte count |
| Smaps.ParseAnonRegions | daemon/src/compressor.rs:41-90 | on every text: one region for each line reporting anonymous pages whose latest preceding header is private and has inode 0 |
| Smaps.HeaderMeans | daemon/src/compressor.rs:51-74 | the header line of any mapping is read as its start, its length end - start, and whether it is private and anonymous |
| Smaps.HeaderExactly | daemon/src/compressor.rs:51-74 | on any line: it is a header iff it reads start, dash, end, blank and four or more words; start + size is the end |
| Smaps.AnonymousMeans | daemon/src/compressor.rs:77-86 | the count on the Anonymous line is read back |
| Smaps.SmapsRoundTrip | daemon/src/compressor.rs:41-90 | the text of any list of mappings yields exactly the private, inode-0, Anonymous > 0 ones, in order, with their addresses |
| Smaps.AddressSpaceRoundTrip | daemon/src/compressor.rs:41-90 | for the mappings of one address space the result is (start, end - start) of exactly the private, inode-0 ones with anonymous pages, in order |
| Smaps.LinesJoined | daemon/src/compressor.rs:47 | lines are recovered from both line endings, and an unterminated last line as it stands |
| Smaps.RegionsAreMappings | daemon/src/compressor.rs:41-90 | sorted disjoint mappings give sorted disjoint regions |
| Smaps.RequestFits | daemon/src/compressor.rs:246 | what is requested for the mappings of one address space is every chosen address once, and the count never overflows 64 bits |
| Stat.StatRoundTrip | daemon/src/compressor.rs:142-157 | for every command name, with blanks and parentheses, and all 64-bit values the printed line parses back to start time, user and system time |
| Stat.OnlyTheTailCounts | daemon/src/compressor.rs:135-150 | the result does not depend on anything before the last closing parenthesis |
| Stat.TailAt | daemon/src/compressor.rs:142-149 | what is tokenised is the text from the second byte after the last parenthesis; None past the end or inside a multi-byte character |
| Signals.CanonicalIsStable | daemon/src/signals.rs:409-417 | canonical names are fixed points and letter case never matters |
| Signals.FamiliesExactly | daemon/src/signals.rs:409-417 | which names, in any letter case, belong to which family |
| Signals.RecentExactly | daemon/src/signals.rs:184-191 | an interaction counts as recent iff its time plus the grace period has not passed |
| Signals.MediaTotalAdds | daemon/src/signals.rs:164-169 | every tab adds its own media count to the total, wherever it stands |
| Signals.VetoExactly | daemon/src/signals.rs:155-205 | no veto iff nothing is audible, playing, focused or recently used, except exactly when a non-zero media sum wraps to zero |
| Signals.VetoPriority | daemon/src/signals.rs:156-204 | the veto given is the first in the order audible, playing, focused, recent with any tab behind it, and its count is the number of those tabs (for media the 32-bit sum) |
| Signals.MediaSumCanWrap | daemon/src/signals.rs:163-174 | a report with playing media that yields no veto |
| Signals.PruningIsInvisible | daemon/src/signals.rs:152 | dropping stale entries at one query changes no later answer for any family |
| Signals.InsertKeepsFaith | daemon/src/signals.rs:95-133 | accepting or rejecting a report keeps the cache equal to the latest accepted report per family |
| Signals.SignalStore.ApplyReportAt | daemon/src/signals.rs:95-133 | accepts iff the time stamp is within 120,000 ms of the wall clock, either way, and the family is known; stores it under that family; the cache stays faithful to the log |
| Signals.SignalStore.ProfileVetoAt | daemon/src/signals.rs:139-205 | answers as the latest accepted report of the family among all ever received, unless more than the TTL has passed since it came in; drops exactly the entries that old |
| Scan.DecisionAgrees | daemon/src/main.rs:436-608 | the decision taken from the tracker's slot is the one the PID's whole history calls for |
| Scan.BurnDecides | daemon/src/main.rs:432-465 | with a snapshot of the same start time, a target is active iff it burnt more than the idle ticks since, and loses its flag iff it burnt more than the wakeup ticks |
| Scan.FirstSightIsActive | daemon/src/state.rs:89-111 | on first sight or under a new start time a target is active, with no idle cycles and no flag |
| Scan.GateExactly | daemon/src/main.rs:505-607 | which outcome a visit past the tracker has, in terms of RSS, veto, smaps, pidfd and kernel answers |
| Scan.TryPageOut | daemon/src/main.rs:505-607 | RSS floor, then veto, then page-out; each outcome classified as the source does, and the calls issued are those of that outcome |
| Scan.VisitTarget | daemon/src/main.rs:436-608 | the decision, the page-out calls and the new slot of the visited PID; all other slots untouched |
| Scan.VisitTargets | daemon/src/main.rs:436-608 | every visit is decided from its slot at the start of the cycle and the reports received so far; the calls of each visit; the counters grow by the decisions |
| Scan.ScanCycle | daemon/src/main.rs:386-635 | one cycle moves every PID's slot by its own observation, the unseen ones to empty, and books the decisions |
| Scan.Stats.Record | daemon/src/main.rs:465-607 | each counter grows, mod 2^64, by exactly what the decision contributes to it |
| Scan.CountersHoldTotals | daemon/src/telemetry.rs:8-34 | a cycle of decisions keeps every counter equal to its total over the run mod 2^64 |
| Scan.CountersCount | daemon/src/main.rs:465-607 | each outcome counter is the number of decisions of its own kind |
| Scan.EveryTargetIsAccounted | daemon/src/main.rs:416-607 | over any run targets seen are the skips, compressions, errors, exits and dry runs together |
| Daemon.OneCycle | daemon/src/main.rs:187-250 | a cycle keeps the tracker and the store equal to what the run's history defines |
| Daemon.RunDaemon | daemon/src/main.rs:182-278 | over any number of cycles every decision is the verdict of the PID's whole history, and so is the final tracker; the page-out calls of every visit; every counter is its total over the run |
| Promises.UnprotectedExactly | daemon/src/signals.rs:139-205 | no veto applies to a visit iff the family has no report received within the TTL, or its latest one has no audible, focused or recently used tab and a media sum of 0 modulo 2^32 |
| Promises.PageOutExactly | daemon/src/main.rs:462-607 | the daemon issues page-out calls for a PID iff warm-up is complete, it is not flagged, RSS meets the floor, no signal protects it, it is no dry run, and there is something to send; the calls name every region once, in order |
| Promises.DryRunTouchesNothing | daemon/src/main.rs:562-576 | in a dry run the list of calls is empty at every visit and no flag is ever set |
| Promises.CompressedIsPagedOut | daemon/src/main.rs:536-549 | a compression verdict is exactly a page-out of the history |
| Promises.OnceUntilActivity | daemon/src/state.rs:74-81 | between two compressions of a PID in any run lies a cycle where it was unobserved, changed start time or burnt more than the wakeup ticks; and the spacing law |
| Promises.SpacingExactly | daemon/src/config.rs:22-29 | over all runs of the daemon, for every signal configuration, two compressions of a PID are at least 1 + max(1, threshold) cycles apart iff cpu_delta_threshold does not exceed wakeup_delta_threshold (as 64-bit products), the warm-up is 2^32 - 1, or it is a dry run |
| Promises.CompressionBudget | daemon/src/state.rs:74-81 | a PID is compressed at most n / (1 + max(1, threshold)) times in n cycles of the daemon |
| Promises.BytesBalance | daemon/src/main.rs:536-549 | mod 2^64 the paged-out counter holds the bytes the kernel reported for all successful compressions, and with the skipped counter adds up to what they asked for |
| Promises.TargetsBalance | daemon/src/main.rs:416-607 | the targets counter is the sum of the outcome counters plus exits and dry runs, mod 2^64 |
| Scanner.ParseRendered | daemon/src/scanner.rs:92-99 | arguments rendered with single blanks come back iff each is non-empty and has no byte taken for a blank |
| Scanner.BothFormsTokeniseAlike | daemon/src/scanner.rs:86-99 | the NUL-separated and the blank-separated form give the same words, for any arguments |
| Scanner.RenderedWords | daemon/src/scanner.rs:92-99 | each argument is tokenised on its own, whatever blank separates them |
| Scanner.AccentSplitsArgument | daemon/src/scanner.rs:93-95 | a UTF-8 argument without blanks that comes out as two words |
| Scanner.AsciiArgv | daemon/src/scanner.rs:92-99 | the ASCII argv a process was started with is what the daemon sees, from either form |
| Scanner.ContainsExactly | daemon/src/scanner.rs:109-118 | the binary test finds the needle at any place of the name |
| Scanner.MatchProfile | daemon/src/scanner.rs:104-139 | true iff every constraint of the profile holds of the arguments |
| Scanner.FirstMatch | daemon/src/scanner.rs:166-172 | the first matching profile, none iff none matches |
| Scanner.DefaultsExactly | daemon/src/scanner.rs:47-84 | with the shipped profiles a process is a Firefox tab, else a Chromium renderer, else no target, each spelled out |
| Scanner.AnyPathIsFound | daemon/src/scanner.rs:47-84 | a Firefox tab is found wherever the browser is installed |
| Scanner.SameChoice | daemon/src/process_table.rs:101-117 | the table's classifier and the plain walk choose the same profile on every command line |
| Scanner.ScanTargets | daemon/src/scanner.rs:144-176 | exactly the live listed processes that match, each PID once |
| ProcEvents.DatagramRoundTrip | daemon/src/proc_connector.rs:303-411 | every kernel message, whatever surrounds it, decodes to what it means: leaders only, PIDs positive as signed numbers only |
| ProcEvents.OnlyMessagesCount | daemon/src/proc_connector.rs:303-411 | a packet yields at most one event, and only if it is a complete message of that meaning |
| ProcEvents.TruncationIsSilent | daemon/src/proc_connector.rs:309-323 | a datagram cut before the end of its message yields nothing |
| ProcessTable.TargetTable.ClassifyPid | daemon/src/process_table.rs:101-117 | the record a fresh scan would give the PID |
| ProcessTable.TargetTable.SeedFromProc | daemon/src/process_table.rs:77-96 | every listed process that matches is recorded, nothing else changes |
| ProcessTable.TargetTable.ApplyEvent | daemon/src/process_table.rs:146-182 | fork changes nothing, exec stores the current classification or drops a stale one, exit drops |
| ProcessTable.TargetTable.LiveTargets | daemon/src/process_table.rs:186-197 | exactly the table's entries, each PID once |
| ProcessTable.TargetTable.ReseedDriftCorrection | daemon/src/process_table.rs:216-254 | an undisturbed correction; dropped is the number of entries gone from the world, added the number of new keys, size after = size before + added - dropped |
| ProcessTable.ReseedRepairs | daemon/src/process_table.rs:216-254 | after an undisturbed correction of any table it differs from a fresh scan exactly at PIDs that were in the table and alive with a wrong record |
| ProcessTable.ReseedIdempotent | daemon/src/process_table.rs:216-254 | a second undisturbed correction changes nothing |
| TableRuns.StepInv | daemon/src/process_table.rs:50-254 | every step of world, seed walk, reader, lossy socket and correction keeps: a PID outside the blame has the record the current world gives, or a pending event will supply it |
| TableRuns.DrainedAgrees | daemon/src/process_table.rs:50-197 | after any interleaving, once the reader has caught up, table and fresh scan agree outside the blame |
| TableRuns.CatchesUp | daemon/src/process_table.rs:77-144 | from every state the seed walk and the reader, left alone, reach a drained state |
| TableRuns.ExecLiftsBlame | daemon/src/process_table.rs:153-173 | whatever went unreported before, reading and storing the last pending exec of a PID puts it right |
| TableRuns.CorrectionLiftsBlame | daemon/src/process_table.rs:204-254 | a correction puts right every PID not touched in its window with no event pending, unless it was alive and in the table |
| TableRuns.LiveTargetsAreScanned | daemon/src/process_table.rs:50-117 | with lossless events, subscription before the seed, children that match only after exec and corrections that overwrite nothing touched in their window, live targets equal scanned targets as sets |
| TableRuns.ReseedUndisturbedAt | daemon/src/process_table.rs:216-254 | a correction interleaved with anything gives the undisturbed result at every PID not touched in its window |
| TableRuns.ReactionSufficesExactly | daemon/src/process_table.rs:146-182 | from an agreeing quiet state, the reader's reaction to one world step restores agreement iff no child matched at birth and no argv rewrite changed the match |
| TableRuns.LossIsHarmlessExactly | daemon/src/process_table.rs:204-212 | from an agreeing quiet state, a lost exec or exit event leaves the table right iff the record did not change |
| TableRuns.ReseedWriteExactly | daemon/src/process_table.rs:216-254 | a correction that ends on an agreeing drained table keeps it right iff each overwritten PID touched in its window is still what the correction takes it for |
| TableRuns.WriteExactlyAt | daemon/src/process_table.rs:241-252 | the same for a single PID whose record was right, in any state the system reaches |
| TableRuns.MatchingForkIsMissed | daemon/src/process_table.rs:148-152 | a child that matches without exec stays invisible, whatever the profiles |
| TableRuns.LostExecIsMissed | daemon/src/process_table.rs:153-181 | a lost exec event hides a target |
| TableRuns.ReseedCanDropLiveTarget | daemon/src/process_table.rs:217-249 | a reachable case without lost events where the condition of ReseedWriteExactly fails: a live target is thrown out |
| TableRuns.ReseedCanReviveDeadTarget | daemon/src/process_table.rs:233-252 | a reachable case without lost events where the condition of ReseedWriteExactly fails: a dead target is recorded |
| Sched.BpfMaps.HandleSchedSwitch | daemon/src/bpf/cpu_tracker.bpf.c:72-112 | the three maps after a switch: time booked to the task going off, stamp and write-once birth for the one coming on |
| Sched.BpfMaps.Forget | daemon/src/bpf_cpu_tracker.rs:117-123 | removes the PID's three entries |
| Sched.StepInv | daemon/src/bpf/cpu_tracker.bpf.c:72-112 | on any number of CPUs the stamp is never older than a running interval, and the counter is completed time less lost time mod 2^64 |
| Sched.OnCpuGrows | daemon/src/bpf/cpu_tracker.bpf.c:61-70 | the reference on-CPU time grows by the elapsed time per running CPU |
| Sched.SwitchKeepsOnCpu | daemon/src/bpf/cpu_tracker.bpf.c:61-70 | a switch neither creates nor destroys on-CPU time |
| Sched.NeverOvercounts | daemon/src/bpf/cpu_tracker.bpf.c:72-112 | for any CPUs, threads and interleaving the counter never exceeds true on-CPU time since load or the last forget |
| Sched.SoloIsExact | daemon/src/bpf/cpu_tracker.bpf.c:72-112 | with at most one thread of the group running and tracking begun off-CPU the counter is the completed time mod 2^64 |
| Sched.CountExactly | daemon/src/bpf/cpu_tracker.bpf.c:84-99 | while it fits 64 bits the counter equals the completed time iff no switch took a thread off after a sibling came on, or before any came on; a condition on the steps alone |
| Sched.StampIsLastIn | daemon/src/bpf/cpu_tracker.bpf.c:97-99 | the start stamp is the time of the group's last switch-in since load or forget |
| Sched.OverlapUndercounts | daemon/src/bpf/cpu_tracker.bpf.c:84-99 | two overlapping threads: ten of fifteen nanoseconds are counted |
| BpfPath.EntriesOnlyGrow | daemon/src/bpf/cpu_tracker.bpf.c:84-109 | between forgets the birth entry is constant and the runtime entry never decreases |
| BpfPath.RunInv | daemon/src/main.rs:445-462 | along any run a readable entry stays readable with the same birth, and the tracker's snapshot was read from it |
| BpfPath.DeltaIsExact | daemon/src/main.rs:313-326 | whenever the tracker has a snapshot the delta it computes is the exact difference and the start times agree |
| BpfPath.BirthIsFirstStart | daemon/src/bpf/cpu_tracker.bpf.c:101-109 | the birth entry is the start time of the first task switched in since load or forget |
| BpfPath.ReuseGoesUnnoticed | daemon/src/state.rs:90-103 | a run in which a recycled PID is visited again: it is read with the first task's start time, and the tracker counts it as an idle cycle of the old process |
| Frames.ReadFrame | bridge/src/nmh.rs:22-45 | reading from a stream gives the value or an error and leaves the rest as specified |
| Frames.WriteFrame | bridge/src/nmh.rs:47-64 | writes one frame, or nothing when the body is over the limit |
| Endian.Word | bridge/src/nmh.rs:60 | the four bytes of a length, least significant first |
| Frames.ReadBackAll | bridge/src/nmh.rs:22-64 | n frames of any sendable values read back as those values and leave any suffix untouched |
| Frames.ReadExactly | bridge/src/nmh.rs:22-45 | a value is read iff the stream starts with a frame of a body of 1 byte to 1 MiB that decodes to it; empty and oversize frames are rejected |
| Frames.TruncatedFails | bridge/src/nmh.rs:22-45 | no strict prefix of a frame yields a value |
| Bridge.RunBridge | bridge/src/main.rs:110-163 | all bytes written, for any input, daemon loss or termination |
| Bridge.OneReplyPerFrame | bridge/src/main.rs:135-163 | while nothing stops the loop it writes a frame for exactly each answer that fits one, in order, whatever the answers |
| Bridge.BrowserReadsAnswers | bridge/src/main.rs:169-215 | the browser reads one frame back per request iff every answer fits a frame, and then it reads the answers in order |
| Bridge.GoneDaemonIsReportedOnce | bridge/src/main.rs:151-158 | a daemon that goes away is reported in one frame, after the answers so far and in answer to the next request, and nothing more is written |
| Bridge.StopsSilently | bridge/src/main.rs:136-149 | a termination request, the end of the input or a malformed frame ends the loop without another word |
| NativePort.ServiceWorker.SendNative | extension/background.js:290-311 | connects if needed, queues the resolver, and on a failed post takes out this resolver only and rejects |
| NativePort.ServiceWorker.HandleMessage | extension/background.js:272-275 | the oldest resolver gets the frame; a frame nobody waits for is ignored |
| NativePort.ServiceWorker.HandleDisconnect | extension/background.js:276-282 | rejects every pending resolver in order and clears the port |
| NativePort.SettledAtMostOnce | extension/background.js:266-311 | in every run each request is settled, pending or lost to hibernation, in exactly one place and exactly once; nothing is pending without a port |
| NativePort.ResolvedInSendOrder | extension/background.js:260-311 | in every run promises resolve in the order their requests were sent |
| NativePort.StepSettles | extension/background.js:266-311 | in every run a failed send rejects its own request, a delivery resolves the oldest pending one with the very frame delivered, a disconnect rejects all pending in order, and nothing else settles anything |
| NativePort.DeliveredReplySettles | extension/background.js:271-275 | with no reply left unwritten before it, an arriving reply finds its own request first in the queue and settles it with exactly that reply |
| NativePort.NoticeOnlyIfWritten | bridge/src/main.rs:115-128 | at most one promise is told that the daemon is unreachable for each bridge that found it so |
| NativePort.OwnReplyExactly | extension/background.js:260-311 | in every run a promise resolved by a reply gets the one to its own request iff the bridge had left no reply unwritten on that port before |
| NativePort.UnfitReplyMisplaces | bridge/src/main.rs:212-214 | for every reply that does not fit there is a run in which a promise resolves with another request's reply |
| NativePort.PairingExactly | bridge/src/main.rs:212-214 | replies and promises match in all runs iff every reply fits a frame |
| NativePort.PairingBySize | bridge/src/nmh.rs:51-58 | they match in all runs iff no encoded response exceeds the size guard of the frame writer |

## Left out

- Sockets, netlink, pidfd, `process_madvise`, `poll` and libbpf: foreign effects, represented by oracles and streams.
- The HTTP servers, peer-credential checks and socket clean-up of the signal store, and the bridge's HTTP client: plumbing
  over libraries; the answer of `handle_frame` is a parameter of the bridge model.
- JSON and TOML: JSON is an abstract codec, the configuration a record of values.
- Pressure-stall events: they only start additional cycles, and a run may contain any cycles.
- The ticks-to-nanoseconds conversion of readings on the fallback path, and `rss_mib`: a visit carries the readings.
- bridge/src/install.rs, daemon/src/zram.rs, logging, build scripts, examples and benchmarks.
- Options page, content script, alarm and permission wiring of the extension: browser glue.
- The text of veto details and the report fields `veto_ttl_ms` and `instance_id`: the veto does not consult them.
- Races inside one run of the context-switch handler, between the two map lookups of a reading or the three deletions of a
  forget; exhausted map capacity; clocks that differ between CPUs.
- A poisoned lock, and an unreadable `/proc` directory in the seed walk or the correction: both leave the table as it is.
- Big-endian machines: native-endian words are modelled as little-endian.
- TableRuns.DrainedAgrees: goes one way only. A PID inside the blame may happen to be right, because unreported changes can
  cancel out; `ReactionSufficesExactly`, `LossIsHarmlessExactly` and `ReseedWriteExactly` are exact for each single cause.
- Smaps.SmapsRoundTrip: mapping lines must not contain a line feed or end in a carriage return, which the line splitter
  would take for part of the line ending.
- BpfPath.DeltaIsExact: assumes that a process's on-CPU time fits 64 bits of nanoseconds, some 584 years.
- A write to the browser that fails for another reason than size: it means that the port has ended.
