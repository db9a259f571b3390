# asslcapture, modelled and proved

asslcapture captures network traffic on Android together with the TLS secrets that decrypt
it. This project models the parts of it that are state machines, transformations or
arithmetic, and proves what they promise.

- **Delayed packets** (`BufferSize`, `DelayQueue`, `DelayRing`, `SlabPool`, `Pipeline*`). A
  reader, a goroutine with a circular buffer and a writer pass packets on, in slots of one
  slab, so that secrets get into the file before the packets they decrypt. The buffer and
  the slab are classes; the three goroutines are a machine of atomic steps, and the theorems
  are about all of its runs: order, no loss, the delay guarantee, ownership of slots, timers
  and batches.
- **Breakpoints** (`Ptrace*`). The engine's goroutine, a kernel that stops, resumes, clones
  and ends threads as it likes, and the traced program's text. What is proved: the text stays
  true, when the cleanup restores it, when a breakpoint is left out or a hook is lost, what
  the consumer is told of hits, and that tracing is invisible to the program.
- **Line format** (`Kv*`, `CacheFile`). Quoting, typed values, properties, comments and
  files. Printing and parsing are methods with the loops of the program, proved against
  specification functions; the theorems are round trips, exact conditions for them,
  soundness of the parser and canonical output, and that the scanner's cache is one such file.
- **Scanner** (`TaskQueue*`, `ScanTask`, `ScanWalk`, `ScanCache*`). Workers around a mutex and
  a condition variable, the outcome and accounting of scans, and the two-level cache under
  concurrent workers and changing files.
- **Perf ring and hand-off** (`PerfRing*`, `EventHandoff`, `EventChannel`). The wrapped byte
  ring that the kernel writes, read as a queue of records, and the bounded channel with its
  drop counter, up to what the iterator yields.
- **Register tracker** (`RegisterTracker`, `LogSecret`). The constants that the analyzer
  tracks through ARM64 code, against a machine, and what it concludes.

`dafny verify dfyconfig.toml` checks everything.

## Where the program and its comments differ

The model follows the code. Each of these is stated as a lemma, with the exact condition or
a concrete run:

- On cancellation, buffered packets are thrown away; the comment on `PcapNG` says they are
  flushed (`CancellationExact`, `CancellationDiscards`).
- `computeBufferSize` overflows int64 for long delays, and then returns too small a size
  (`SizingExact`, `SizingOverflows`).
- A thread that single-steps has its running flag down. The cleanup may pick it, its writes
  are refused, and breakpoints stay in the detached program (`CleanupExact`,
  `CleanupLeavesBreakpoint`). A hook that overlaps another one saves a wrong word
  (`OverlapSavesWrong`). An error of `wait4` ends tracing without any cleanup
  (`FailureSkipsCleanup`).
- A breakpoint is left out when the last thread on a step over it exits, or is stopped by a
  signal or a ptrace event and sent on: the engine clears `stepping`, and writes brk back,
  only at the next plain trap (`NoneStaysOut`, `SignalLoses`, `ExitLoses`).
- A hook command that picks a thread on its step is refused by the kernel and forgotten
  (`HookLostExact`, `HookLost`).
- An iteration over hits that its context ends may leave drops untold (`AllToldExact`,
  `DropNeverTold`).
- An empty key, a hash with an unsuitable algorithm and a comment with trailing blanks are
  written but do not come back (`LineRoundTripExact`, `HashRoundTripExact`,
  `HashOnLineExact`, `CommentRoundTripExact`).
- The scanner stores the hash of the file it opened with the metadata of a later stat
  (`StoredCoherentExact`, `StoredCoherentRun`, `ReplacedWhileScanned`).
- A record that runs past the head stops the ring reader for as long as the head stands
  still, and its caller loops (`StuckExact`, `StuckReads`, `StuckRing`); one that is too long
  for the data makes it panic (`PanicRing`). A kernel that keeps its promise writes neither
  (`ReaderIsAQueue`).
- The test `dropped > 0` in `read` never succeeds, because the counter is loaded only by the
  deferred function. Drops may come with `ok=false` or with an interrupted read, and an
  event may be received while the context is done; `Events` yields none of these
  (`OverMeansEmpty`, `YieldsExact`, `YieldsAllDropsExact`, `YieldsAllEventsExact`,
  `DropNotYielded`, `InterruptLosesDrop`, `CanceledLosesEvent`).
- A branch to a register records the value last tracked for it even if the register is no
  longer known (`StaleTargetExact`, `KnownTargetExact`, `StaleTargetRecorded`).

## Model

| member | source | states |
|---|---|---|
| `BufferSize.Wrap` | internal/capture/pcapng.go:76-97 | int64 storage of a result: in range, and the value itself if it fits |
| `BufferSize.QuotientTruncates` | internal/capture/pcapng.go:77-92 | division of signed numbers truncates toward zero |
| `BufferSize.TermExact` | internal/capture/pcapng.go:77-92 | a rounded-up term is the true one exactly as long as its dividend does not overflow; an overflowing one always comes out too small |
| `BufferSize.NeedIsLeast` | internal/capture/pcapng.go:77-92 | rounding up gives the least packet count that holds the traffic of one rate |
| `BufferSize.MaxIsLeast` | internal/capture/pcapng.go:94-96 | the larger of the two terms is the least count that holds both rates |
| `BufferSize.SizingExact` | internal/capture/pcapng.go:76-97 | the formula returns twice the least sufficient count if and only if the dominating term does not overflow |
| `BufferSize.SizingOverflows` | internal/capture/pcapng.go:114-117 | the default rates with a ten-second delay overflow: the size that comes back does not hold the traffic |
| `BufferSize.DefaultSize` | internal/capture/pcapng.go:55-58 | the defaults do not overflow and ask for 10294 packets |
| `BufferSize.LimitsMeetArrivalBound` | internal/capture/pcapng.go:60-66 | traffic within the peak limits has at most half the computed size of arrivals in any window as long as the delay |
| `DelayQueue.BatchIsShortest` | internal/capture/pcapng.go:321-328 | a call of sendDue takes the shortest prefix after which nothing is due |
| `DelayQueue.PassesAreBatch` | internal/capture/pcapng.go:321-342 | the passes of sendDue's loop, one by one, send the shortest prefix after which nothing is due, with the drops told once, on its first packet, and the end mark on exactly its last |
| `DelayQueue.BatchStep` | internal/capture/pcapng.go:321-331 | the packet of one pass of the loop, with its marks, is the next one of the batch |
| `DelayQueue.FlushTakesAll` | internal/capture/pcapng.go:348-351 | flushing takes everything |
| `DelayQueue.BatchMeets` | internal/capture/pcapng.go:316-344 | after a call the ring is at most half full and holds nothing overdue; a packet goes early only to get the ring down to half |
| `DelayQueue.InsertConserves` | internal/capture/pcapng.go:353-365 | an insertion keeps every packet, in order, or counts it as dropped, and drops one exactly if the ring is full |
| `CaptureRing.DelayRing.constructor` | internal/capture/pcapng.go:283-295 | an empty ring of the given size |
| `CaptureRing.DelayRing.TakeHead` | internal/capture/pcapng.go:322-325 | the circular buffer loses its oldest entry, in place |
| `CaptureRing.DelayRing.Receive` | internal/capture/pcapng.go:353-365 | a packet goes in at the tail; a full ring first loses its oldest packet and counts it |
| `CaptureRing.DelayRing.NextReady` | internal/capture/pcapng.go:322-331 | the oldest packet with the drops before it, marked last exactly if nothing stays due |
| `CaptureRing.DelayRing.SendDue` | internal/capture/pcapng.go:318-344 | an uncancelled call sends exactly the batch; a cancelled one sends what the writer took and releases all the rest in order |
| `CaptureRing.DelayRing.Drain` | internal/capture/pcapng.go:375-382 | a shutdown releases every buffered packet, oldest first |
| `CaptureRing.DelayRing.ScheduleTimer` | internal/capture/pcapng.go:297-314 | the timer is armed for the head deadline or now, and disarmed on an empty ring |
| `SlabPool.RoomForMissing` | internal/capture/pcapng.go:482-492 | a channel of distinct slots that misses one has room for it |
| `SlabPool.SlabPool.constructor` | internal/capture/pcapng.go:449-459 | all slots are free and marked, in order |
| `SlabPool.SlabPool.Alloc` | internal/capture/pcapng.go:470-480 | a fitting request takes the first free slot and clears its marker, and nothing else changes; any other gets memory outside the slab |
| `SlabPool.SlabPool.Release` | internal/capture/pcapng.go:482-492 | a slot goes back to the end of the pool; the panic happens exactly on a free slot; the send never blocks; memory from elsewhere is ignored |
| `SlabPool.SlabPool.Fill` | internal/capture/pcapng.go:237-238 | a copy into a slot reaches no other slot and no marker |
| `SlabPool.SlabPool.MarkersApart` | internal/capture/pcapng.go:453-457 | the marker of a slot is no byte of any slot and no other marker |
| `PipelineTheorems.InvStep` | internal/capture/pcapng.go:217-426 | every atomic step of the three goroutines keeps the control, order, time, file and slot invariants |
| `PipelineTheorems.RunKeepsOrder` | internal/capture/pcapng.go:318-368 | in every run: at most half full when waiting, the drop-oldest branch is never taken, and the file is a prefix, in order, of what was sent |
| `PipelineTheorems.RunWritesAll` | internal/capture/pcapng.go:346-352 | if the input closes without shutdown or write error, all packets sent are in the file |
| `PipelineTheorems.RunAccountsForAll` | internal/capture/pcapng.go:217-426 | at any time the packets sent are those in the file, in the hands of each goroutine, thrown away, in the ring and in the channel, in this order |
| `PipelineTheorems.CancellationExact` | internal/capture/pcapng.go:316-385 | once the ring goroutine has returned and the writer holds nothing, all that reached the ring is in the file if and only if no packet was in the ring or in hand when the shutdown was seen, and no write failed |
| `PipelineTheorems.CancellationDiscards` | internal/capture/pcapng.go:332-385 | a run in which a buffered packet is thrown away after a shutdown and is not in the file, against the comment in lines 101-102 |
| `PipelineTheorems.DelayGuarantee` | internal/capture/pcapng.go:318-369 | if no window as long as the delay has more arrivals than half the ring, no packet is written ahead of its deadline before the input closes |
| `PipelineTheorems.SecretsComeFirst` | internal/capture/pcapng.go:387-426 | under that bound, a secret handled before a packet was due precedes it in the file |
| `PipelineTheorems.SizedForTraffic` | internal/capture/pcapng.go:60-97 | a ring sized by the formula gives the guarantee to traffic within the limits it was sized for |
| `PipelineTheorems.SlotsHaveOneOwner` | internal/capture/pcapng.go:230-245 | each slot has exactly one owner in every run; free and outstanding slots total n; no double-free panic, no blocked return |
| `PipelineTheorems.TimerArmed` | internal/capture/pcapng.go:297-314 | when the ring waits with packets, the head has the earliest deadline and the timer is armed for it, or for the time of arming if later |
| `PipelineTheorems.TimerSends` | internal/capture/pcapng.go:370-374 | when that time comes, firing hands the head packet to the writer |
| `PipelineTheorems.BatchesAreFlushed` | internal/capture/pcapng.go:420-424 | when both goroutines wait, every packet written has been flushed |
| `PipelineTheorems.StepsSendBatch` | internal/capture/pcapng.go:321-342 | the atomic steps hand over exactly the batch that the in-place SendDue sends, packets, drop counts and marks |
| `PipelineTheorems.HeapOnlyWhenFull` | internal/capture/pcapng.go:470-480 | a captured packet is kept outside the slab exactly if it is longer than a slot or all slots are in use; otherwise it gets one that nobody holds |
| `PipelineTheorems.ReaderCloses` | internal/capture/pcapng.go:217-245 | the channel of packets is closed exactly when the reader has returned |
| `PipelineTheorems.NoCaptureAfterClose` | internal/capture/pcapng.go:217-245 | nothing is captured after the handle has been closed |
| `PipelineTheorems.ClosingFlushes` | internal/capture/pcapng.go:346-352 | a run in which a packet that waits for its deadline is written ahead of it when the input closes, and marked so |
| `PipelineTheorems.DelayWrites` | internal/capture/pcapng.go:370-374 | a run in which a packet is written when its deadline has come |
| `Ptrace.InstallPendingKeeps` | internal/probe/pprobe/internal/phook.go:416-424 | installing pending hooks changes only the text, the breakpoints and the pending list |
| `PtraceProcess.Process.PokeText` | internal/probe/pprobe/internal/phook_arm64.go:68-76 | a write succeeds only through a stopped thread to mapped text, and changes just the word |
| `PtraceProcess.Process.InstallThread` | internal/probe/pprobe/internal/phook.go:426-439 | one hook through one thread: unresolved, known or inaccessible addresses change nothing; otherwise the word is saved and replaced |
| `PtraceProcess.Process.InstallPending` | internal/probe/pprobe/internal/phook.go:416-424 | all pending hooks in order, and the list is emptied |
| `PtraceProcess.Process.Cont` | internal/probe/pprobe/internal/phook.go:390-394 | pending hooks, the running flag, and resumption |
| `PtraceProcess.Process.FindStopped` | internal/probe/pprobe/internal/phook.go:396-403 | some thread whose running flag is down, exactly if there is one |
| `PtraceProcess.Process.Install` | internal/probe/pprobe/internal/phook.go:396-414 | a hook goes in through a thread taken for stopped, or becomes pending |
| `PtraceProcess.Process.Emit` | internal/probe/pprobe/internal/phook.go:195-207 | a hit is yielded if the consumer waits and counted as dropped otherwise |
| `PtraceProcess.Process.HandleBreakpoint` | internal/probe/pprobe/internal/phook_arm64.go:20-56 | a trap ends a step, is foreign, or is a hit: logged, breakpoint out, single step |
| `PtraceProcess.Process.OnStop` | internal/probe/pprobe/internal/phook.go:298-329 | what one reported stop of any kind does |
| `PtraceProcess.Process.Restore` | internal/probe/pprobe/internal/phook.go:379-383 | the restoring loop writes every saved word through one thread |
| `PtraceTheorems.TextStaysTrue` | internal/probe/pprobe/internal/phook.go:243-439 | under any interleaving of stops, signals, clones, exits and hook commands and any failing access: text outside breakpoints is the original, saved words are the originals, and at each breakpoint there is brk or the original |
| `PtraceTheorems.AlignedSeparate` | internal/probe/pprobe/internal/phook_arm64.go:16-16 | instruction-aligned breakpoints never overlap, which TextStaysTrue asks for |
| `PtraceTheorems.OverlapSavesWrong` | internal/probe/pprobe/internal/phook_arm64.go:58-66 | for overlapping breakpoints, the second above or below the first, the second saved word is the original if and only if brk agrees with it on the shared bytes |
| `PtraceTheorems.OverlapExample` | internal/probe/pprobe/internal/phook_arm64.go:58-66 | a hook two bytes behind another saves a word that is not the program's |
| `PtraceTheorems.CleanupExact` | internal/probe/pprobe/internal/phook.go:331-388 | if its writes are not refused, the cleanup restores the whole text if and only if the thread it picks is in a stop, or nothing had to be restored |
| `PtraceTheorems.CleanupLeavesBreakpoint` | internal/probe/pprobe/internal/phook.go:372-383 | a run in which Close comes during a single step and leaves a brk in the detached program |
| `PtraceTheorems.CleanupPick` | internal/probe/pprobe/internal/phook.go:372-378 | a thread the cleanup may pick is not in a stop exactly if it is gone or still stepping |
| `PtraceTheorems.NoneLeftStopped` | internal/probe/pprobe/internal/phook_arm64.go:53-55 | between passes no thread stays stopped, and a thread with the running flag down is one sent on a step |
| `PtraceTheorems.HitsConserved` | internal/probe/pprobe/internal/phook.go:195-207 | each hit of the log was at an installed breakpoint, and was taken by the consumer, in order, or counted |
| `PtraceThreads.ThreadsExact` | internal/probe/pprobe/internal/phook.go:291-329 | in every run the traced threads are exactly those that were attached, or were reported as made by a traced thread and have made their first stop, and have not exited; the pending ones are those whose first stop is awaited; told by the events alone |
| `PtraceThreads.ClonesAreTraced` | internal/probe/pprobe/internal/phook.go:300-319 | a thread that a traced thread makes is pending up to its first reported stop, and traced from then on until it exits |
| `PtraceThreads.HitsComplete` | internal/probe/pprobe/internal/phook_arm64.go:20-56 | the hits are, in order, exactly the traps at installed breakpoints of traced threads that are not on a step |
| `PtraceThreads.SteppingExact` | internal/probe/pprobe/internal/phook_arm64.go:20-56 | a thread is taken for stepping over a breakpoint exactly if its last plain trap was a hit there |
| `PtraceThreads.CloneIsTraced` | internal/probe/pprobe/internal/phook.go:298-319 | a run in which a new thread makes its first stop and then hits a hook |
| `PtraceThreads.AppearsEitherWay` | internal/probe/pprobe/internal/phook.go:298-319 | a new thread may appear stopped or running |
| `PtraceThreads.FailureSkipsCleanup` | internal/probe/pprobe/internal/phook.go:277-280 | a run in which wait4 fails: tracing ends without the cleanup, and a brk stays in the program |
| `PtraceThreads.ExitDuringClose` | internal/probe/pprobe/internal/phook.go:331-388 | a thread that exits during the cleanup is no longer picked |
| `PtraceEvents.ConsumerIsTold` | internal/probe/pprobe/internal/phook.go:134-207 | whatever the tracer, the consumer, its context and Close do: the calls of the loop body, what is about to be told and the counter tell every hit, in order, those taken and those missed |
| `PtraceEvents.HitInItsPlace` | internal/probe/pprobe/internal/phook.go:138-140 | the drops that come with a hit are exactly the hits dropped between the previous call and this hit |
| `PtraceEvents.EmitIsAnswered` | internal/probe/pprobe/internal/phook.go:195-207 | emit never waits for a consumer that is not there |
| `PtraceEvents.AllToldExact` | internal/probe/pprobe/internal/phook.go:134-167 | between iterations everything has been told if and only if each dropped hit is followed by one that was taken, or by an iteration that saw the end |
| `PtraceEvents.EndTellsAll` | internal/probe/pprobe/internal/phook.go:152-161 | an iteration that runs to the end of tracing leaves no drop untold |
| `PtraceEvents.DropNeverTold` | internal/probe/pprobe/internal/phook.go:162-163 | a run in which the context ends the iteration and a drop is never told |
| `PtraceEvents.FlagsExact` | internal/probe/pprobe/internal/phook.go:134-207 | tracing is over, has failed or is being closed exactly if that has happened, and an iteration is canceled exactly if its own context was |
| `PtraceEvents.SelectAnswers` | internal/probe/pprobe/internal/phook.go:134-167 | an iterator at its select can return once tracing or its context is over, and takes the next hit otherwise |
| `PtraceEvents.GoesOnExact` | internal/probe/pprobe/internal/phook.go:139-151 | after a hit the iteration goes on if and only if the loop body asked for more and the context is not done |
| `PtraceEvents.NoEmptyCall` | internal/probe/pprobe/internal/phook.go:134-167 | the loop body is called with a hit or with a positive number of drops |
| `PtraceEvents.HitTaken` | internal/probe/pprobe/internal/phook.go:195-207 | a run in which a hit is taken and both sides go on |
| `PtraceTheorems.NoneStaysOut` | internal/probe/pprobe/internal/phook.go:298-329 | while it traces, every breakpoint that is out is being single-stepped over, up to and not beyond the first event that loses one: the last thread on such a step is gone, or is stopped by anything but the end of its step, or brk cannot be written back |
| `PtraceTheorems.SignalLoses` | internal/probe/pprobe/internal/phook.go:313-328 | a run in which a signal during the step sends the thread on without its breakpoint, while the engine takes it for stepping |
| `PtraceTheorems.ExitLoses` | internal/probe/pprobe/internal/phook.go:291-294 | a run in which a thread exits during its step, and the others go on without the breakpoint |
| `PtraceTheorems.HookLostExact` | internal/probe/pprobe/internal/phook.go:396-439 | a hook that could be installed is neither installed nor pending if and only if the command picks a thread that is gone or on its step |
| `PtraceTheorems.HookLost` | internal/probe/pprobe/internal/phook.go:396-406 | a run in which a second hook is lost in this way |
| `PtraceExecution.OneInstruction` | internal/probe/pprobe/internal/phook_arm64.go:20-56 | one instruction of the program takes one step of the traced thread, or two at a hook, and computes the same |
| `PtraceExecution.TracingIsInvisible` | internal/probe/pprobe/internal/phook_arm64.go:42-56 | with one thread and no other stops, the traced program computes what the untraced one does, the hits are its arrivals at hooks in order, and all breakpoints are in again |
| `KvText.CutBareToken` | internal/kvlines/decode.go:191-197 | a text without delimiters is cut off whole before a delimiter or the end |
| `KvText.CutBareSplits` | internal/kvlines/decode.go:191-197 | cutBare splits the text before its first delimiter |
| `KvText.LinesOfTerminated` | internal/kvlines/decode.go:42-44 | lines ended one by one are read one by one |
| `KvSyntax.TokenExact` | internal/kvlines/decode.go:191-197 | cutBare returns a token and a rest if and only if they make up the text, the token has no blank, equals sign, hash or quote, and the rest starts with one or is empty |
| `KvSyntax.LineEndExact` | internal/kvlines/decode.go:54-54 | carriage returns, line feeds and blanks at the end of a line are trimmed, and nothing else |
| `KvSyntax.CommentExact` | internal/kvlines/decode.go:183-189 | a comment is what follows the hash and one space, if there is one, without blanks at the end |
| `KvSyntax.FileStarts` | internal/kvlines/encode.go:17-28 | a file starts with a hash, a space and the tag on their own line |
| `KvQuote.RuneRoundTrip` | internal/kvlines/kvlines.go:172-182 | decoding a UTF-8 sequence and encoding the rune gives the bytes back |
| `KvSyntax.RuneHasSequence` | internal/kvlines/decode.go:207-208 | every code point but the surrogates has a UTF-8 sequence, as in section 3 of RFC 3629, which decodes to it |
| `KvQuote.UnquoteQuote` | internal/kvlines/decode.go:207-208 | Unquote inverts Quote on every byte string, valid UTF-8 or not |
| `KvSyntax.LetterEscapes` | internal/kvlines/decode.go:207-208 | the letters after a backslash that stand for control characters, backslash and quote |
| `KvSyntax.HexEscapes` | internal/kvlines/decode.go:207-208 | escapes with x, u and U decode if and only if their digits are hexadecimal and name a byte, or a code point that is no surrogate; of either case |
| `KvSyntax.OctalEscapes` | internal/kvlines/decode.go:207-208 | three octal digits decode if and only if they name a byte |
| `KvSyntax.OtherEscapes` | internal/kvlines/decode.go:207-208 | no other escape and no cut-off one is accepted |
| `KvSyntax.PlainExact` | internal/kvlines/decode.go:207-208 | a UTF-8 sequence stands for itself and any other byte for the replacement character |
| `KvSyntax.LettersWritten` | internal/kvlines/kvlines.go:172-182 | Quote writes the control characters that have a letter with it |
| `KvSyntax.AsciiWritten` | internal/kvlines/kvlines.go:172-182 | it writes other ASCII characters as they are from space to tilde, with a backslash before quotes and backslashes, and as two lower-case hexadecimal digits otherwise |
| `KvSyntax.WideWritten` | internal/kvlines/kvlines.go:172-182 | it writes printable sequences as they are, others as a code point of four digits, or eight for sequences of four bytes, and stray bytes as two digits |
| `KvSyntax.UnquoteExact` | internal/kvlines/decode.go:199-213 | what Unquote accepts is on one line, and the scan for the closing quote ends precisely where it does |
| `KvQuote.ScanQuoteBody` | internal/kvlines/decode.go:199-213 | the escape-skipping scan stops at precisely the closing quote |
| `KvSyntax.ClosingQuote` | internal/kvlines/decode.go:199-213 | the scan stops at the first quote that has an even number of backslashes before it |
| `KvQuote.ScanToQuote` | internal/kvlines/decode.go:199-213 | cutQuoted's loop finds where the scan ends, or that it does not |
| `KvQuote.CutValueQuoteStr` | internal/kvlines/decode.go:216-229 | cutValue after quoteStr gives back every non-empty byte string and the rest of the line |
| `KvQuote.EmptyValueLost` | internal/kvlines/kvlines.go:172-175 | an empty value is written as nothing and not cut off again |
| `KvSyntax.BareExact` | internal/kvlines/kvlines.go:172-195 | a string is written as it is if and only if all of it is letters, digits and -_./:+ |
| `KvValue.IntRoundTrip` | internal/kvlines/encode.go:115-122 | every int64 survives its decimal text |
| `KvSyntax.DigitsExact` | internal/kvlines/decode.go:141-152 | digits of the base, of either case, count by their place; anything else is refused |
| `KvSyntax.IntExact` | internal/kvlines/decode.go:138-142 | a signed number is read as n if and only if it is decimal digits after a sign or none that come to n, within 64 bits |
| `KvSyntax.IntWritten` | internal/kvlines/encode.go:115-122 | a number is written with a sign exactly if it is negative, without leading zeros, and with digits that come to it |
| `KvSyntax.UintExact` | internal/kvlines/decode.go:143-152 | an unsigned number is read as u if and only if it is digits that come to u, hexadecimal after 0x or 0X and decimal otherwise, below 2^64 |
| `KvSyntax.TruncateExact` | internal/kvlines/decode.go:142-152 | a narrower field keeps the number in its range that is congruent modulo its width |
| `KvValue.HexStringRoundTrip` | internal/kvlines/types.go:92-97 | hex digits, as in section 8 of RFC 4648, decode to the digest |
| `KvSyntax.DigestExact` | internal/kvlines/decode.go:169-174 | a digest is read as v if and only if it has two hexadecimal digits for every byte of v, high digit first |
| `KvValue.HashRoundTripExact` | internal/kvlines/decode.go:163-177 | a hash survives its text if and only if it is zero or has a non-empty algorithm without a colon |
| `KvValue.DecodePlain` | internal/kvlines/decode.go:130-181 | decoding the text of a value of any kind gives the value back, within its range |
| `KvSyntax.DecodedHasKind` | internal/kvlines/decode.go:130-181 | whatever decodeVal accepts is a value of its kind, within its range |
| `KvValue.ValueThroughLine` | internal/kvlines/encode.go:98-129 | an encoded value stays on its line and is cut off whole |
| `KvObject.CommentRoundTripExact` | internal/kvlines/decode.go:183-189 | a comment comes back if and only if it is valid UTF-8 without CR, LF and trailing blanks |
| `KvObject.PropsRoundTrip` | internal/kvlines/decode.go:97-115 | the property loop reads back what encodeObj wrote, optional zero properties included |
| `KvObject.LineReadsCleaned` | internal/kvlines/encode.go:46-80 | an encoded line is read as its object with the comment cleaned |
| `KvObject.ObjRoundTrip` | internal/kvlines/decode.go:85-128 | decodeObj inverts encodeObj |
| `KvLine.DecodePropsExact` | internal/kvlines/decode.go:97-115 | the property loop accepts exactly lists of known names, each once, whose texts decode, and assigns each to its property |
| `KvLine.DecodeObjExact` | internal/kvlines/decode.go:85-128 | decodeObj returns o if and only if the line describes o: key, each listed property once, required ones present, others zero, comment |
| `KvParsing.UnlistedExact` | internal/kvlines/decode.go:117-121 | a property that a line does not list is optional and has the zero value of its type |
| `KvLine.ReadProps` | internal/kvlines/decode.go:97-115 | decodeObj's property loop computes what the specification says, error for error |
| `KvLine.MissingProp` | internal/kvlines/decode.go:117-121 | a required property is missing |
| `KvLine.DecodeLine` | internal/kvlines/decode.go:85-128 | decodeObj as a method equals its specification |
| `KvLine.WriteProps` | internal/kvlines/encode.go:58-73 | encodeObj's property loop writes the specified text or stops at the first error |
| `KvLine.EncodeLine` | internal/kvlines/encode.go:46-80 | encodeObj as a method equals its specification |
| `KvEntries.CollectExact` | internal/kvlines/decode.go:42-79 | Unmarshal's loop succeeds if and only if no line is malformed and no two objects want one place; the maps then hold exactly these objects |
| `KvEntries.GatheredUnique` | internal/kvlines/decode.go:42-79 | there is only one way to fill the maps |
| `KvEntries.CollectCounts` | internal/kvlines/decode.go:72-79 | as many entries are added as lines had an object |
| `KvFile.FileRoundTrip` | internal/kvlines/encode.go:17-44 | Unmarshal of what Marshal wrote gives the contents back, for every good schema and all contents that lines can hold, in any order of the maps |
| `KvMarshal.SortKeys` | internal/kvlines/encode.go:31-33 | the keys of a map in the order of their strings, each once |
| `KvMarshal.Insert` | internal/kvlines/encode.go:31-33 | one key at its place |
| `KvMarshal.WriteMap` | internal/kvlines/encode.go:31-41 | the inner loop writes the lines of one map or stops at the first error |
| `KvMarshal.Marshal` | internal/kvlines/encode.go:17-44 | Marshal succeeds if and only if every object has a line, and then writes the magic and all maps in key order |
| `KvParsing.OrderIsLexicographic` | internal/kvlines/encode.go:31-33 | one key string is not after another if and only if it is its prefix or has the smaller byte at the first difference |
| `KvParsing.KeysAscend` | internal/kvlines/encode.go:31-33 | the keys of a map are written in that order |
| `KvMarshal.ReadLine` | internal/kvlines/decode.go:54-70 | what one line is to Unmarshal |
| `KvMarshal.Unmarshal` | internal/kvlines/decode.go:27-83 | Unmarshal as a method equals its specification, with the line number of the first error |
| `KvParsing.LineExact` | internal/kvlines/decode.go:54-70 | a line is skipped if and only if it is empty or starts with a hash, and malformed if and only if it is neither that nor describes an object of a named type |
| `KvParsing.RemarksDoNotMatter` | internal/kvlines/decode.go:54-56 | on the bytes: a blank line or comment put after any line changes neither what is decoded nor the error, which is one line later if it comes after it |
| `KvParsing.BadLineExact` | internal/kvlines/decode.go:42-79 | an error with a line number and reason is returned if and only if that line is the first that is malformed, or whose key an earlier object of its type has |
| `KvTheorems.LineRoundTripExact` | internal/kvlines/encode.go:46-80 | a line gives its object back if and only if the key has a text and the comment is one a line can hold |
| `KvTheorems.EmptyKeyRefused` | internal/kvlines/decode.go:89-95 | an object whose key has no text is written, but its line is always refused |
| `KvHash.HashOnLineExact` | internal/kvlines/types.go:92-97 | a hash with an algorithm comes back from its line if and only if the algorithm has no colon, delimiter or line feed, whatever may follow the value on the line |
| `KvHash.NeverCatchesUp` | internal/kvlines/decode.go:199-213 | a hash whose text looks like a quoted string is not read as itself: unquoting gives less than it reads, so the colon is read before the algorithm has come out |
| `KvTheorems.ReadingExact` | internal/kvlines/decode.go:58-68 | a line is an object of a map if and only if it starts with the type's name and describes the object |
| `KvTheorems.UnmarshalExact` | internal/kvlines/decode.go:27-83 | Unmarshal returns c if and only if the magic matches, every object line is good, keys of one map differ, and c holds these objects under their keys and nothing else |
| `KvTheorems.BadMagicExact` | internal/kvlines/decode.go:42-53 | a bad magic is reported if and only if the data is not the magic, then blanks or carriage returns, then its end or a line feed |
| `KvTheorems.UnmarshalSound` | internal/kvlines/decode.go:72-79 | every decoded entry stands under its own key, and there are as many as object lines |
| `KvTheorems.StorableKeysTell` | internal/kvlines/encode.go:88-96 | keys of all built-in kinds are told apart by their strings |
| `KvTheorems.OrderUnique` | internal/kvlines/encode.go:31-33 | there is one sorted order of keys that their strings tell apart |
| `KvTheorems.OutputCanonical` | internal/kvlines/encode.go:29-41 | the output does not depend on the order in which maps are iterated |
| `KvTheorems.MarshalAgain` | internal/kvlines/encode.go:17-44 | marshalling what was unmarshalled gives the same bytes |
| `CacheFile.CacheSchemaGood` | internal/scanner/cache.go:13-37 | the schema of the cache file is a good schema |
| `CacheFile.LinesComplete` | internal/scanner/cache.go:13-37 | a line of the cache file must list every property of its file or offsets, and the comment on the line of a file is the file's |
| `CacheFile.SavedCacheLoads` | internal/scanner/scanner.go:809-827 | whatever the scanner cached, the saved file loads as the same cache, and in one form only |
| `TaskQueue.Tasks.constructor` | internal/scanner/scanner.go:243-249 | an open table with nothing queued |
| `TaskQueue.Tasks.SubmitTask` | internal/scanner/scanner.go:580-597 | submitTask: nil when closed, the live task of the key, or a new one queued and signalled |
| `TaskQueue.Tasks.DropQueued` | internal/scanner/scanner.go:608-613 | the shutdown loop removes each queued task and closes its channel, once, in order |
| `TaskQueue.Tasks.Pop` | internal/scanner/scanner.go:617-619 | the oldest task leaves the queue |
| `TaskQueue.Tasks.Forget` | internal/scanner/scanner.go:624-626 | a processed task leaves the table |
| `TaskQueueTheorems.InflightExact` | internal/scanner/scanner.go:580-629 | in every run, fileInflight is exactly the tasks queued or being processed, one at most for each key |
| `TaskQueueTheorems.DoneOnce` | internal/scanner/scanner.go:608-628 | each done channel is closed at most once, and not while the task is live |
| `TaskQueueTheorems.DoneMeansProcessedOrDropped` | internal/scanner/scanner.go:599-629 | a task whose channel is closed was either processed, and no worker has it any more, or dropped |
| `TaskQueueTheorems.OneOwner` | internal/scanner/scanner.go:187-196 | one worker at most ever owns a task, and not after it is done |
| `TaskQueueTheorems.StartedInOrder` | internal/scanner/scanner.go:601-629 | tasks start in the order of submission, each once; those dropped by a shutdown are the last ones |
| `TaskQueueTheorems.NoLostWakeUp` | internal/scanner/scanner.go:593-606 | a non-empty queue never leaves all workers asleep or gone; while one sleeps, at least as many are awake as tasks are queued |
| `TaskQueueTheorems.QuietMeansDone` | internal/scanner/scanner.go:601-629 | when no worker can step, every task ever submitted is done |
| `TaskQueueTheorems.ExitedMeansDone` | internal/scanner/scanner.go:260-270 | when Close returns, nothing is queued or in flight and every task ever submitted is done |
| `TaskQueueTheorems.WorkEnds` | internal/scanner/scanner.go:601-629 | without new requests the workers take a bounded number of steps |
| `TaskQueueTheorems.RequestsShare` | internal/scanner/scanner.go:580-597 | a request shares the live task of its key, and queues a new one if and only if there is none and the scanner is open |
| `TaskQueueTheorems.CloseExact` | internal/scanner/scanner.go:260-270 | Close can always be called, closes the scanner and wakes all sleeping workers, changes nothing else, and does nothing the second time |
| `TaskQueueTheorems.ClosedExact` | internal/scanner/scanner.go:260-270 | in every run the scanner is closed exactly if Close was called |
| `TaskQueueTheorems.RequestExact` | internal/scanner/scanner.go:580-597 | in every run a request makes a task, at the end of the queue, exactly if its key is not in flight and Close was not called before; otherwise it changes nothing |
| `ScanTask.ProcessBalanced` | internal/scanner/scanner.go:631-807 | one file counts once, with at most one error; it is reported if and only if its offsets are cached or found; a failure changes nothing |
| `ScanTask.StoredIsReported` | internal/scanner/scanner.go:791-806 | what is stored is what is reported |
| `ScanTask.FileCountExact` | internal/scanner/scanner.go:644-712 | a file counts as new if and only if the cache does not have it, and otherwise as cached if and only if its hash is the cached one, or, where it is not hashed, its size and modification time are; else as stale |
| `ScanTask.OffsetCountExact` | internal/scanner/scanner.go:679-806 | when its offsets count as cached, new or an error, and when they do not count |
| `ScanTask.EffectExact` | internal/scanner/scanner.go:714-806 | when its cached entry is forgotten, when it is replaced, and by what |
| `ScanTask.BalancedAdd` | internal/scanner/scanner.go:164-176 | adding keeps the laws of the counts |
| `ScanTask.FileTask.constructor` | internal/scanner/scanner.go:588-591 | a task starts with nothing counted |
| `ScanTask.FileTask.ProcessTask` | internal/scanner/scanner.go:631-735 | processTask adds its outcome to the task's counts and errors in place, branch for branch |
| `ScanTask.FileTask.Analyze` | internal/scanner/scanner.go:737-806 | the part of processTask from the hash lookup on |
| `ScanWalk.Scan.WalkDir` | internal/scanner/scanner.go:436-476 | a directory walk adds the failures on its way, each once in total and errors, and the tasks, in order |
| `ScanWalk.Scan.QueueArchive` | internal/scanner/scanner.go:493-542 | an archive adds a failure if it does not open, and a task or failure for each wanted member |
| `ScanWalk.MembersExact` | internal/scanner/scanner.go:505-541 | of an archive exactly the members that are libraries, not extracted, and likely unless all are wanted, become tasks or refusals, in order |
| `ScanWalk.DirExact` | internal/scanner/scanner.go:436-476 | a walk waits for the tasks of exactly such candidates, of all levels if it is recursive, in its order |
| `ScanWalk.DirFailuresExact` | internal/scanner/scanner.go:436-542 | it has one failure for each directory that cannot be listed, each archive that does not open and each chosen candidate that is refused |
| `ScanWalk.RootsExact` | internal/scanner/scanner.go:401-415 | a standard directory adds nothing if it is missing, its error if its stat fails, and otherwise what is chosen at all levels below it |
| `ScanWalk.Scan.WalkDirs` | internal/scanner/scanner.go:401-415 | standard directories: a missing one adds nothing, a failing stat one failure |
| `ScanWalk.Scan.Wait` | internal/scanner/scanner.go:385-389 | waiting adds what each task counted, and its errors, in order |
| `ScanWalk.Scan.Resubmit` | internal/scanner/scanner.go:362-383 | a cached file that cannot be submitted counts as stale, and is forgotten without an error if it is gone |
| `ScanWalk.CachedExact` | internal/scanner/scanner.go:362-383 | each cached name adds its task, or its error, or, if the error says that it does not exist, is forgotten, in order |
| `ScanWalk.SumBalanced` | internal/scanner/scanner.go:164-176 | sums of tasks keep the laws of the counts |
| `ScanWalk.FinishedOf` | internal/scanner/scanner.go:608-627 | a task that was processed, whatever it saw, or dropped at a shutdown, keeps them; the former counts one file, the latter nothing |
| `ScanWalk.ScanDir` | internal/scanner/scanner.go:421-434 | whatever the walk finds and the tasks see: errors equal File.Error, File.Total is New+Stale+Cached plus the failures on the way, Offset.Total is Cached+New+Error, Offset.Stale 0 |
| `ScanWalk.ScanDirs` | internal/scanner/scanner.go:393-419 | the same for the standard directories |
| `ScanWalk.ScanArchive` | internal/scanner/scanner.go:478-491 | the same for an archive |
| `ScanWalk.ScanOne` | internal/scanner/scanner.go:544-558 | the scan of one file returns exactly what its task counted or one failure, in balance |
| `ScanWalk.CachedBalanced` | internal/scanner/scanner.go:346-391 | the same for the cached names, where failures to submit count as stale |
| `ScanWalk.ScanCached` | internal/scanner/scanner.go:346-391 | what scanning the cached names returns and forgets |
| `ScanCacheTheorems.OffsetsStayTrue` | internal/scanner/scanner.go:737-793 | under any interleaving, and however files change, the offsets cached for a hash are what analyzing that elf finds |
| `ScanCacheTheorems.StoredCoherentExact` | internal/scanner/scanner.go:668-677 | a stored entry agrees with its metadata if and only if the file with the metadata of the second stat, or of the request if that failed, holds the elf that was opened |
| `ScanCacheTheorems.StoredCoherentRun` | internal/scanner/scanner.go:634-805 | in any run over genuine files: if and only if the file found at the worker's second stat holds the elf of the file that it opened |
| `ScanCacheTheorems.RunCoherent` | internal/scanner/scanner.go:634-805 | if no file is written between a worker's opening it and its stat, every entry describes the file that has its metadata |
| `ScanCacheTheorems.JobMovesOn` | internal/scanner/scanner.go:631-735 | whatever others do, a worker can go on with its job, which takes four steps at most, or fail, which changes nothing else |
| `ScanCacheTheorems.ForgettingExact` | internal/scanner/scanner.go:275-282 | offsets can be purged and names dropped at any time; a purge keeps the files, a drop the offsets and the other names |
| `ScanCacheTheorems.FastPathAgrees` | internal/scanner/scanner.go:679-688 | the fast path then reports the path, offset and offsets that a forced and revalidated scan would |
| `ScanCacheTheorems.ReplacedWhileScanned` | internal/scanner/scanner.go:668-677 | a run in which a genuine file is replaced in that window: the cache has the old hash for the new metadata, and the next scan reports the old offsets |
| `PerfRing.MaskIsMod` | internal/probe/bpfprobe/internal/ring.go:145-145 | masking with a power of two less one is the remainder |
| `PerfRing.Ring.constructor` | internal/probe/bpfprobe/internal/ring.go:60-66 | an open ring over its data |
| `PerfRing.Ring.CopyWrap` | internal/probe/bpfprobe/internal/ring.go:143-154 | copyWrap copies the window at a position, wrapped at the size, and panics exactly if it would slice past the data |
| `PerfRing.Ring.ReadRecord` | internal/probe/bpfprobe/internal/ring.go:92-141 | what ReadRecord returns and where it leaves the tail, in every branch and with 64-bit wrap-around, and exactly when it panics |
| `PerfRing.Ring.ParseRecord` | internal/probe/bpfprobe/internal/ring.go:121-140 | sample, lost, short and unknown records |
| `PerfRingTheorems.RecordTypes` | internal/probe/bpfprobe/internal/ring.go:121-140 | type 9 is a sample and 2 a loss, in four little-endian bytes; any other record, and one too short for what it says, is skipped |
| `PerfRingTheorems.SampleReturned` | internal/probe/bpfprobe/internal/ring.go:122-130 | a sample is returned as its payload, whatever the padding |
| `PerfRingTheorems.LostReturned` | internal/probe/bpfprobe/internal/ring.go:132-136 | a LOST record is returned as its count |
| `PerfRingTheorems.ReadNext` | internal/probe/bpfprobe/internal/ring.go:98-119 | a read returns the next record whole and moves to the one after it, or says that there is none |
| `PerfRingTheorems.ReaderIsAQueue` | internal/probe/bpfprobe/internal/ring.go:92-154 | however writes and reads alternate, reads return the records written, in order, each once, and ok=false if and only if none is left |
| `PerfRingTheorems.Drain` | internal/probe/bpfprobe/probe.go:612-616 | repeated reads return all remaining records and end |
| `PerfRingTheorems.StuckExact` | internal/probe/bpfprobe/internal/ring.go:109-115 | without the kernel's promise: ok with the tail unmoved if and only if a record runs past the head |
| `PerfRingTheorems.StuckReads` | internal/probe/bpfprobe/internal/ring.go:109-115 | while the head stands still, all further reads of such a ring say ok and return nothing |
| `PerfRingTheorems.StuckRing` | internal/probe/bpfprobe/internal/ring.go:109-115 | such a ring |
| `PerfRingTheorems.PanicRing` | internal/probe/bpfprobe/internal/ring.go:117-118 | a ring on which ReadRecord panics |
| `EventHandoff.EventsConserved` | internal/probe/bpfprobe/probe.go:639-643 | decoded events are returned by read in order, or wait in the channel, or did not fit |
| `EventHandoff.FatesExact` | internal/probe/bpfprobe/probe.go:612-645 | every decoded event meets one fate, in order, and every LOST record is counted |
| `EventHandoff.FlagsExact` | internal/probe/bpfprobe/probe.go:357-399 | an iteration is canceled exactly if its own context was, and the probe has ended exactly if it was ended |
| `EventHandoff.DropsConserved` | internal/probe/bpfprobe/probe.go:374-378 | drops returned plus the counter are one for each event that did not fit and each LOST record, but for one about to be counted; the counter is never negative |
| `EventHandoff.OverMeansEmpty` | internal/probe/bpfprobe/probe.go:389-398 | ok=false if and only if the channel was found empty; the test for drops in between never succeeds |
| `EventHandoff.OverMeansAll` | internal/probe/bpfprobe/probe.go:389-398 | if the handler had stopped, all events that got into the channel have been returned before |
| `EventHandoff.YieldsExact` | internal/probe/bpfprobe/probe.go:357-399 | what read returns is yielded if and only if the context is not done at the test after it and the channel was not found empty after the end; it carries the oldest event if one was taken, and the counter as loaded |
| `EventHandoff.YieldsAllEventsExact` | internal/probe/bpfprobe/probe.go:357-372 | between reads, the events yielded and those in the channel are all that fitted into it, in order, if and only if the context was never done at the test after an event was taken |
| `EventHandoff.YieldsAllDropsExact` | internal/probe/bpfprobe/probe.go:357-378 | between reads, all drops have been yielded if and only if the counter is zero and was zero whenever it was loaded for a return that the context or the end kept from being yielded |
| `EventHandoff.QuietReadExact` | internal/probe/bpfprobe/probe.go:357-399 | a read that nothing interferes with is yielded if and only if beforehand the context is not done and the channel not empty, and takes the counter in any case |
| `EventHandoff.DropNotYielded` | internal/probe/bpfprobe/probe.go:357-398 | a run in which a drop is returned only with ok=false |
| `EventHandoff.InterruptLosesDrop` | internal/probe/bpfprobe/probe.go:364-381 | a run in which an interrupted read takes a drop with it |
| `EventHandoff.CanceledLosesEvent` | internal/probe/bpfprobe/probe.go:364-383 | a run in which an event is received while the context is done, and lost |
| `EventChannel.Channel.Offer` | internal/probe/bpfprobe/probe.go:639-643 | an event is sent if there is room and counted otherwise |
| `EventChannel.Channel.Deliver` | internal/probe/bpfprobe/probe.go:612-645 | the inner loop over the records, with readers taking any numbers of events in between, does what Loop says |
| `EventChannel.DeliverConserves` | internal/probe/bpfprobe/probe.go:612-645 | whatever readers take: they and the channel have the events that got in, in order, and the counter has grown by one for each other event and each LOST record |
| `EventChannel.QuietDeliver` | internal/probe/bpfprobe/probe.go:612-645 | with no reader in between, the first events that fit are kept and the others counted |
| `EventChannel.LostExact` | internal/probe/bpfprobe/probe.go:617-623 | a LOST record is one drop, however many samples it stands for |
| `EventChannel.Channel.TakeDropped` | internal/probe/bpfprobe/probe.go:375-378 | the deferred function returns the counter and takes it off, and no addition in between is lost |
| `LogSecret.RegValues.SetReg` | internal/analyze/analyze.go:182-189 | x0 to x29 are set and become known, any other operand is ignored |
| `LogSecret.RegValues.ClearReg` | internal/analyze/analyze.go:191-197 | the register is no longer known, but its value stays |
| `LogSecret.RegValues.ClearAllRegs` | internal/analyze/analyze.go:199-201 | no register is known, but all values stay |
| `LogSecret.RegValues.GetReg` | internal/analyze/analyze.go:203-208 | the value in place and whether it is known; 0 for other operands |
| `RegisterTracker.TrackSound` | internal/analyze/logsecret.go:185-241 | one instruction keeps known registers equal to the machine's |
| `RegisterTracker.RunSound` | internal/analyze/logsecret.go:170-242 | for straight-line code whose untracked instructions write no known register, every known register has the machine's value modulo 2^64 |
| `RegisterTracker.CandidateSound` | internal/analyze/logsecret.go:217-237 | a candidate is recorded if and only if the tracker has a target and the machine's x1 is a label; the target is right for relative branches and known registers |
| `RegisterTracker.PageExact` | internal/analyze/logsecret.go:186-191 | the page of an address is the 4 KiB block that it lies in |
| `RegisterTracker.PageLoaded` | internal/analyze/logsecret.go:186-214 | ADRP and ADD leave the register known, with the page of the ADRP plus both offsets modulo 2^64, anywhere in the code |
| `RegisterTracker.AddressLoaded` | internal/analyze/logsecret.go:195-202 | ADR does so with its own address plus the offset |
| `RegisterTracker.CallFound` | internal/analyze/logsecret.go:185-237 | a relative branch after ADRP and ADD of x1 is found exactly if the address they load is a label's and the target is not 0 |
| `RegisterTracker.RegisterCallFound` | internal/analyze/logsecret.go:185-237 | the same for a branch to a register that was loaded so in between |
| `RegisterTracker.UntrackedCall` | internal/analyze/logsecret.go:225-228 | a branch to any other register is never found |
| `RegisterTracker.RunObeys` | internal/analyze/logsecret.go:170-242 | a register that the code forces to a value has it in every run |
| `RegisterTracker.Reaches` | internal/analyze/logsecret.go:170-242 | a register that it does not force has any value in some run |
| `RegisterTracker.StaleTargetExact` | internal/analyze/logsecret.go:225-228 | for a branch to a register the recorded target is right in every run if and only if the code forces the register to the value last tracked for it |
| `RegisterTracker.KnownTargetExact` | internal/analyze/logsecret.go:225-228 | if no tracked instruction before the branch writes x30, the recorded target is right in every run if and only if the register is known |
| `RegisterTracker.UnknownAndRight` | internal/analyze/logsecret.go:182-208 | code that uses x30, for which the target of an unknown register is right in every run |
| `RegisterTracker.StaleTargetRecorded` | internal/analyze/logsecret.go:225-236 | code for which a stale target is recorded |
| `LogSecret.FindNullString` | internal/analyze/analyze.go:54-75 | exactly the null-terminated occurrences, overlapping ones too, in ascending order |
| `LogSecret.OccurrenceExact` | internal/analyze/analyze.go:54-75 | an occurrence is the string itself at the end or before a zero byte, and nothing else |
| `LogSecret.LabelAddresses` | internal/analyze/logsecret.go:138-146 | every address of a label is in the map, and nothing else |
| `LogSecret.FileOffset` | internal/analyze/analyze.go:159-166 | the first segment that holds the address gives the offset; none if no segment does |
| `LogSecret.FirstHolds` | internal/analyze/analyze.go:159-166 | the segment that decides is the first whose addresses include this one |
| `LogSecret.SameByte` | internal/analyze/analyze.go:159-166 | the file has at that offset the byte that the segment has at the address |
| `LogSecret.CollectedExact` | internal/analyze/logsecret.go:230-236 | the targets recorded for a label are exactly those of branches found with it |
| `LogSecret.CollectedAllExact` | internal/analyze/logsecret.go:166-243 | the same over all executable segments |
| `LogSecret.RegValues.constructor` | internal/analyze/logsecret.go:170-170 | nothing is known at the start of a segment |
| `LogSecret.RegValues.Execute` | internal/analyze/logsecret.go:185-241 | the switch of the scan: what it finds and what it tracks |
| `LogSecret.RegValues.BranchTarget` | internal/analyze/logsecret.go:218-229 | the target of a branch, 0 if there is none |
| `LogSecret.ScanSegment` | internal/analyze/logsecret.go:170-242 | the loop over a segment collects what is found, and stops exactly if it is asked for an ended context |
| `LogSecret.AskedOnce` | internal/analyze/logsecret.go:179-183 | of any 4096 instructions in a row that decode, exactly one asks for the context, and the first of the code does |
| `LogSecret.CodeOfWords` | internal/analyze/logsecret.go:171-177 | every four bytes are one instruction, and up to three at the end are none |
| `LogSecret.FindCandidates` | internal/analyze/logsecret.go:166-243 | the scan of all executable segments, which stops exactly if the context has ended when it is asked |
| `LogSecret.Choose` | internal/analyze/logsecret.go:245-263 | an address is chosen if and only if it is the only candidate for CLIENT_RANDOM and among those of every label that has any, and otherwise which of the three errors is returned |
| `LogSecret.AgreedExact` | internal/analyze/logsecret.go:245-263 | agreement, label by label: one single find for CLIENT_RANDOM, which is among the finds of every label that has any |
| `LogSecret.AgreedIsFound` | internal/analyze/logsecret.go:217-253 | an agreed address was found at a branch which has the address of CLIENT_RANDOM in x1 in any machine that runs the code |
| `LogSecret.LogSecretHeuristic` | internal/analyze/logsecret.go:128-271 | it is canceled if and only if the context has ended when a segment asks; unless canceled, it succeeds if and only if the candidates agree on an address that is loaded, and returns its file offset |

## Left out

- Sockets, mmap, epoll, netlink, BPF loading and ptrace calls themselves: only their effects are modelled, as steps of the environment or as parameters.
- `probe.c`, tracefs, CPU hotplug, `PMUType`, the NDK build script, flag parsing, logging and `main.go`.
- Encoding of pcapng blocks and of keylog lines, BPF filter compilation, and interface statistics.
- `AutoBufferSize`: its byte count and its defaulting of options, which add nothing to `computeBufferSize`.
- Liveness of the pipeline: no fairness is assumed, so a timer that has come due is shown to lead to a hand-off, not to one within some time.
- Partial writes of ptrace, fork into another address space, reuse of thread ids, and programs that write their own text.
- Exact hit counts with several threads sharing one breakpoint: one thread can pass a breakpoint while another one steps over it.
- Waiting for stopped threads in the cleanup is a nondeterministic number of steps: its three-second deadline is not modelled.
- `resolveAddr` and reading of `/proc/.../maps`: where a hook lies is a parameter.
- Reflection in kvlines, and the panics of `fileInfoOf` and `objInfoOf` on wrong types: a schema is a value. A type with its own text form is a pair of functions, taken as inverse where a round trip is claimed.
- Key types of string kind that have a `String` method of their own, which `keyString` would prefer.
- The fast path of `strconv.Unquote`, which returns the same text; `strconv.IsPrint` is a parameter.
- The sorting algorithm of `slices.SortedFunc`: `SortKeys` stands for it, by insertion.
- Error values carry a short reason, not the formatted message.
- ELF, zip and xz reading, regular expressions, directory listing and SHA-256: their results are inputs; the hash is taken as injective and the analysis as a function.
- `IsProbablyLinkedBoringSSL`, `IsMaybeBoringSSL` and `ClientRandom`: results are inputs, their heuristics have no specification.
- A file's content is the one it had when it was opened: writes into an open file while it is hashed are not modelled.
- `OnResult` and `OnError` callbacks, and when the cache file is written.
- Stream positions of the perf ring near 2^64: the queue theorem stops before the head would wrap.
- That `ReadRecord` returns a slice of a buffer it reuses: the result is a value here, and the copy that `newEvent` takes is not modelled.
- Several iterations over hits or events at a time, and loop bodies that panic.
- Closing a ring or a probe while a read is under way, and concurrent calls of `read`, which would take the same drops off twice.
- `arm64asm.Decode` and the parsing of immediates from strings: instructions come decoded.
- Which blocks the scanned code really enters: soundness is about a machine that runs the code in line, between branches, and is not claimed for instructions that write known registers.
