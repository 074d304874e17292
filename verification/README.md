# Verified models of the Linux tracing and memory tools

This project models, in Dafny, the parts of the repository that keep real state: three
scheduler and interrupt tracers, the page walker `page-types`, the RDMA example, and three
tools that transform data (`page_owner_sort`, `smemcap`, `smem`). `dafny verify dfyconfig.toml`
checks all of it.

| component | modules | main results |
|---|---|---|
| run-queue latency tracer | `RunqlatModel`, `RunqlatTime`, `RunqlatWatch`, `Runqlat` | `TimeConservation`, `PublishedExactIff`, `RunTells`, `PublishedSinceQueued`; buffer safety and refinement for every event sequence |
| page walker | `PageHash`, `PageRanges`, `PageWalk`, `IdleBitmap`, `PageTypes` | `FitsIff`, `SummaryIsExact`, `PrintedIsTheShortestList`, `ReportProcess`, `ReportIsCompleteIff` |
| interrupts-off sampler | `IrqoffModel`, `IrqoffLaws`, `IrqoffCounts`, `Irqoff` | `FollowingTick`, `SoundAllAlongIff`, `HardCountExact`, `SoftStacksExact`, `LabelIff` |
| no-schedule sampler | `NoschedModel`, `NoschedCounts`, `Nosched` | `OneStackPerStretch`, `HistogramExact`, `FinishedUnlessFull`, `SwitchFaultIff` |
| stack buffer of both samplers | `StackArena` | `SnapshotStable`, `VisibleAreTheJobs` for every interleaving of stores and reads |
| RDMA example | `RdmaExchange`, `SyncData` | `NeverFails`, `StopsOnlyWhenDone`, `RunsEnd`, `DeliversIff` |
| allocation record counter | `PageOwner`, `PageOwnerFile` | `CountsAreExact`, `SortPageOwner`, `NothingDroppedIff`, `ReadsAllBlocksIff` |
| memory snapshot writer | `TarHeader`, `TarArchive` | `ArchiveRoundTrip`, `FieldsBackIff`, `ChecksumIff` |
| memory reports | `SmemTotals` | `ReportsAgree`, `TablesAgree`, `CountColumnsAgree` |

Each stateful component comes twice: as functions on values, about which the laws over whole
runs are proved, and as classes and loops in the form of the source, whose methods are proved
to compute those functions. For the three tracers a third description, in `RunqlatWatch`,
`IrqoffCounts` and `NoschedCounts`, says from the events alone what each variable holds. A run
is an arbitrary history of events; nothing limits its length.
`Bits` holds 64-bit arithmetic and the bucket function that the three histograms share.

## What the code does not do

Where a property that the code or its documentation suggests is false, there is a lemma that
says exactly when it holds:

- The record that fills the task buffer of the run-queue tracer resets the start of the wait
  before the latency is computed, so that trace reports the bare clock (`PublishedExactIff`,
  `FillingTraceIsInexact`). The sum of latencies survives session starts (`SumIsSessionIff`,
  `SumIncludesEarlierSession`).
- The irqoff histogram halves down to `delta > T` instead of `delta >= T`, so a latency at the
  low end of a printed range is counted one bucket lower, and its last bucket takes all longer
  latencies under a bounded range (`LabelIff`, `FortyMillisecondsAreMislabeled`,
  `ThirtySecondsAreMislabeled`). The last buckets of the other two histograms do the same, and
  the run-queue tracer counts latencies under 1 ms as 1 ms (`RunqlatModel.LabelIff`,
  `HalfMillisecondIsMislabeled`, `NoschedModel.LabelIff`, `NinetySecondsAreMislabeled`).
- The comment at the irqoff settings names 1 ms as the least period; the code also accepts 0
  (`LeastPeriodIff`, `ZeroPeriodIsAccepted`). Periods and thresholds that wrap around can break
  the settings (`SoundAllAlongIff`, `OverflowBreaksSettings`, `OverflowBreaksLatency`).
- A hardware delay between a preliminary softirq stack and the next software tick hides the
  softirq delay (`FollowingTick`, `LateHardwareHidesTheDelay`).
- A no-schedule stack that uses up the frames keeps its preliminary duration
  (`FinishedUnlessFull`, `FullStackKeepsDuration`); a refreshing tick can make the final
  duration smaller than the first one (`FinalDurationIff`, `RefreshShrinksDuration`); a clear
  while a stack waits makes the next switch write outside the array (`SwitchFaultIff`,
  `ClearedStackFaults`).
- A walk over page frames restarts the virtual offsets with every batch, which also cuts its
  listing there (`WholeVoffsetsIff`, `LongWalkRestarts`, `BatchesCutRanges`). An area whose
  page map reads as empty is passed over (`ReportIsCompleteIff`, `EmptyReadLosesArea`).
- The bitmap of idle pages is opened for file walks only but flushed for address walks only
  (`SessionIsCompleteIff`, `SinglePageIsLost`), and the flush never writes word 0
  (`ClosedIsCompleteIff`, `LowPageIsLost`).
- The socket exchange reads every part into the start of its buffer (`DeliversIff`,
  `SplitMessageIsLost`) and never notices a closed socket (`EndOfStreamIsRepeated`).
- A tar path is cut after 100 bytes, ids from 8^8 on are cut, and the checksum sums signed
  characters (`FieldsBackIff`, `LongPathIsCut`, `LargeUidIsCut`, `NonAsciiChecksumDiffers`);
  a short read ends the file (`CompleteIff`, `ShortReadTruncates`).
- `page_owner_sort` drops a last block without an empty line (`NothingDroppedIff`,
  `UnterminatedBlockIsDropped`), and every block from the first one that does not fit the buffer
  (`ReadsAllBlocksIff`, `LongBlockIsLost`).
- The user report of `smem` shows the proportional size in its VSS column (`VssColumnsIff`,
  `VssDiffers`).

## Model

| member | source | states |
|---|---|---|
| RunqlatModel.StepSafe | trace/runqlat/trace_runqlat.c:141-430 | every event, in any state that satisfies the buffer bounds, keeps them: a traced pid implies fewer than 2048 records and fewer than 128 traces, also when a record forces tracing off just before a commit |
| RunqlatModel.Run | trace/runqlat/trace_runqlat.c:141-430 | the state after any history of events is safe, with no assumption on the scheduler |
| RunqlatModel.ChargeSafe | trace/runqlat/trace_runqlat.c:170-196 | recording one task from any traced state stays within both buffers and leaves a trace slot free, also when it forces tracing off |
| RunqlatModel.CommitSafe | trace/runqlat/trace_runqlat.c:217-243 | a commit after any record, even one that switched tracing off, stays within both buffers |
| RunqlatModel.StepQuiet | trace/runqlat/trace_runqlat.c:246-430 | an event that neither gives the traced task the CPU nor starts a session changes no published trace, no bucket and no sum |
| RunqlatModel.StepCommits | trace/runqlat/trace_runqlat.c:246-317 | an event that gives the traced task the CPU publishes at most one trace and counts exactly one latency |
| RunqlatModel.PublishedStable | trace/runqlat/trace_runqlat.c:217-430 | over every run without a session start, the published traces are a prefix of those published later |
| RunqlatModel.HistogramExact | trace/runqlat/trace_runqlat.c:198-214 | in every run each bucket holds the number of latencies committed in the session that belong to it |
| RunqlatModel.HistogramTotal | trace/runqlat/trace_runqlat.c:198-214 | in every run the counts sum to the number of commits since the session start |
| RunqlatModel.BucketRange | trace/runqlat/trace_runqlat.c:198-214 | bucket i below the last holds exactly the latencies of 2^i up to 2^(i+1) ms, and bucket 0 also those under 1 ms |
| RunqlatModel.LabelIff | trace/runqlat/trace_runqlat.c:198-214 | a latency is counted under its printed range if and only if it is at least 1 ms and below 4096 ms |
| RunqlatModel.HalfMillisecondIsMislabeled | trace/runqlat/trace_runqlat.c:198-214 | half a millisecond is counted in the bucket printed as 1 to 1 ms |
| RunqlatModel.SumSpansSessions | trace/runqlat/trace_runqlat.c:198-430 | the sum of latencies is the sum over all commits since the module was loaded, modulo 2^64; a session start does not clear it |
| RunqlatModel.SumIsSessionIff | trace/runqlat/trace_runqlat.c:198-430 | in every run the printed sum is that of the session if and only if the milliseconds committed before it are 0 modulo 2^64 |
| RunqlatModel.SumIncludesEarlierSession | trace/runqlat/trace_runqlat.c:394-430 | a run whose second session starts with a sum of 5 ms |
| RunqlatTime.SwitchBalanced | trace/runqlat/trace_runqlat.c:246-317 | a task switch keeps the conservation law between recorded time and waiting time, whichever branch it takes |
| RunqlatTime.MigrateBalanced | trace/runqlat/trace_runqlat.c:319-346 | a migration keeps the conservation law, with uncharged time entered in the ledger |
| RunqlatTime.RunBalanced | trace/runqlat/trace_runqlat.c:141-346 | in every run on a positive monotone clock: open-trace sum plus unseen and settled time equals run_start - rq_start plus time carried over |
| RunqlatTime.TraceTime | trace/runqlat/trace_runqlat.c:141-346 | in every such run, with any scheduler, the runtimes of a published trace equal its latency up to the three ledger entries, and up to rq_start when the record fills the buffer |
| RunqlatTime.RunClear | trace/runqlat/trace_runqlat.c:141-346 | in a consistent run a waiting task has a clear ledger and a task that does not wait has no open trace |
| RunqlatTime.PublishedExactIff | trace/runqlat/trace_runqlat.c:170-346 | in a consistent run the runtimes of a published trace sum to its latency if and only if its last record does not fill the task buffer |
| RunqlatTime.TimeConservation | trace/runqlat/trace_runqlat.c:141-346 | in every consistent run, while the task buffer has not filled up, the runtimes of every published trace sum exactly to its latency (the intent at trace/runqlat/README.md line 94) |
| RunqlatTime.FillingTraceIsInexact | trace/runqlat/trace_runqlat.c:189-195 | there is a consistent run whose 2048th record publishes a trace that does not account for its latency |
| RunqlatWatch.RunTells | trace/runqlat/trace_runqlat.c:141-454 | in every run each variable of the tracer (pid, cpu, both timestamps, current task, open records, published traces, threshold) is what the event history says about it, described variable by variable |
| RunqlatWatch.CommittedByEvents | trace/runqlat/trace_runqlat.c:246-317 | a latency is committed exactly when the traced task gets the CPU it waits for, and is the time since it was queued, or the bare clock if the record took the last place |
| RunqlatWatch.PublishedByEvents | trace/runqlat/trace_runqlat.c:246-317 | the trace that an event publishes, told from the events: its records name the task that left the CPU, or that was running at a migration, each with the time since the change before |
| RunqlatWatch.RecordsSinceQueued | trace/runqlat/trace_runqlat.c:141-346 | in a consistent run the open records are one for each task that left the CPU, or ran there when the wait moved on, since the traced task was queued |
| RunqlatWatch.PublishedSinceQueued | trace/runqlat/trace_runqlat.c:141-346 | in a consistent run the tasks of a published trace are exactly those that used the CPU since the traced task was queued, the last one being the task it follows |
| RunqlatWatch.MovedWaitRecords | trace/runqlat/trace_runqlat.c:310-346 | a wait with a switch and a migration: whose time the two records carry, and the new CPU |
| Runqlat.AppendedLists | trace/runqlat/trace_runqlat.c:170-196 | writing a record behind the last one appends it to the open list and changes no published list |
| Runqlat.ClosedLists | trace/runqlat/trace_runqlat.c:217-243 | closing the open segment publishes exactly the open list and opens an empty one |
| Runqlat.RolledBackLists | trace/runqlat/trace_runqlat.c:217-243 | rolling back removes the whole open list and nothing else |
| Runqlat.RunqlatInfo.constructor | trace/runqlat/trace_runqlat.c:134-139 | the loaded module refines the initial state |
| Runqlat.RunqlatInfo.Reset | trace/runqlat/trace_runqlat.c:161-167 | refines the reset step on lists |
| Runqlat.RunqlatInfo.AppendRecord | trace/runqlat/trace_runqlat.c:177-189 | writes the record behind the last one and nowhere else; its precondition, that the open segment ends there, is the condition of the warning at line 182, and its only caller proves it in every reachable state |
| Runqlat.RunqlatInfo.RecordTask | trace/runqlat/trace_runqlat.c:170-196 | on the flat arrays, appends one record to the open list and switches tracing off when the buffer is full |
| Runqlat.RunqlatInfo.LatencyHistogramStore | trace/runqlat/trace_runqlat.c:198-214 | the halving loop counts the latency in the bucket of its whole milliseconds and adds these to the sum |
| Runqlat.RunqlatInfo.RecordTaskCommit | trace/runqlat/trace_runqlat.c:217-243 | on the flat arrays, publishes or discards the open list as the model's commit does; reports whether there was one |
| Runqlat.RunqlatInfo.ProbeSchedWakeup | trace/runqlat/trace_runqlat.c:141-159 | refines the wakeup step |
| Runqlat.RunqlatInfo.ProbeSchedSwitch | trace/runqlat/trace_runqlat.c:246-317 | refines the switch step in all its branches |
| Runqlat.RunqlatInfo.ProbeSchedMigrateTask | trace/runqlat/trace_runqlat.c:319-346 | refines the migration step |
| Runqlat.RunqlatInfo.TracePidStore | trace/runqlat/trace_runqlat.c:394-430 | refuses a non-number, and a pid while another one is traced; otherwise refines the pid step |
| Runqlat.RunqlatInfo.ThresholdStore | trace/runqlat/trace_runqlat.c:443-454 | refuses a non-number and otherwise changes the threshold only |
| Runqlat.RunqlatInfo.RunqlatShow | trace/runqlat/trace_runqlat.c:458-489 | prints exactly the published list of traces with their tasks, in order, and refuses while a pid is traced |
| PageHash.ProbesAreABijection | mem/vm/page-types.c:606-631 | the search for a word looks at each of the slots 1 to 8191 exactly once |
| PageHash.StoredIsFound | mem/vm/page-types.c:606-631 | a stored word is found in its own slot: repeated lookups agree |
| PageHash.StorePlaced | mem/vm/page-types.c:606-631 | storing a new word where its search ends keeps all stored words findable |
| PageHash.StoredOnce | mem/vm/page-types.c:606-631 | no word is in two slots |
| PageHash.TableIsExact | mem/vm/page-types.c:606-659 | over every sequence of pages that fits, each slot holds the exact count of its word, every word seen has a slot, and the total is the number of pages |
| PageHash.LookupIsExact | mem/vm/page-types.c:606-659 | looking up a counted word gives the slot with its exact count; slot 0 if and only if the word is 0 |
| PageHash.FullTable | mem/vm/page-types.c:606-631 | a failing search means 8191 other distinct nonzero words are stored |
| PageHash.FitsIff | mem/vm/page-types.c:606-631 | the table-full exit happens if and only if the pages show more than 8191 distinct nonzero words |
| PageHash.TotalIsSum | mem/vm/page-types.c:658-659 | the printed total is the sum of the printed counts and the number of pages |
| PageHash.SummaryIsExact | mem/vm/page-types.c:430-449 | a summary line is printed if and only if its word was counted, with its exact count |
| PageHash.SummaryHasNoRepeats | mem/vm/page-types.c:430-449 | no word gets two summary lines |
| PageHash.PageCounter.constructor | mem/vm/page-types.c:202-204 | the zeroed static arrays are the empty table |
| PageHash.PageCounter.FindSlot | mem/vm/page-types.c:617-627 | the probe loop returns the first slot that is empty or holds the word |
| PageHash.PageCounter.HashSlot | mem/vm/page-types.c:606-631 | returns the slot of the word, stores it there, and changes no other slot |
| PageHash.PageCounter.AddPage | mem/vm/page-types.c:658-659 | counts one page as the table model does; fails exactly when the table is full |
| PageHash.PageCounter.ShowSummary | mem/vm/page-types.c:430-449 | prints the lines of all slots with a count, in slot order |
| PageRanges.NothingLost | mem/vm/page-types.c:372-408 | after every report, the printed ranges and the pending one expand to exactly the pages reported so far, in order |
| PageRanges.RoundTrip | mem/vm/page-types.c:372-413 | after a flush the printed ranges alone expand to all reported pages, and the static state is again all zero |
| PageRanges.PrintedIsMaximal | mem/vm/page-types.c:372-413 | in every listing, from program start or any flush to the next flush, no range is empty and no two neighbours could have been merged |
| PageRanges.ListingRoundTrip | mem/vm/page-types.c:372-413 | the ranges printed for a listing, after whatever was printed before, expand to exactly its pages, in order |
| PageRanges.MaximalIsUnique | mem/vm/page-types.c:372-413 | two range lists without mergeable neighbours that stand for the same pages are equal |
| PageRanges.PrintedIsTheShortestList | mem/vm/page-types.c:372-413 | for every listing between flushes, any list of ranges that stands for its pages is at least as long as the printed one, and equal to it if it has no empty range and no mergeable neighbours |
| PageRanges.RangePrinter.constructor | mem/vm/page-types.c:376-381 | the zeroed static variables are the start state |
| PageRanges.RangePrinter.ShowPageRange | mem/vm/page-types.c:372-408 | refines one step of the printer, with offsets modulo 2^64 |
| PageRanges.RangePrinter.FlushPageRange | mem/vm/page-types.c:410-413 | refines a report of the all-zero range |
| IdleBitmap.NothingLost | mem/vm/page-types.c:578-600 | at every moment, with writes failing or not, the pages written and those in the buffered word are exactly the pages marked |
| IdleBitmap.WrittenWasMarked | mem/vm/page-types.c:578-600 | no unmarked page is ever written |
| IdleBitmap.WrittenIsEarlier | mem/vm/page-types.c:578-600 | without failures the file holds all pages before the current streak within one word, the buffer the streak |
| IdleBitmap.ClosedWritesHighPages | mem/vm/page-types.c:801-802 | after the closing call every marked page from 64 on is written, and only marked pages |
| IdleBitmap.ClosedIsCompleteIff | mem/vm/page-types.c:801-802 | the closing call completes the marking if and only if the last marked page is not in word 0, or its streak was written before |
| IdleBitmap.LowPageIsLost | mem/vm/page-types.c:801-802 | page 5 marked alone is never written |
| IdleBitmap.SessionIsCompleteIff | mem/vm/page-types.c:1334-1335 | as the program opens and closes the file, all pages are marked if and only if there are none, or a file walk's last streak repeats written pages |
| IdleBitmap.SinglePageIsLost | mem/vm/page-types.c:1334-1335 | neither kind of walk marks page 64 alone |
| IdleBitmap.IdleMarker.MarkPageIdle | mem/vm/page-types.c:578-600 | refines one marking step, and fails exactly when its write fails |
| PageWalk.MappedPages | mem/vm/page-types.c:754-774 | the reference: exactly the mapped pages of the range, strictly ascending |
| PageWalk.ClippedPages | mem/vm/page-types.c:754-774 | for sorted disjoint areas, the areas cut to the range are exactly its mapped pages, ascending, once each |
| PageWalk.AddressSpace.NextArea | mem/vm/page-types.c:762-764 | the inner loop finds the first area that does not end before the index, or that there is none |
| PageWalk.AddressSpace.WalkTask | mem/vm/page-types.c:754-774 | the chunks handed on are the areas cut to the range, so exactly its mapped pages; the assertion holds and both loops end |
| PageWalk.RangeList.AddAddrRange | mem/vm/page-types.c:776-784 | appends the part of the range below the largest offset, so that its end does not wrap; fails when 1024 ranges are stored |
| PageWalk.BreaksOffAtEmptyRead | mem/vm/page-types.c:735-751 | a chunk is left unfinished only where a read comes back empty |
| PageWalk.AllReached | mem/vm/page-types.c:735-751 | reads that never come back empty reach every page, whatever their sizes |
| PageWalk.WalkVma | mem/vm/page-types.c:727-752 | visits the entries of the chunk page by page from its start, up to the first empty read |
| PageWalk.WalkPfn | mem/vm/page-types.c:663-704 | reports one batch after the other, each with virtual offsets from the same start |
| PageWalk.PfnOffsets | mem/vm/page-types.c:687-703 | every page frame read is reported once, at its own offset |
| PageWalk.PfnVoffsetsIff | mem/vm/page-types.c:687-703 | for any reads, the virtual offsets of the walk are right if and only if the first read returns all that is reached |
| PageWalk.WholeVoffsetsIff | mem/vm/page-types.c:687-703 | with reads that return what was asked for, the virtual offsets are right if and only if the walk has at most 65536 pages |
| PageWalk.LongWalkRestarts | mem/vm/page-types.c:687-703 | a walk over 65537 pages from 0 reports page 65536 at virtual offset 0 |
| PageWalk.BatchesCutRanges | mem/vm/page-types.c:372-703 | a listing of a walk over frames with equal attributes prints exactly one range for each batch, all with the same virtual offset |
| PageTypes.SummaryMatchesList | mem/vm/page-types.c:372-449 | the printed ranges expand to the reported pages, and the summary lines and total are exactly the counts of these pages by flags |
| PageTypes.Report.AddPage | mem/vm/page-types.c:653-659 | lists and counts one page, on both sets of static variables; fails exactly when the counts no longer fit |
| PageTypes.ReportOfEntry | mem/vm/page-types.c:743-746 | a report carries the address of its entry, and either the frame number with the attributes of that frame or the swap offset |
| PageTypes.Report.WalkVma | mem/vm/page-types.c:727-752 | reports frame and swap slot of every entry that could be read, at its address, in order |
| PageTypes.Report.WalkTask | mem/vm/page-types.c:754-774 | whatever the reads return, reports of every area in the range the entries up to the first empty read, in order |
| PageTypes.WalkAddrRanges | mem/vm/page-types.c:786-805 | reports all ranges given, or the whole address space if none is given, for any reads |
| PageTypes.Report.Finish | mem/vm/page-types.c:1356-1369 | flushing and summing up: the list is the shortest that expands to the reported pages, the lines are their exact counts |
| PageTypes.ReportProcess | mem/vm/page-types.c:1351-1369 | the whole program for a process and any reads: gives up if and only if more than 8191 distinct nonzero flag words occur; otherwise the list is the shortest that stands for exactly the entries read, and summary and total are their exact counts |
| PageTypes.ReportIsCompleteIff | mem/vm/page-types.c:727-805 | the entries read are exactly the mapped pages of all ranges if and only if every area of every range is read to its end |
| PageTypes.WillingReadsAll | mem/vm/page-types.c:727-805 | so they are if no read comes back empty |
| PageTypes.EmptyReadLosesArea | mem/vm/page-types.c:737-739 | an area whose first read returns nothing is not reported |
| PageTypes.ListedAtItsAddress | mem/vm/page-types.c:727-805 | every page of the report stands at a mapped address of a range asked for and shows the frame or swap slot of the entry there |
| PageTypes.EntryBits | mem/vm/page-types.c:308-323 | the frame is the low 55 bits of an entry with bit 63, the swap offset these divided by 32 for an entry with bit 62 |
| PageTypes.DueAtItsPlace | mem/vm/page-types.c:741-747 | the report holds, at the place of each address, exactly the frame page and then the swap page that the bits of its entry and the filters call for |
| PageTypes.EveryEntryIsListed | mem/vm/page-types.c:727-805 | every frame and every swap slot of an entry that was read and passes the filters is in the report of the process |
| PageTypes.SwapEntryIsListed | mem/vm/page-types.c:706-724 | page 7 with entry 0x4000000000000040 is listed at swap offset 2 |
| RdmaExchange.NextKeepsInv | rdma/rdma_ex.c:874-1246 | every call of either process and every action of either adapter keeps the invariant of the exchange |
| RdmaExchange.ReachedInv | rdma/rdma_ex.c:874-1246 | the invariant holds in every interleaving |
| RdmaExchange.NeverFails | rdma/rdma_ex.c:874-1246 | in every interleaving no call or transfer is refused, each completion queue holds at most one entry, and neither side is more than one exchange ahead |
| RdmaExchange.SendFindsReceive | rdma/rdma_ex.c:917-965 | whenever the server's SEND is posted or in transit, the client has exactly one receive posted and can receive |
| RdmaExchange.BuffersAsExpected | rdma/rdma_ex.c:1200-1236 | the client's RDMA read carries RDMA_MSG_R, and after its write the server's buffer holds RDMA_MSG_W |
| RdmaExchange.StopsOnlyWhenDone | rdma/rdma_ex.c:1169-1246 | no deadlock: when nothing can happen any more, both processes have finished, the server has printed RDMA_MSG_W, the client SEND_MSG and RDMA_MSG_R |
| RdmaExchange.RunsEnd | rdma/rdma_ex.c:315-353 | every interleaving ends, after at most 140 effective actions |
| SyncData.SockSyncData | rdma/rdma_ex.c:266-287 | a short write other than of nothing is returned and nothing is read; a complete write with a whole first read returns 0, leaves the message in the buffer and the rest in the stream; in every other case that ends, return value, buffer and stream follow from the reads |
| SyncData.ErrorIsReturned | rdma/rdma_ex.c:278-286 | a read that fails while bytes are missing ends the loop, and its value is returned |
| SyncData.LastReadStartsBuffer | rdma/rdma_ex.c:278-284 | the read that completes the number of bytes ends the loop with 0, and its bytes are at the start of the buffer |
| SyncData.DeliversIff | rdma/rdma_ex.c:266-287 | the exchange succeeds with the message intact, for all bytes and whatever follows, if and only if the first read that finds data returns all of it |
| SyncData.SplitMessageIsLost | rdma/rdma_ex.c:266-287 | two bytes that arrive one by one leave the second in place of the first |
| SyncData.EndOfStreamIsRepeated | rdma/rdma_ex.c:278-284 | at the end of the stream no number of reads ends the loop |
| StackArena.NextKeepsInv | trace/trace-irqoff/trace_irqoff.c:192-233 | every single store of the writer keeps the segments of published stacks consecutive and within the used frames |
| StackArena.NextKeepsStack | trace/trace-irqoff/trace_irqoff.c:192-233 | no store changes a published stack, except that a rewrite changes the duration of the newest one |
| StackArena.PublishedIsTheJob | trace/trace-irqoff/trace_irqoff.c:192-233 | the release store makes exactly the stack that was begun visible, complete |
| StackArena.Readable | trace/trace-irqoff/trace_irqoff.c:466-503 | in every run a slot below the count a reader loaded has its segment within the frames array |
| StackArena.SnapshotStable | trace/trace-noschedule/trace_noschedule.c:609-647 | a reader that loaded the count at any step finds the same frames, command and pid at any later step until a clear, and the same duration unless it was rewritten |
| StackArena.VisibleAreTheJobs | trace/trace-noschedule/trace_noschedule.c:217-257 | in every run, at every single store, the stacks visible to a reader are exactly those handed over and published since the last clear, complete and in order, with rewritten durations |
| StackArena.KeptWhileRoomLasts | trace/trace-irqoff/trace_irqoff.c:192-233 | of any sequence of stacks offered the first ones are kept, in order and whole, except one that is cut where the frames end; one is dropped only once slots or frames are used up |
| StackArena.StackStore.SaveTrace | trace/trace-noschedule/trace_noschedule.c:217-257 | appends the stack, cut to the room left, unless the slots or frames are used up; reports whether frames are still free |
| StackArena.StackStore.RewriteDuration | trace/trace-noschedule/trace_noschedule.c:332-337 | changes the duration of the newest stack and nothing else |
| StackArena.StackStore.Clear | trace/trace-noschedule/trace_noschedule.c:649-656 | withdraws all stacks |
| IrqoffModel.WritePeriodIff | trace/trace-irqoff/trace_irqoff.c:672-690 | a period write keeps the settings sound if and only if the nanoseconds are whole milliseconds and fit a word twice |
| IrqoffModel.WriteLatencyIff | trace/trace-irqoff/trace_irqoff.c:442-464 | an accepted threshold write keeps the settings sound if and only if its wrapped value is whole milliseconds and at least twice the period |
| IrqoffModel.WriteLatencyMsecsIff | trace/trace-irqoff/trace_irqoff.c:442-464 | the same in terms of the milliseconds written: the number of wrap-arounds is a multiple of 15625 and the rest is at least twice the period |
| IrqoffModel.WritePeriodMsecsIff | trace/trace-irqoff/trace_irqoff.c:672-690 | likewise for a period: the number of wrap-arounds is a multiple of 15625 and the rest fits a word twice |
| IrqoffModel.SoundAllAlongIff | trace/trace-irqoff/trace_irqoff.c:442-690 | over every sequence of control writes, the settings are sound after each write if and only if every write is refused or its value survives the wrap-around |
| IrqoffModel.AlwaysWellSet | trace/trace-irqoff/trace_irqoff.c:76-82 | after every sequence of control writes in which no accepted value wraps around, both settings are whole milliseconds and threshold >= 2 * period |
| IrqoffModel.WriteLatencyCases | trace/trace-irqoff/trace_irqoff.c:442-464 | a threshold of 0 asks for a clear, one below twice the period is refused, and from exactly twice the period on it is set |
| IrqoffModel.WritePeriodCases | trace/trace-irqoff/trace_irqoff.c:672-690 | a period is refused while enabled; otherwise it is set, and the threshold becomes the larger of itself and twice the period |
| IrqoffModel.LeastPeriodIff | trace/trace-irqoff/trace_irqoff.c:672-690 | after every sequence of control writes the period is at least 1 ms if and only if the last accepted one is after wrap-around; without wrap-around, if and only if it is not 0 |
| IrqoffModel.ZeroPeriodIsAccepted | trace/trace-irqoff/trace_irqoff.c:672-690 | a period of 0 is accepted against the documented minimum of line 74 |
| IrqoffModel.OverflowBreaksSettings | trace/trace-irqoff/trace_irqoff.c:672-690 | an accepted period of 9223372036855 ms breaks the settings by overflow |
| IrqoffModel.OverflowBreaksLatency | trace/trace-irqoff/trace_irqoff.c:442-464 | an accepted threshold of 18446744073710 ms becomes 448384 ns and breaks it too |
| IrqoffModel.BucketRange | trace/trace-irqoff/trace_irqoff.c:235-256 | with T = 2 * period, bucket 0 holds T up to 2(T+1), bucket i below the last (T+1)*2^i up to (T+1)*2^(i+1) |
| IrqoffModel.LabelIff | trace/trace-irqoff/trace_irqoff.c:235-397 | the bucket incremented is the one whose printed range holds the latency if and only if the period is not 0, the latency is below 1024 * T, and it is in the first range or not in the first 2^i nanoseconds of its own |
| IrqoffModel.FortyMillisecondsAreMislabeled | trace/trace-irqoff/trace_irqoff.c:235-256 | with the default period, 40 ms belong to the second printed range and are counted in the first |
| IrqoffModel.ThirtySecondsAreMislabeled | trace/trace-irqoff/trace_irqoff.c:249-250 | with the default period, 30 s are counted in the last bucket, whose printed range ends at 20479 ms |
| IrqoffLaws.AtMostOnePlus | trace/trace-irqoff/trace_irqoff.c:264-316 | in every run at most one preliminary stack is offered between two software ticks |
| IrqoffLaws.AtMostOneStack | trace/trace-irqoff/trace_irqoff.c:235-316 | in every run without a clear at most one software stack is stored between two software ticks |
| IrqoffLaws.ThresholdNotThrottled | trace/trace-irqoff/trace_irqoff.c:235-259 | the early return never swallows a latency at or above the stack threshold |
| IrqoffLaws.FollowingTick | trace/trace-irqoff/trace_irqoff.c:235-316 | after a preliminary stack, the next software tick measures at least its latency if and only if no hardware delay was detected in between, or the last one that long ago; then it counts it and offers its own stack (the intent at trace/trace-irqoff/README.md line 198) |
| IrqoffLaws.LateHardwareHidesTheDelay | trace/trace-irqoff/trace_irqoff.c:264-316 | a run in which a late hardware tick makes the tick after a 60 ms announcement measure 1 ms and store nothing |
| IrqoffCounts.RunShows | trace/trace-irqoff/trace_irqoff.c:264-349 | in every run both timestamps and the delayed flag are what the events say |
| IrqoffCounts.HardCountExact | trace/trace-irqoff/trace_irqoff.c:235-289 | in every run each hardware bucket holds exactly the number of hardware ticks since the last clear that were at least twice the period late and belong to it; the last bucket takes the rest |
| IrqoffCounts.SoftCountExact | trace/trace-irqoff/trace_irqoff.c:235-316 | the same for software ticks and the software buckets |
| IrqoffCounts.HardStacksExact | trace/trace-irqoff/trace_irqoff.c:192-289 | in every run the hardware buffer holds the stacks of the hardware ticks at or above the threshold since the last clear, with command, pid and latency, while room lasts |
| IrqoffCounts.SoftStacksExact | trace/trace-irqoff/trace_irqoff.c:192-316 | the same for the software buffer: software ticks at or above the threshold, and announcing hardware ticks with a plus |
| IrqoffCounts.OnlyAnnouncementsOffer | trace/trace-irqoff/trace_irqoff.c:264-289 | between software ticks, without a clear, exactly one software stack is offered for each hardware tick that finds the software timer overdue |
| IrqoffCounts.FirstLateTick | trace/trace-irqoff/trace_irqoff.c:235-289 | a first hardware tick after 60 ms is counted in bucket 1 and its stack is stored |
| Irqoff.Control.TraceLatencyWrite | trace/trace-irqoff/trace_irqoff.c:442-464 | zero asks for a clear, values below 2 * period and non-numbers are refused, all else sets the threshold |
| Irqoff.Control.SamplingPeriodWrite | trace/trace-irqoff/trace_irqoff.c:672-690 | refused while enabled; otherwise sets the period and raises the threshold where needed |
| Irqoff.PerCpu.SaveTrace | trace/trace-irqoff/trace_irqoff.c:192-233 | stores the stack in the buffer of its kind, with the plus mark exactly for software stacks seen through registers |
| Irqoff.PerCpu.LatencyIndex | trace/trace-irqoff/trace_irqoff.c:243-251 | the halving loop finds the bucket |
| Irqoff.PerCpu.TraceIrqoffRecord | trace/trace-irqoff/trace_irqoff.c:235-262 | refines the record step: one bucket and at most one stack |
| Irqoff.PerCpu.TraceIrqoffHrtimerHandler | trace/trace-irqoff/trace_irqoff.c:264-289 | refines the hardware tick on the per-CPU arrays |
| Irqoff.PerCpu.TraceIrqoffTimerHandler | trace/trace-irqoff/trace_irqoff.c:294-316 | refines the software tick on the per-CPU arrays |
| Irqoff.PerCpu.ClearStackTrace | trace/trace-irqoff/trace_irqoff.c:318-332 | refines the clear of both buffers and histograms |
| Irqoff.PerCpu.TimersStart | trace/trace-irqoff/trace_irqoff.c:334-349 | refines the restart of both measurements |
| NoschedModel.BucketRange | trace/trace-noschedule/trace_noschedule.c:269-286 | bucket i below the last holds exactly 20 ms * 2^i up to 20 ms * 2^(i+1), its printed range |
| NoschedModel.LabelIff | trace/trace-noschedule/trace_noschedule.c:269-572 | a counted duration is under its printed range if and only if it is below 20 ms * 2^12 |
| NoschedModel.NinetySecondsAreMislabeled | trace/trace-noschedule/trace_noschedule.c:282-284 | 90 s are counted in the last bucket, whose printed range ends below 82 s |
| NoschedModel.FrozenWhileSkipping | trace/trace-noschedule/trace_noschedule.c:288-316 | while a stored stack waits for its switch the list of stacks does not change |
| NoschedModel.OneStackPerStretch | trace/trace-noschedule/trace_noschedule.c:288-345 | in every run at most one stack is stored between two handled switches |
| NoschedModel.SwitchFinishesTheStack | trace/trace-noschedule/trace_noschedule.c:319-345 | the next handled switch rewrites the duration of exactly the stack that set the flag |
| NoschedModel.FinishedUnlessFull | trace/trace-noschedule/trace_noschedule.c:217-345 | a stored stack gets its final duration at the next handled switch if and only if storing it left frames free |
| NoschedModel.FullStackKeepsDuration | trace/trace-noschedule/trace_noschedule.c:217-345 | a first stack of 128 frames keeps 60 ms although the switch comes after 90 ms |
| NoschedModel.FinalDurationIff | trace/trace-noschedule/trace_noschedule.c:288-345 | the final duration is at least the first one if and only if no refreshing tick came in between, or the last one that long ago |
| NoschedModel.RefreshShrinksDuration | trace/trace-noschedule/trace_noschedule.c:288-345 | a user-mode tick at 100 ms makes the final duration of a 101 ms stretch 1 ms |
| NoschedModel.SomethingToFinish | trace/trace-noschedule/trace_noschedule.c:319-345 | as long as clears come only when no stack waits, every switch finds the stack it rewrites |
| NoschedModel.SwitchFaultIff | trace/trace-noschedule/trace_noschedule.c:332-337 | after a stored stack the next handled switch writes outside the array if and only if a clear came in between |
| NoschedModel.ClearedStackFaults | trace/trace-noschedule/trace_noschedule.c:332-337 | a run that reaches that fault |
| NoschedCounts.RunTells | trace/trace-noschedule/trace_noschedule.c:217-345 | in every run without a fault the start of the stretch, the controls, the waiting flag and the stacks are what the events say |
| NoschedCounts.HistogramExact | trace/trace-noschedule/trace_noschedule.c:269-345 | in every run without a fault each bucket holds exactly the number of counted switches since the last clear whose duration belongs to it; the last bucket takes the rest |
| NoschedCounts.HistogramTotal | trace/trace-noschedule/trace_noschedule.c:269-345 | the counts sum to the number of counted switches of at least 20 ms |
| NoschedCounts.HundredMilliseconds | trace/trace-noschedule/trace_noschedule.c:275-285 | a first counted switch after 100 ms is counted in bucket 2 |
| Nosched.PerCpu.StepIndex | trace/trace-noschedule/trace_noschedule.c:277-281 | the halving loop finds the bucket |
| Nosched.PerCpu.HistUpdate | trace/trace-noschedule/trace_noschedule.c:269-286 | counts a duration of at least 20 ms in its bucket |
| Nosched.PerCpu.HrtimerHandler | trace/trace-noschedule/trace_noschedule.c:288-316 | refines the tick on the per-CPU arrays |
| Nosched.PerCpu.ProbeSchedSwitch | trace/trace-noschedule/trace_noschedule.c:319-345 | refines the switch on the per-CPU arrays, and tells exactly when the slot to rewrite does not exist |
| Nosched.PerCpu.StackTraceClear | trace/trace-noschedule/trace_noschedule.c:649-660 | refines the clear of stacks and histogram |
| Nosched.PerCpu.TimerStart | trace/trace-noschedule/trace_noschedule.c:422-435 | refines the start of the timer |
| PageOwner.ReadBlock | mem/vm/page_owner_sort.c:33-46 | the fgets loop reads the block that the recursive definition describes, or end of input |
| PageOwner.ReadLoopIsNextBlock | mem/vm/page_owner_sort.c:33-46 | within the buffer the loop reads exactly the lines before the next empty line, PFN lines dropped |
| PageOwner.ReadsAllBlocks | mem/vm/page_owner_sort.c:33-126 | within the buffer limits the program reads all blocks of a file, in order; an unterminated last block is dropped |
| PageOwner.LoadIsExact | mem/vm/page_owner_sort.c:62-84 | loading succeeds if and only if the runs of equal blocks fit the list, and keeps the number of blocks of every text |
| PageOwner.BlockList.Add | mem/vm/page_owner_sort.c:62-84 | merges with the last entry if equal, else appends; fails when full |
| PageOwner.BlockList.LoadFile | mem/vm/page_owner_sort.c:120-126 | loads the blocks of the file as the list model does; fails exactly when they do not fit |
| PageOwner.CullList | mem/vm/page_owner_sort.c:138-145 | the cull loop merges equal neighbours as the recursive definition does |
| PageOwner.CullTally | mem/vm/page_owner_sort.c:138-145 | culling keeps the number of blocks of every text |
| PageOwner.CullAscending | mem/vm/page_owner_sort.c:138-145 | culling a list sorted by text leaves every text once |
| PageOwner.PipelineTally | mem/vm/page_owner_sort.c:120-150 | the number of blocks of every text comes through both merges and both sorts unchanged |
| PageOwner.CountsAreExact | mem/vm/page_owner_sort.c:120-150 | for every input and every outcome of the sorts: each distinct block is listed exactly once, with the number of its occurrences, counts not increasing and summing to the number of blocks |
| PageOwner.SortPageOwner | mem/vm/page_owner_sort.c:88-153 | the whole program, from file to output: gives up if and only if the runs of equal blocks exceed the capacity of a hundredth of the file size; otherwise prints the exact counts of the blocks read, which are all blocks of a file whose lines fit the buffer |
| PageOwnerFile.KeptLines | mem/vm/page_owner_sort.c:33-46 | what should be kept of a file is its lines, in order, except empty ones and those that begin with P, F and N |
| PageOwnerFile.BlocksAndTail | mem/vm/page_owner_sort.c:33-46 | the blocks of a file and the kept lines behind its last empty line are all lines that should be kept, in order |
| PageOwnerFile.NothingDroppedIff | mem/vm/page_owner_sort.c:33-126 | for a file whose lines fit the buffer, the blocks read hold all those lines if and only if only PFN lines follow the last empty line |
| PageOwnerFile.UnterminatedBlockIsDropped | mem/vm/page_owner_sort.c:33-46 | of a file with one line and no empty line the program reads nothing |
| PageOwnerFile.LoadStopsAtUnfit | mem/vm/page_owner_sort.c:45-126 | a block that does not fit the buffer ends the load: exactly the blocks before it are read |
| PageOwnerFile.ReadsAllBlocksIff | mem/vm/page_owner_sort.c:33-126 | all blocks of a file are read if and only if each of them fits the buffer |
| PageOwnerFile.LongBlockIsLost | mem/vm/page_owner_sort.c:33-46 | of a file with one line as long as the buffer the program reads nothing |
| TarHeader.PathIff | mem/smem-1.4/smemcap.c:34-35 | the path is recovered if and only if it has at most 100 bytes |
| TarHeader.NumbersBack | mem/smem-1.4/smemcap.c:35-39 | mode, size and mtime are always recovered, uid and gid if and only if below 8^8 |
| TarHeader.ChecksumBack | mem/smem-1.4/smemcap.c:40-45 | with a non-negative sum the checksum field reads back as the sum of signed bytes |
| TarHeader.ChecksumIff | mem/smem-1.4/smemcap.c:40-45 | for a path that fits, the stored checksum is the byte sum of the block with a blank checksum field if and only if the path is ASCII |
| TarHeader.HeaderLayout | mem/smem-1.4/smemcap.c:35-39 | mode, ids and mtime below 8^7 are stored as exactly 7 octal digits and a zero byte, the size as 11 |
| TarHeader.ChecksumLayout | mem/smem-1.4/smemcap.c:40-45 | a non-negative checksum is stored as exactly 6 octal digits, a zero byte and a blank |
| TarHeader.LongPathIsCut | mem/smem-1.4/smemcap.c:34-35 | a path of 101 bytes does not come back |
| TarHeader.LargeUidIsCut | mem/smem-1.4/smemcap.c:36-37 | the user 16777216 does not come back |
| TarHeader.NonAsciiChecksumDiffers | mem/smem-1.4/smemcap.c:42-45 | a path of the byte 200 makes the stored checksum wrong |
| TarArchive.Sprintf | mem/smem-1.4/smemcap.c:34-45 | writes the text and a zero byte in place, leaving all else |
| TarArchive.WriteHeader | mem/smem-1.4/smemcap.c:26-48 | the in-place header is the block that the field-by-field definition describes |
| TarArchive.CompleteIff | mem/smem-1.4/smemcap.c:61-68 | the archived content is a prefix of the file, and the whole of it if and only if every read before the last one with data is a full block |
| TarArchive.ShortReadTruncates | mem/smem-1.4/smemcap.c:61-68 | of two bytes read one by one only the first is archived |
| TarArchive.ReadFile | mem/smem-1.4/smemcap.c:61-68 | the list of blocks is the content padded with zeros, and has enough blocks for its size |
| TarArchive.ArchiveFile | mem/smem-1.4/smemcap.c:50-83 | writes the header, the content and zeros up to the next multiple of 512 bytes, and no more; the list never runs out while writing |
| TarArchive.FieldsBackIff | mem/smem-1.4/smemcap.c:26-48 | a reader that verifies the checksum gets all fields back, with the permission bits of the mode, if and only if they fit: path of at most 100 ASCII bytes, ids below 8^8 |
| TarArchive.MemberBack | mem/smem-1.4/smemcap.c:50-83 | a member of any mode is read back, checksum verified, with its fields, its permission bits and its exact bytes, and what follows is left over |
| TarArchive.ArchiveRoundTrip | mem/smem-1.4/smemcap.c:92-114 | reading any written archive of files and directories whose fields fit gives back all members, in order, with their permission bits |
| TarArchive.RegularFileBack | mem/smem-1.4/smemcap.c:72-74 | any content archived with mode 100644 comes back with mode 644 |
| SmemTotals.GroupsAddUp | mem/smem-1.4/smem:239-392 | whatever the grouping, the group totals of a column sum to the total over all mappings |
| SmemTotals.AddMaps | mem/smem-1.4/smem:243-245 | the loop over a process's mappings adds them to a row that stays in agreement |
| SmemTotals.ProcessTotals | mem/smem-1.4/smem:239-264 | one row for each process that is shown and has mappings, with its exact totals, USS and number of mappings |
| SmemTotals.MapTotals | mem/smem-1.4/smem:301-328 | one row for each mapping name, with its exact totals, number of mappings and number of processes |
| SmemTotals.UserTotals | mem/smem-1.4/smem:366-392 | one row for each user, with the exact totals and the number of reported processes |
| SmemTotals.ReportsAgree | mem/smem-1.4/smem:239-392 | for all processes, mappings and filters, every memory field and the number of mappings have the same total by process, by user and by name |
| SmemTotals.TablesAgree | mem/smem-1.4/smem:239-392 | any three tables that meet the contracts of the three loops have equal column sums for every memory field |
| SmemTotals.CountColumnsAgree | mem/smem-1.4/smem:239-392 | in these tables the mapping counts by process and by name sum to the number of mappings, and the user counts to the number of rows of the process table |
| SmemTotals.VssColumnsIff | mem/smem-1.4/smem:294-417 | the VSS columns by process and by name have equal sums; that of the user report has the same sum if and only if every mapping shown has PSS equal to its size, given that PSS never exceeds it |
| SmemTotals.VssDiffers | mem/smem-1.4/smem:294-417 | for a process with one untouched 4 kB mapping they are 4 and 0 |

## Left out

- Kernel and library calls: tracepoints, procfs, timers, ibverbs, pread, qsort and stack unwinding appear as events, parameters or small abstract contracts. The sort is any ordered permutation; the unwinder returns any list of frames; a read returns any number of words up to the number asked for.
- Printing formats and option parsing. Printed lists matter as sequences of records.
- Memory order below the level of single stores: the readers of the stack buffers see memory as of some store of the writer, as release and acquire make it.
- A hardware tick that interrupts the software handler of the same CPU halfway: the handlers are atomic steps.
- Wrap-around of the counters in histograms and page counts, which are unbounded numbers here; time stamps, settings, offsets and the sum of latencies are 64-bit words.
- Failing calls, timeouts and truncated messages in the RDMA run of `RdmaExchange`, which takes every sync to deliver its message whole; what happens otherwise is `SyncData`. The message texts are named constants.
- `page-types`: file walks with their SIGBUS jump, hwpoison writes, flag names, the bit arithmetic of flag expansion and filters (`PageTypes` takes the attributes of a frame or swap entry, or its rejection, as a parameter), and the exits of the program when a kernel file fails, returns a part of a word, is asked for an index above ULONG_MAX / 8 or returns fewer words than the page flags did, and the mode that prints single pages.
- IdleBitmap.IdleMarker.MarkPageIdle: models a word as the set of its one bits and the file as the set of pages marked idle.
- PageTypes.ReportProcess: covers walks of a process; a walk over page frames is covered by `PageWalk.WalkPfn` and `PageWalk.BatchesCutRanges`.
- PageWalk.AddressSpace.WalkTask: takes the areas as sorted, disjoint and nonempty, which is how the kernel lists them, and relies on the clamp of `RangeList.AddAddrRange` for the end of the range.
- Nosched.PerCpu.ProbeSchedSwitch: says nothing of the state after the write outside the array; when that happens is `SwitchFaultIff`.
- SyncData.SockSyncData: is about reads that bring the loop to an end; that it does not end at a closed socket is `EndOfStreamIsRepeated`.
- TarArchive.ArchiveFile: keeps the blocks in a sequence instead of linked nodes, and takes the path to come from the 256-byte buffer and the numbers to be non-negative 32-bit values. The writer emits no end-of-archive blocks, so the reader modelled here stops at the end of input.
- SmemTotals.ProcessTotals: takes the pids as distinct, and the mappings as they are after the mapping filter; processes that cannot be read are left out of the input. Dictionaries are iterated in a given order, on which no total depends.
- PageOwnerFile.ReadsAllBlocksIff: leaves out files with a PFN line that does not fit the buffer; such a line is dropped in part and its rest read as a line of its own.
- PageOwner.SortPageOwner: takes the sorts as functions that return an ordered permutation; like all of `PageOwner` it is about texts without NUL bytes; the source takes a NUL as the end of the text of a line.
- Slab statistics, the page-cache scanner, `linux-fincore`, the pagemap helpers, the balloon daemon, the exercises under `leet` and the demos of kernel primitives: these would only add easy members.
