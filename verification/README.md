# Verification of the stream-web receiver

A software receiver moves IQ samples from a radio into a lock-free ring buffer with wrapped
indices. Over short, overlapping windows of that ring it decides which packets and which failures
to report. This project models those decisions in Dafny and proves that they mean what they would
mean on the unbounded sample stream.

| module | file modelled | what it is about |
|---|---|---|
| `Modular`, `Numbers`, `Options` | | remainders and quotients in a linear spelling, tied to `%` and `/`; small helpers |
| `IqRing` | `gnuradio_rx.py`, `processor.py` | the ring writer in cell-sized steps, its readers, drop positions |
| `ForwardCapture`, `CaptureHazards` | `app.py` | the chunked capture out of the live ring, interleaved with the writer; when exactly it goes wrong |
| `TdSelection`, `TdRules`, `TdCapture`, `TdCaptureRuns`, `TdConfirmations` | `td_capture.py` | the Signal Viewer's capture state machine: as a function, as rules that decide it, as mutable objects, over whole runs |
| `ProcessorCycle` | `processor.py` | from the ring to the decode window, from the decision to the rendered segment, and which drops are reported |
| `DropAnnotation` | `processor.py` | drops noted on failed attempts, and what that does to the capture decision |
| `LiveDedup`, `LiveVerdicts` | `processor.py` | exactly-once reporting over a sliding window; packet by packet, what is emitted and what is dropped |
| `OfflineSweep`, `SweepVerdicts`, `SharedIdentifiers` | `analysis.py` | exactly-once decoding of a recording; record by record, what any decoder's sweep returns; what happens when packets share the identifiers their starts are looked up by |
| `SymbolEdges`, `EdgeRules`, `PacketEdges` | `timing.py`, `analysis.py` | the symbol edge tracker, the rules that decide its edges, and its use on a recording |
| `HopOverlay`, `FccCompliance` | `spectrogram.py` | hop segmentation; the verdict on 47 CFR section 15.247(a)(1) and (d) |
| `Watchdog`, `WatchdogRules`, `PacketFeed` | `app.py` | the restart budget of the worker watchdog; the poll-and-drain feed |

Objects the program updates in place are classes (`SharedRing`, `TdCaptureState`, `HitRecord`,
`Deduplicator`, `SeenPackets`, `WorkerWatchdog`, `Feed`) and its loops are methods. Each is proved to
compute a function or meet a predicate on values, about which the whole-run theorems are stated.
What those functions compute is also stated as rules over the inputs' own fields that name none of them
and leave one answer (`TdRules`, `LiveVerdicts`, `SweepVerdicts`, `EdgeRules`, `WatchdogRules`).
Constants are parameters; their published values appear only in counterexamples. Ghost variables
carry what the program cannot see: the whole sample stream, the unreduced position of a window,
every restart ever made.

## Where the code and its description differ

- A block that ends exactly at the end of the buffer leaves the head at the buffer size, not at 0
  (`gnuradio_rx.py:122-124`), while the capture's cursor is reduced (`app.py:578`). A capture whose
  cursor is at 0 under such a parked head reads "no progress" as a full lap and copies the previous
  lap. `CaptureHazards.StaleWaitExactly` says which starts and lengths this can happen to, for every
  even buffer size and however small the writer's blocks, and
  `CaptureHazards.ParkedHeadReturnsStaleSample` is for each of them a run that returns normally with a
  whole chunk in which every sample differs from the one promised.
- The integrity guard after a copy (`app.py:586-592`) sees only the published head, so a block in
  flight may already have overwritten the chunk. With blocks of at most b samples the guard still
  bounds the damage: `CaptureHazards.TearBounded` and, for a start off the half-buffer marks,
  `CaptureHazards.TearBoundedOffMark` (the first b - 1 samples of a chunk and no others).
  `CaptureHazards.BlockInFlightTearsChunk` is for every b from 2 up a run in which exactly those of one
  chunk differ from the stretch promised. From a start on the marks the b-th sample can too, even with a
  writer of single samples, and `CaptureHazards.TornBeyondExactly` says for which starts and lengths.
  What any capture returns, good or bad, is `ForwardCapture.CaptureExactlyWhen`.
- `config.py:156-158` keeps the age of remembered positions below the buffer's duration so that they
  cannot alias. That does not suffice. Between window and buffer there are 0.5 s, and a decode
  interval is 0.6 s, so a truncation that loses its packet can be promoted by an unrelated failure a
  whole buffer away: `TdConfirmations.ConfirmationAliases`, for every offset less than 0.1 s past a
  whole number of intervals. For every run, `TdConfirmations.HeldExactly` and
  `TdConfirmations.PromotedWhereHeld` give the exact condition on the windows' movements, and
  `TdConfirmations.SteadyAliasExactly` the exact condition on offset, step and timeout at a steady pace.
- A drop queued after the processor has read the head, but before it drains the queue
  (`processor.py:97-105`), is taken off the queue and never reported, although the next window holds
  it: `ProcessorCycle.LateDropLost`, at every place of the stream `ProcessorCycle.LateDropHappens`,
  exactly `ProcessorCycle.DropReportedExactly`.
- `td_capture.py:27-30` holds a cut-off packet for confirmation instead of reporting it. A drop noted on
  the attempt first (`processor.py:159-175`) changes its reason, and it is reported at once, exactly
  when the drop lies inside it: `DropAnnotation.HeldExactlyUndropped`,
  `DropAnnotation.DropSkipsConfirmation`.
- `config.py:140-141` describes the same-packet test as comparing device id, tag and payload. The
  offline sweep compares sequence number, tag and payload (`analysis.py:42`), so two devices can be
  merged: `OfflineSweep.DevicesMerged`, a recording where they are in `OfflineSweep.TwoDevicesSurveyed`,
  and the exact condition in `OfflineSweep.OfflineOnceExactlyWhen`.
- The offline sweep looks up a packet's start by device and sequence number (`analysis.py:65-75`).
  Packets of one window that share both are all placed at the latest one's start, and a packet sent
  twice is returned once, however far apart: `SharedIdentifiers.TwoShareIds`, what any recording gives
  `SharedIdentifiers.SharedSweep`, exactly when one window is right `SharedIdentifiers.OneWindowExactlyWhen`.
- `work` assumes no block is empty or longer than the buffer; an empty one fails in the peak meter,
  and a longer one can fail after part of it has been stored. `IqRing.SharedRing.Work` says exactly
  when, and what is left behind.

## Model

| member | source | states |
|---|---|---|
| IqRing.FillValid | src/stream_web/gnuradio_rx.py:119-129 | one more cell of a block in flight: every one of the last `size` stream samples is still in the cell congruent to its index, the head still congruent to what is published |
| IqRing.PublishValid | src/stream_web/gnuradio_rx.py:122-129 | moving the head past the block, parked at `size` or wrapped, keeps ring and stream in correspondence |
| IqRing.RxStepKeeps | src/stream_web/gnuradio_rx.py:119-129 | any observable writer step keeps the correspondence and only extends the stream |
| IqRing.BlockStored | src/stream_web/gnuradio_rx.py:119-129 | the two slice assignments leave the array that storing cell by cell leaves, and the head after them is that of the longer stream |
| IqRing.SharedRing.constructor | src/stream_web/app.py:104-107 | a zeroed ring stands for the empty stream |
| IqRing.SharedRing.NoteGap | src/stream_web/gnuradio_rx.py:95-111 | a gap over 50 ms counts an overflow and queues the head together with the true stream length there; otherwise nothing but the clock changes |
| IqRing.SharedRing.Store | src/stream_web/gnuradio_rx.py:117-129 | which cells the slices write, for every head and length; the one length bound past which the second slice is refused, and what has been stored by then |
| IqRing.SharedRing.Work | src/stream_web/gnuradio_rx.py:89-131 | after any call that succeeds the ring mirrors the stream extended by the block; it succeeds exactly on blocks that are not empty and at most `2 * size - head` long; a failed call publishes nothing, and what it leaves in the cells is stated |
| IqRing.SharedRing.RxMicroStep | src/stream_web/gnuradio_rx.py:117-129 | the same writer one memory access at a time is a step of the writer relation and keeps the ring's invariant between accesses |
| IqRing.SharedRing.ExtractLast | src/stream_web/processor.py:119-123 | the copy out of the live array, the writer running between any two cells, is a live copy of the stream at the head read first: each cell the newest congruent sample at its own instant |
| IqRing.ExtractLastCell | src/stream_web/processor.py:119-123 | each sample of a live copy is the one wanted if and only if the writer, block in flight included, had not lapped it when its own cell was read |
| IqRing.ExtractLastExact | src/stream_web/processor.py:119-123 | a copy whose cells were all read in time is exactly the last samples before the head it started from |
| IqRing.ExtractLastTorn | src/stream_web/processor.py:119-123 | a cell read up to a lap too late holds the sample one lap on |
| IqRing.ExtractLastLength | src/stream_web/processor.py:119-123 | for every n the slices hold the one number of cells in 1..size congruent to n: n itself if and only if 0 < n <= size |
| IqRing.DropOffsets | src/stream_web/processor.py:107-117 | the loop maps the queued positions in order, each by the wrapped window test |
| IqRing.MapDropExact | src/stream_web/processor.py:107-117 | a drop less than a lap old, or queued after the head was read and before the writer came round to the window, is emitted if and only if its sample is in the window and it is not the parked position with the window at cell 0; the offset emitted is the true one |
| IqRing.DropsReported | src/stream_web/processor.py:107-117 | of a queue of such drops exactly those the window holds are reported, each at its true offset, in the order queued |
| IqRing.DropOffsetPointsAtGap | src/stream_web/processor.py:107-117 | the emitted offset is, in the chunk copied from the live ring, the place of the first sample written after the gap |
| ForwardCapture.WrappedDistance | src/stream_web/app.py:549-553 | the computed distance is the true advance reduced by whole laps, except a full lap under a parked head |
| ForwardCapture.DistanceExact | src/stream_web/app.py:549-553 | it equals the true advance if and only if that is below one lap, or exactly one lap in the parked case |
| ForwardCapture.GuardCatchesOverrun | src/stream_web/app.py:586-592 | every published overrun strictly between `size` and `size` plus the chunk is refused |
| ForwardCapture.GuardDecision | src/stream_web/app.py:586-592 | below a lap and a chunk the guard accepts if and only if the advance is below a lap, or one lap under a parked head |
| ForwardCapture.GuardVerdict | src/stream_web/app.py:586-592 | in a run, a chunk published and the writer in reach, the copy is refused if and only if the head has passed the whole ring, parked one lap on apart |
| ForwardCapture.WaitDecision | src/stream_web/app.py:573-576 | below a lap, leaving the wait is the right decision if and only if the head is not parked over a cursor it has not passed |
| ForwardCapture.WaitVerdict | src/stream_web/app.py:573-576 | in a run, less than a lap behind, a fresh wait ends in a copy if and only if the whole chunk is published, and in a timeout if and only if it is not |
| ForwardCapture.WriterKeepsInv | src/stream_web/app.py:563-597 | whatever the writer does, samples already accepted stay right, and those of the current chunk as far as it has not lapped them |
| ForwardCapture.WaitKeepsInv | src/stream_web/app.py:570-576 | leaving the wait undisturbed means the chunk is published |
| ForwardCapture.CopyKeepsInv | src/stream_web/app.py:578-584 | each cell read for the chunk holds the next stream sample as far as the writer has not lapped it |
| ForwardCapture.GuardKeepsInv | src/stream_web/app.py:586-595 | an accepted chunk is right for good beyond its first `slack` samples |
| ForwardCapture.CaptureExactBeyond | src/stream_web/app.py:556-597 | for every interleaving without a stale exit from the wait, whose accepted overruns of chunks longer than `slack` are at most `slack` samples of a block in flight past a lap, a normal return is right beyond the first `slack` samples of each chunk |
| ForwardCapture.CaptureExact | src/stream_web/app.py:556-597 | with none past a lap it is exactly the next n stream samples from the head first read: no gap, repeat or tear |
| ForwardCapture.SampleOrigin | src/stream_web/app.py:556-597 | in any run at all, every sample returned is the newest congruent one at the step that read its cell |
| ForwardCapture.CaptureExactlyWhen | src/stream_web/app.py:556-597 | over a whole run, for any interleaving, a normal return is position by position the stretch promised if and only if each of its samples was written and not overwritten when its cell was read |
| ForwardCapture.StartFixed | src/stream_web/app.py:568-595 | through every interleaving, cursor and fill count keep pointing at the stream position published when the capture read the head |
| ForwardCapture.CopyReadsNewest | src/stream_web/app.py:578-584 | clean or not, each read returns the newest stream sample congruent to the one wanted: the one wanted if and only if that is written and not overwritten |
| CaptureHazards.StaleWaitOnlyWhenDue | src/stream_web/app.py:563-595 | with an even buffer, in any run, a wait with the head parked over a cursor it has not passed needs a start on a half-buffer mark and a length past the boundary, at least the block in flight at the start, where the cursor comes to cell 0 |
| CaptureHazards.OffMarkStartNeverParks | src/stream_web/app.py:563-595 | so a capture that starts off the half-buffer marks never meets one |
| CaptureHazards.StaleWaitExactly | src/stream_web/app.py:563-595 | for every ring, block in flight or not, every length and every block size, some interleaving reaches such a wait if and only if start and length are as said |
| CaptureHazards.ParkedHeadReturnsStaleSample | src/stream_web/app.py:573-595 | from every such start, a run that leaves such a wait and returns normally with a whole chunk of the lap before, in which every sample differs from the one promised |
| CaptureHazards.TearBounded | src/stream_web/app.py:586-595 | with blocks of at most b samples, fresh exits from the wait and a writer less than a lap and a chunk ahead when the guard accepts, only the first b samples of a chunk can be anything but the stretch promised |
| CaptureHazards.TearBoundedOffMark | src/stream_web/app.py:586-595 | from a start off the half-buffer marks only the first b - 1 can, and every exit from the wait is fresh |
| CaptureHazards.BlockInFlightTearsChunk | src/stream_web/app.py:578-592 | for blocks of at most b >= 2 samples, from every ring and for every length, a run with fresh exits from the wait and the writer in reach that returns normally, and in whose last chunk exactly the first b - 1 samples, one lap too new, differ from those promised |
| CaptureHazards.TornBeyondExactly | src/stream_web/app.py:586-595 | with blocks of at most b samples, shorter than a chunk, some such run returns a sample beyond the first b - 1 of a chunk that differs from the one promised if and only if the capture starts on a half-buffer mark and is long enough for a b-th sample in its chunk at cell 0 |
| ForwardCapture.Await | src/stream_web/app.py:571-576 | the wait loop, with the writer running between polls, takes only steps of the state machine; it gives up at the first clock reading past the deadline, and only then |
| ForwardCapture.CaptureChunk | src/stream_web/app.py:570-595 | one chunk is accepted, times out or is refused, as the state machine has it; it times out if and only if a poll that found too few samples reads the clock past the chunk's own duration and five seconds, and no earlier reading does, whatever the outcome |
| ForwardCapture.CopyCell | src/stream_web/app.py:578-584 | one cell of the copy from the live array, after any writer steps, is the machine's copying step |
| ForwardCapture.CopyChunk | src/stream_web/app.py:578-584 | the slice copy, interleaved cell by cell, is a run of copying steps that fills precisely its part of the result |
| ForwardCapture.Guard | src/stream_web/app.py:586-595 | the guard's verdict and the advance of cursor and fill count are the machine's guarding step |
| ForwardCapture.CaptureIq | src/stream_web/app.py:556-597 | whatever it returns (a segment, 504 or 500) is the end of a run of the state machine, in chunks of half a buffer; 504 if and only if the last chunk's last reading is past that chunk's duration and five seconds, every other reading of every chunk being in time; from a clean run the array is exactly the stream samples promised |
| TdCapture.TdCaptureState.SelectTdCapture | src/stream_web/td_capture.py:87-148 | on mutable, shared hit objects, one call computes the decision function's new state, capture and status and keeps the invariant; the branch for a hit that is not the pending one is dead |
| TdRules.AdvanceFollows | src/stream_web/td_capture.py:87-295 | that new state, capture and status follow the rules: which attempt, by its own chipset, reason and time and the extents of the decoded ones; where it starts; when it is promoted, retried, awaited; what is rendered and what the status says |
| TdRules.RulesDecide | src/stream_web/td_capture.py:87-295 | and nothing else does: a result follows the rules if and only if it is the decision's |
| TdRules.PhantomsPassedOver | src/stream_web/td_capture.py:33-49 | a search takes the first failure of the chipset outside every decoded packet's extent (its duration given, or its symbols times its version's slot) and padding, if and only if there is one and it is reached; a failure inside one is never taken |
| TdCapture.TdCaptureState.Retry | src/stream_web/td_capture.py:153-164 | refreshes the pending hit in place or forgets it, and returns that same object |
| TdCapture.TdCaptureState.Confirm | src/stream_web/td_capture.py:172-203 | settles a held truncation; a promotion is a new object that is now the pending hit |
| TdCapture.TdCaptureState.ChooseChipset | src/stream_web/td_capture.py:167-230 | any hit returned is the pending hit itself, and the state stays structured |
| TdCapture.TdCaptureState.ChooseDevice | src/stream_web/td_capture.py:233-256 | likewise for a device target |
| TdCaptureRuns.SelectSelected | src/stream_web/td_capture.py:113-120 | the complete effect of one selection: what was chosen and why, from which attempt, at which position, and what stays pending |
| TdCaptureRuns.ConfirmDecided | src/stream_web/td_capture.py:172-203 | a held truncation is promoted if and only if it is unresolved and the first failure near it has a real reason; kept if and only if unresolved, not promoted and within the timeout |
| TdCaptureRuns.ChipsetDecided | src/stream_web/td_capture.py:167-230 | when exactly a chipset cycle promotes, retries, goes on waiting or searches; a search never passes over a failure that is no phantom |
| TdCaptureRuns.FreshIsFirst | src/stream_web/td_capture.py:212-230 | a search takes the first such failure, and holds it exactly when it is a truncation |
| TdCaptureRuns.DeviceDecided | src/stream_web/td_capture.py:233-256 | a device cycle retries or else takes a decoded attempt of its id whenever there is one |
| TdCaptureRuns.DeferredExactly | src/stream_web/td_capture.py:128-137 | a hit is deferred if and only if its offset is at least the window less the segment plus the pre-roll plus one |
| TdCaptureRuns.AdvanceKeepsInv | src/stream_web/td_capture.py:87-148 | one cycle from any carried state leaves pending positions congruent to where they were seen, deferred offsets not yet renderable, and nothing past its timeout |
| TdCaptureRuns.StateInvariant | src/stream_web/td_capture.py:108-148 | in every reachable state at most one thing is pending, only a chipset target holds a truncation, neither is older than its timeout, and nothing is pending once stopped |
| TdCaptureRuns.StatusTells | src/stream_web/td_capture.py:122-148 | in every run the status is "confirming" exactly while a truncation is held, "captured" exactly when something is rendered, and no news exactly when stopped, deferring or without a target |
| TdCaptureRuns.CaptureGeometry | src/stream_web/td_capture.py:261-273 | every rendered segment lies in the window at full length, with its packet start after the pre-roll, or less at the window's start |
| TdCaptureRuns.HitOrigin | src/stream_web/td_capture.py:108-118 | provenance over whole runs: each hit comes from an attempt of one earlier cycle, with no stop or change of target since; undecoded and not a truncation for a chipset, decoded with that id for a device, and not a phantom of a decoded packet |
| TdCaptureRuns.ProjectionHonest | src/stream_web/td_capture.py:157-163 | re-projecting a position gives its true offset or one outside the window if and only if the window moved at most the dead zone plus that offset |
| TdCaptureRuns.RetriedExactly | src/stream_web/td_capture.py:153-164 | in a paced cycle a deferred hit is retried if and only if it is still truly in the window and young enough, and then at its true offset; one that slid out is dropped, never re-projected |
| TdCaptureRuns.NoAliasingExactly | src/stream_web/td_capture.py:153-164 | along any chain of retries the position believed never moves back, and it is the one the hit was fixed at if and only if no window moved further than the dead zone plus the offset before |
| TdCaptureRuns.NoAliasing | src/stream_web/td_capture.py:153-164 | along any number of retries whose cycles keep the pace the true stream position of a hit never changes |
| TdCaptureRuns.ServedWhereFixed | src/stream_web/td_capture.py:126-144 | every capture is centred on the sample its hit was fixed at, however many cycles before, if and only if no window in between moved too far; at the pace, always |
| TdCaptureRuns.ServedOrKept | src/stream_web/td_capture.py:126-144 | one unhurried cycle serves a deferred hit or keeps it, nearer by the window's movement |
| TdCaptureRuns.DeferredServed | src/stream_web/td_capture.py:128-144 | a deferred hit is never lost and is captured within ceil((offset - R + 1) / dmin) cycles, at its true position |
| TdConfirmations.HeldOrigin | src/stream_web/td_capture.py:172-203 | a truncation awaiting confirmation was held in one earlier cycle, from an attempt of that cycle, and carried unchanged with no reset since |
| TdConfirmations.HeldExactly | src/stream_web/td_capture.py:175-203 | over any run it is believed where it was held if and only if no window since moved further than the dead zone plus its offset before, and never earlier than that |
| TdConfirmations.PromotedWhereHeld | src/stream_web/td_capture.py:186-198 | every promotion is for a failure within the matching tolerance of where it is rendered, and that is where the truncation was held if and only if no window in between moved too far |
| TdConfirmations.SteadyPromotion | src/stream_web/td_capture.py:175-198 | at a steady pace, faster than the dead zone or not, a truncation whose offset leaves enough modulo the step is promoted only where it was held |
| TdConfirmations.SteadyAliasNeeds | src/stream_web/td_capture.py:175-203 | in any run at a steady pace, promotion elsewhere needs an offset that leaves too little, a window past the position, and a timeout not reached in the last window that holds it |
| TdConfirmations.SteadyAliasExactly | src/stream_web/td_capture.py:175-203 | and for every offset, step and interval some run promotes a buffer away if and only if that holds |
| TdConfirmations.ConfirmationAliases | src/stream_web/config.py:153-164 | at the published decode interval and timeouts, for every offset less than 0.1 s past a whole number of intervals, a run in which a packet cut off there and not seen again is promoted by an unrelated failure a whole buffer away |
| ProcessorCycle.DecodeStartIsWindow | src/stream_web/processor.py:107 | the start index computed from the wrapped head is the true window start, reduced |
| ProcessorCycle.RenderedWhereFixed | src/stream_web/processor.py:300-317 | from the live ring to the plot: a segment whose cells were copied in time is one unbroken stretch of the stream, and the sample marked as its packet start is the very sample the hit was fixed at, however many cycles before, if and only if no window moved too far |
| IqRing.SharedRing.DrainDrops | src/stream_web/processor.py:99-105 | the draining loop takes every queued drop, in order, each with its true stream length, and leaves the queue empty |
| ProcessorCycle.DrainCycle | src/stream_web/processor.py:97-117 | one cycle, the writer thread going on between head and draining: the head is the one published at its beginning, positions are heads the writer published, the drops taken are those queued then and any queued since, the next ones in order, and the offsets are their mapping |
| ProcessorCycle.RunCycles | src/stream_web/processor.py:95-117 | over any number of cycles beside the writer thread, no drop is drained twice and every position is one the writer published |
| ProcessorCycle.DropReportedExactly | src/stream_web/processor.py:97-117 | over a run, a queued drop is reported at all if and only if the one cycle that drains it had read the head after the drop's first sample and its window holds that, parked position apart |
| ProcessorCycle.LateDropLost | src/stream_web/processor.py:97-117 | a drop queued between the reading of the head and the draining is reported by no window, although the next one holds it |
| ProcessorCycle.LateDropHappens | src/stream_web/processor.py:97-117 | that happens at every place of the stream, for every window shorter than the ring and every advance up to a whole window |
| DropAnnotation.NoteDrops | src/stream_web/processor.py:159-175 | the loop notes, in place, exactly the failed attempts with a drop inside, and touches nothing else |
| DropAnnotation.NoteDecided | src/stream_web/processor.py:159-175 | the note by its rule: a failed attempt with a drop between its start and its end, in whole samples towards zero, gets `sample_drop` behind its reason, or as its reason if that says nothing |
| DropAnnotation.NotedTruncation | src/stream_web/processor.py:171-174 | after it a failed attempt has a reason that waits for confirmation if and only if it had one and no drop lies inside |
| DropAnnotation.PromotableKept | src/stream_web/td_capture.py:172-203 | a held truncation is promoted if and only if it is unresolved and the first failure near it has a real reason or a drop inside |
| DropAnnotation.HeldExactlyUndropped | src/stream_web/td_capture.py:205-230 | a search finds the failure it would find without the notes, and holds it if and only if that is a truncation with no drop inside; otherwise it is captured in this very cycle, or kept pending if the window ends too early |
| DropAnnotation.DropSkipsConfirmation | src/stream_web/processor.py:159-175 | with nothing pending, a truncation found first always waits without the notes, and with them if and only if no drop lies inside |
| DropAnnotation.DeviceUnaffected | src/stream_web/td_capture.py:233-256 | a search for a device decides the same with and without the notes |
| DropAnnotation.NotedByDrop | src/stream_web/processor.py:107-175 | from queue to note: an attempt has a drop inside if and only if the first sample of one of the drops this cycle drained lies in its extent on the stream, parked position apart |
| LiveDedup.Deduplicator.Cycle | src/stream_web/processor.py:145-157 | one cycle's pruning and loop compute the sweep of the packets over the pruned map: the new map and the list emitted |
| LiveDedup.Deduplicator.Cycles | src/stream_web/processor.py:90-157 | cycle after cycle on the same map, everything handed on is what the run emits |
| LiveVerdicts.RunVerdicts | src/stream_web/processor.py:145-157 | whatever the decoder lists, a packet is emitted if and only if the last one emitted of its content is not within the tolerance of it, or has expired |
| LiveVerdicts.VerdictsDecide | src/stream_web/processor.py:145-157 | that leaves one list |
| LiveVerdicts.DroppedForEmitted | src/stream_web/processor.py:149-155 | so every packet listed is emitted, or begins within the tolerance of an earlier one of its content that was |
| LiveDedup.PruningIsInvisible | src/stream_web/processor.py:146-147 | with an expiry of at least window plus tolerance, dropping old entries never changes what a whole run emits |
| LiveDedup.VerdictRight | src/stream_web/processor.py:149-155 | a packet is dropped if and only if its transmission has been seen before |
| LiveDedup.TakeOnce | src/stream_web/processor.py:149-156 | taking one packet emits its transmission exactly if it is new, and remembers the latest of its key |
| LiveDedup.SweepOnce | src/stream_web/processor.py:148-157 | a cycle's packets in time order, from a map that is not ahead of the window, leave every transmission seen emitted exactly once |
| LiveDedup.LiveExactlyOnce | src/stream_web/processor.py:145-157 | over any run whose window advances by at least window less tolerance, the emitted transmissions are exactly those seen, each once |
| LiveDedup.SeenLive | src/stream_web/config.py:130-138 | when cycles are at most the window less the longest packet apart and the decoder lists every packet fully in its window, every transmission after the first window starts is seen |
| LiveDedup.EveryTransmissionOnce | src/stream_web/processor.py:145-157 | so every such transmission is emitted exactly once |
| LiveDedup.LiveOnceExactlyWhen | src/stream_web/processor.py:149-155 | with exact start estimates, every transmission seen is emitted exactly once if and only if no two of them share content within the tolerance |
| LiveDedup.SeparationExactly | src/stream_web/processor.py:149-155 | with starts estimated within an error, two transmissions of one content can be misreported if and only if they are less than the tolerance and twice the error apart |
| LiveDedup.TooFastRepeats | src/stream_web/processor.py:149-155 | the pace is needed, exactly: at every slower one two transmissions the tolerance apart are each reported twice |
| OfflineSweep.WindowOffsets | src/stream_web/analysis.py:20-29 | offsets start at 0, rise by the step (the last by at most that), and end with the recording, or are just 0 when it fits one window |
| OfflineSweep.ScheduleDetermined | src/stream_web/analysis.py:20-29 | those conditions leave one list of offsets |
| OfflineSweep.StepOverlaps | src/stream_web/analysis.py:24 | neighbouring windows overlap by the interval, or else move by one sample because the window is no longer than that |
| OfflineSweep.WindowIsStretch | src/stream_web/analysis.py:61-63 | what is decoded at an offset is that stretch of the recording, cut off only by its end |
| OfflineSweep.StretchInWindow | src/stream_web/analysis.py:20-29 | every stretch no longer than window less step lies wholly in one window |
| OfflineSweep.SeenPackets.IsDuplicate | src/stream_web/analysis.py:32-46 | true if and only if a kept record has the same content within the tolerance; the buckets go on holding exactly the kept records |
| OfflineSweep.AddWindow | src/stream_web/analysis.py:72-94 | one window's loop de-duplicates its sightings against all windows before |
| OfflineSweep.DecodePackets | src/stream_web/analysis.py:49-95 | the sweep, raising windows skipped, is the sorted de-duplication of all sightings over offsets that cover the recording; and for every recording whose stretches the decoder reads precisely, of packets apart and no longer than windows overlap, it returns each packet once, in time order |
| SweepVerdicts.SightingsInOrder | src/stream_web/analysis.py:61-79 | for any decoder, sighted are exactly the packets with a decoded attempt of their identifiers that has a start, in window order, at the offset plus the last such start |
| SweepVerdicts.KeptExactly | src/stream_web/analysis.py:32-46 | for any decoder, a sighting is kept if and only if it repeats none kept before it |
| SweepVerdicts.SortStable | src/stream_web/analysis.py:94-95 | the sort puts starts in order and leaves equal ones as they were |
| OfflineSweep.SortPermutes | src/stream_web/analysis.py:94-95 | sorting by start loses and invents nothing |
| OfflineSweep.DedupSound | src/stream_web/analysis.py:32-46 | for any decoder, nothing kept repeats another, and everything sighted is represented |
| OfflineSweep.PreciseSightings | src/stream_web/analysis.py:65-79 | joining packets to attempts by identifiers yields exactly the window's packets at their absolute starts |
| OfflineSweep.SweepReturnsCaught | src/stream_web/analysis.py:49-95 | with windows that fail, the result is precisely the packets lying fully in a window that was decoded, each once, in time order |
| OfflineSweep.OfflineExactlyOnce | src/stream_web/analysis.py:49-95 | with no failed window and packets no longer than the overlap, that is every packet of the recording, each once at its absolute start, in time order |
| OfflineSweep.OfflineOnceExactlyWhen | src/stream_web/analysis.py:32-46 | and it is every packet once if and only if no two share sequence number, tag and payload within the tolerance |
| OfflineSweep.DevicesMerged | src/stream_web/analysis.py:42-46 | of two devices' packets both are reported unless content agrees within the tolerance; then only the first |
| OfflineSweep.TwoDevicesSurveyed | src/stream_web/analysis.py:42-46 | a recording of two devices that meets every assumption of the sweep, on which both packets are returned if and only if contents differ or they are a tolerance apart |
| SharedIdentifiers.SharedSightings | src/stream_web/analysis.py:65-77 | a window sights each of its packets at the start of the latest that shares device and sequence number with it |
| SharedIdentifiers.SharedSweep | src/stream_web/analysis.py:49-95 | so, for any recording and shared identifiers or not, everything returned is such a sighting, every one of them is represented, and each is returned exactly once if and only if no two repeat each other |
| SharedIdentifiers.OneWindowExactlyWhen | src/stream_web/analysis.py:65-79 | of a recording of one window every packet is returned once at its own start if and only if none repeats another and none that share identifiers start apart |
| SharedIdentifiers.TwoShareIds | src/stream_web/analysis.py:65-79 | two packets of one window with the same identifiers are both placed at the second's start, and a packet sent twice is returned once, however far apart |
| SymbolEdges.CorrectSymbolEdges | src/stream_web/timing.py:21-87 | the loop computes the chain in which each symbol is corrected from the end of the one emitted before |
| EdgeRules.EdgesDecided | src/stream_web/timing.py:36-87 | those are the one list of edges that obeys the rules: each shown symbol's rise is the nearest, and of equally near the first, within the margin of the end before plus the gap; without one, within the margin of the nominal position; without one, right there; its fall likewise; both fitted to the segment |
| SymbolEdges.NearestRight | src/stream_web/timing.py:43-46 | the crossing found is a candidate and none is nearer |
| SymbolEdges.NearestFirst | src/stream_web/timing.py:43-46 | of crossings equally near it is the earliest |
| SymbolEdges.SearchLands | src/stream_web/timing.py:43-46 | a search lands inside its window, or on its target when that holds no crossing |
| SymbolEdges.RawStartDrift | src/stream_web/timing.py:59-73 | through all three search paths a start adds at most the search margin to the drift it inherits, and stays past the previous end |
| SymbolEdges.CorrectClose | src/stream_web/timing.py:59-85 | with both clamps: order, drift of both ends, and the duration of symbols not cut at the end |
| SymbolEdges.EmittedContiguous | src/stream_web/timing.py:50-57 | emitted symbols are a contiguous range of protocol symbols |
| SymbolEdges.EdgesRight | src/stream_web/timing.py:36-87 | for any crossings the j-th emitted start is within (j+1) search margins and j fall margins of nominal; 0 <= s < e <= n, each start at least min(previous end + 1, n - 1), durations within the fall margin |
| SymbolEdges.DriftAttained | src/stream_web/timing.py:36-87 | nothing less holds: with late crossings, the j-th start is off by exactly (j+1) search margins and j fall margins, for any number of symbols that fit |
| SymbolEdges.CleanRecovered | src/stream_web/timing.py:59-85 | on a clean signal every emitted edge is the true one, however far the symbols have drifted from the nominal grid |
| PacketEdges.EdgesOf | src/stream_web/analysis.py:85-91 | the edges of a packet of a recording are the tracker's on the stretch around it, moved back to positions of the recording |
| PacketEdges.EdgesOfDecided | src/stream_web/analysis.py:83-91 | they answer the rules on the stretch from a slot before the packet to a slot behind it, as far as the recording reaches, moved back by its start |
| PacketEdges.EdgesOfRight | src/stream_web/analysis.py:83-91 | a packet that lies in the recording gets one edge pair per symbol, inside the recording, the j-th start within (j+1) search margins and j fall margins of where the packet's start puts it |
| HopOverlay.WalkHops | src/stream_web/spectrogram.py:440-458 | the loop produces a tiling of 0..total_syms: in order, neighbours on different channels; every symbol on `sequence[(index + sym / per_hop) % length]`, base frequency off the first by the channel difference times the step; boundaries exactly where that channel changes |
| HopOverlay.TilingUnique | src/stream_web/spectrogram.py:440-458 | there is only one such tiling |
| HopOverlay.RegularHops | src/stream_web/spectrogram.py:447-458 | on a sequence without repeats every segment but the last is exactly one hop long, and where the last one starts |
| HopOverlay.RegularChannels | src/stream_web/spectrogram.py:440-458 | and the i-th segment is on the i-th channel after the packet's, round the sequence |
| HopOverlay.DecoderOverlay | src/stream_web/spectrogram.py:403-458 | an overlay is drawn if and only if the decode is complete, its sequence known (a negative index counting from the end) and its channel on it, starting at the first place of that channel; the one index range that makes the lookup raise is stated too |
| FccCompliance.MedianSplits | src/stream_web/spectrogram.py:170 | the noise floor is the median: in sorted order half of the bins lie at or below it and half at or above |
| FccCompliance.MedianIsMiddle | src/stream_web/spectrogram.py:170 | it is the middle level, or halfway between the middle two, in the one ascending order there is |
| FccCompliance.ArgMax | src/stream_web/spectrogram.py:171-172 | the first of the highest bins |
| FccCompliance.WalkOut | src/stream_web/spectrogram.py:176-183 | every bin strictly between the bounds is above the threshold, and each bound is an end of the trace or not above it |
| FccCompliance.ListSpurs | src/stream_web/spectrogram.py:202-222 | one entry for each candidate beyond the guard, in order; the number failing; the maximum in dBc, or none |
| FccCompliance.Evaluate | src/stream_web/spectrogram.py:149-241 | no report if and only if no bin stands far enough above the median; otherwise the report the rules ask for |
| FccCompliance.JudgedOnce | src/stream_web/spectrogram.py:149-241 | the rules determine the whole report: two that meet them are equal |
| FccCompliance.Verdict | src/stream_web/spectrogram.py:184-240 | overall pass if and only if two thirds of the 20 dB bandwidth is within the spacing and every candidate beyond the guard is at least the limit below the carrier |
| FccCompliance.VerdictInNumbers | src/stream_web/spectrogram.py:184-240 | the same in bins and hertz, without the guard: a candidate counts if and only if it is more than three bins further from the carrier than both edges and than half the spacing; the bandwidth, and the number failing |
| FccCompliance.SpursInOrder | src/stream_web/spectrogram.py:202-222 | the entries are those candidates, each once, in their order |
| FccCompliance.SpursOffSkirt | src/stream_web/spectrogram.py:199-207 | no listed spur lies in the carrier's 20 dB span |
| FccCompliance.RaisedMedian | src/stream_web/spectrogram.py:170 | raising every level raises the noise floor by as much |
| FccCompliance.GainInvariant | src/stream_web/spectrogram.py:149-241 | and then the powers reported rise with the floor, and nothing else changes, the verdict included |
| Watchdog.WorkerWatchdog.Attend | src/stream_web/app.py:986-1007 | judging on the pruned list is judging on the whole history, and what is recorded stays that history filtered at the last restart |
| Watchdog.WorkerWatchdog.Pass | src/stream_web/app.py:984-1007 | after any passes the watchdog has done what the ledger of all checks says |
| Watchdog.RestartKeepsBudget | src/stream_web/app.py:991-1002 | a restart allowed because fewer than the limit are recent keeps any limit + 1 restarts a whole window apart |
| Watchdog.BudgetHolds | src/stream_web/app.py:970-1008 | over any run on a monotone clock, any half-open window holds at most the limit of restarts of one worker |
| Watchdog.GivenUpForGood | src/stream_web/app.py:986-998 | a worker given up on is never restarted again |
| Watchdog.GivenUpExactly | src/stream_web/app.py:990-998 | a worker is given up on if and only if one of its deaths finds the budget of its whole history spent |
| WatchdogRules.LedgerFollows | src/stream_web/app.py:984-1007 | check by check: a worker found dead while the program runs and not given up on is restarted if and only if fewer than the limit of its restarts are less than a window old, and given up on otherwise |
| WatchdogRules.FollowsOnce | src/stream_web/app.py:984-1007 | the checks leave no choice |
| PacketFeed.TruncateOnTheWay | src/stream_web/app.py:499-500 | truncating on the way changes nothing in what one final truncation keeps |
| PacketFeed.NewestIsEnd | src/stream_web/app.py:499-500 | what is kept is the end of the list, all of it or as much as the limit |
| PacketFeed.Feed.Deliver | src/stream_web/app.py:498-500 | the list is always the newest entries of all delivered since the last poll |
| PacketFeed.Feed.Poll | src/stream_web/app.py:949-953 | a poll returns the newest entries since the last one and starts afresh |

## Left out

- IqRing.SharedRing.Work: does not model the value of the peak meter, only that it fails on an empty block, and the drop queue never refuses an entry; samples are given, so the float type of the buffer does not matter.
- IqRing.MapDropExact: says nothing of a queued drop more than one lap old, whose position the processor cannot tell from a recent one.
- ForwardCapture.Await: takes the readings of the clock as given; that sleeping between polls takes time is not modelled.
- ForwardCapture.CaptureExact: takes memory as sequentially consistent and every cell access as atomic, which the interpreter's and the processor's memory model decide, as do IqRing.SharedRing.ExtractLast and the rest; the capture lock is not modelled.
- ForwardCapture.CaptureIq: requires a buffer of at least two cells, because with one the half-buffer chunk is empty and the loop cannot advance.
- TdCapture.TdCaptureState.SelectTdCapture: a key that is absent and one that holds None are one case; the status is a value instead of formatted text, and the extra fields an attempt carries to the renderer are not modelled.
- TdCaptureRuns.DeferredServed: assumes, as the others over runs do, that the decoder places every attempt inside its window; the decoder itself is not part of this model.
- LiveDedup.LiveExactlyOnce: takes the decoder's accuracy, the order of its packets and their separation as assumptions; times are real numbers, so float rounding is not modelled.
- OfflineSweep.DecodePackets: leaves out the `edges` field, which depends on the record alone and is modelled by PacketEdges.EdgesOf, and the fields merely copied; times are samples instead of seconds, and the sort is a stable insertion.
- CaptureHazards.StaleWaitExactly: is stated for an even buffer, as the published one is, and for a block in flight at the start shorter than the buffer.
- CaptureHazards.TearBounded: takes it as given that the writer is less than a lap and a chunk ahead when the guard accepts; later than that the guard cannot tell.
- IqRing.SharedRing.DrainDrops: is one step as far as the writer is concerned; a drop queued while it goes on counts as queued just before.
- PacketEdges.EdgesOf: takes the packet's symbol count and slot, and a start inside the recording, from the decoder.
- SymbolEdges.CorrectSymbolEdges: takes the crossings as given; how they are found in the signal (`timing.py:7-18`) is left out.
- HopOverlay.DecoderOverlay: takes the quantised channel step and the sequences as given; the drawing is left out.
- FccCompliance.Evaluate: takes the candidate peaks as given, with levels as reals; the signal processing behind them is left out.
- Watchdog.WorkerWatchdog.Pass: liveness and the clock are given per check; reaping and spawning the process and the sleep between passes are left out.
- CaptureHazards.TornBeyondExactly: is stated for blocks shorter than a chunk; for longer ones CaptureHazards.TearBounded bounds nothing.
- DropAnnotation.NoteDrops: keeps attempts as values in an array, so one attempt listed twice is two; the `sample_drop` flag for the display is left out.
- SharedIdentifiers.SharedSweep: takes the decoder's attempts as listed in the order of their starts, as do the others of that module.
- The detection history and the renderers' queues of the processor loop: they would only add easy members.
- The radio, the transmit side, process start and exit, the web server, file handling and report text: foreign calls with little logic of their own.
