# The receive and measurement engine, verified

This project models the C++ core of a voice-over-UDP radio in Dafny and proves what the core keeps on every
run. The core is a set of small, allocation-free state machines whose only inputs are packets and
timestamps, so its properties can be stated over all of their runs.

Each component appears twice. A *specification* says what the component does as functions on values
(`QueueSpec`, `PlayoutSpec`, `ProbeSpec`, `ImpairmentSpec`, `WavSpec`, `SessionSpec`, and the value types beside
the smaller classes). A *class*, or a method with loops, does it the way the source does, in place, over
arrays and fields, and is proved equal to the specification. Laws over whole runs are then lemmas about the
specification.

* **Playout.** `ReorderQueue` is a 64-slot circular store that refines a finite map; `JitterBuffer` puts the
  policy on top. `QueueRuns`, `QueueAccounts`, `PlayoutRuns`, `PlayoutTimeline`, `PlayoutDeadlines`,
  `PlayoutAccounting`, `PlayoutCounters`, `PlayoutStreams` and `PlayoutReplays` hold the laws; `PlayoutOracle` says which
  frame every pull plays, for any loss, reordering and duplication, `PlayoutHoles` what it plays instead of a missing
  one, and `PlayoutTakeover` that all of this holds afresh of every stream that takes over. The decoder is an oracle:
  each pull is given the answers it would get.
* **The ring.** `RingProtocol` is the two-thread protocol as atomic steps: load the other index, copy slots,
  publish one's own. A load may return any value between the last one that thread saw and the current one.
  `RingAccounts` adds the pushes and pops up. `SpscRing` is the array code, and its bulk copies are tied to the
  protocol's steps.
* **Measurement.** `SeqTracker` with `SeqRuns`, `Histogram` with `Buckets`, `ClockSync` with `ClockRuns` (the exchange of
  section 8 of RFC 5905), `Pacer`, `Prober` with `ProbeRuns` and `ProbeSettlement`. Serial comparison (`Serial`) follows
  section 3.2 of RFC 1982.
* **The link model.** `Impairment` with `TokenBucket`, `BurstChain`, `ImpairmentDraws` and `ImpairmentRuns`. The generator is
  modelled bit for bit; the sine, cosine, logarithm and power are function parameters.
* **Formats and the session.** `Proto`, `ByteOrder` and `WireLayout`, `Wav` with `WavChunks` and `WavLayout`, and
  `Session` with `SessionRuns`, which joins capture, the wire and the peer's playout.

Machine words are bounded integers with every wrap written out (`Words`). Positions in a run are unbounded; where a
32-bit image stands for one, the horizon is a hypothesis. Bit masks over powers of two are written as remainders
and quotients, except in the tracker's bitmap and the generator, which use bit-vectors.

## Where the code and its comments disagree

The model follows the code. In each case the table below names a lemma with an exact condition, a
counterexample, or both.

* A START flag on a packet that is already behind the cursor rewinds it, so a duplicate of the first packet of a
  talkspurt replays the timeline (jitter_buffer.cpp:190-208; `PushMovesCursor`, `DuplicateStartReplays`).
* `reset_stream` zeroes the queue's counters, although the header says counters survive
  (jitter_buffer.cpp:116, jitter_buffer.hpp:182-184; `ResetStreamDropsQueueCounters`, `TakeoverCountsAfresh`).
* After a catch-up the deadline is not looked at again once the position has been drawn onto the new frame, so
  that frame can play early (jitter_buffer.cpp:322-334): exactly when it is not due yet where the jump lands
  (`EarlyPlayExactly`), as in one run of four calls (`CatchUpCanPlayEarly`); never without a catch-up
  (`NeverEarlyWithoutCatchUp`) nor on a stream that keeps its timestamps in step (`NeverEarlyOnLine`).
* An anchor more than 2^31 samples (12.4 hours) old puts new frames before it (`DueOnLine`).
* The second insert after a resync is not quite certain: it fails exactly when arrival plus target delay wraps
  (jitter_buffer.cpp:227-240; `ResyncRetry`).
* `depth()` overshoots after `drop_expired` exactly when the furthest frame expires and a nearer one does not
  (`DropExpiredKeepsHighest`, `DepthIsSpan`, `DepthOvershootsAfterDropExpired`).
* `size()` seen by a thread that owns neither end can be any word at all; it is within the
  capacity exactly when the end read second moved no further in between than the ring held, or had room for
  (`ThirdPartySize`, `ThirdPartySeesNonsense`).
* The clock offset can be off by one microsecond more than the stated uncertainty, because both halvings
  truncate (clock_sync.cpp:38 and 74; `UncertaintyExact`).
* A negative total delay is said to clamp to zero; the code returns zero *jitter*, so the whole base delay stands
  (impairment.cpp:180-185; `DelayIsClampedTotal`).
* A mean burst length of one is said to be equivalent to independent loss (impairment.hpp:56-61); the chain then
  never loses two packets in a row and never more than half, so a loss above 50 percent is not reached
  (`UnitBurstsNeverRepeat`). For any mean length B the loss settles at the one asked for exactly when that is at most
  B / (B + 1) (`ShareSettles`, `ChainMeetsItsSetting`).
* A clock that steps back refills the token bucket for the same time twice (impairment.cpp:204-206), by however
  little it steps back (`GainIsElapsedIff`, `BackwardClockEarnsTwice`).
* TALKSPURT_START is promised on the first packet of a talkspurt (session.hpp:179-181); when the opening frame fails to
  encode, no packet of that talkspurt carries it (`StartIsLostWithItsFrame`).
* A WAV file of 2^31 samples or more is written with a wrapped size and no error, and does not read back; between
  that and 36 bytes less only the outer size field wraps, which the reader ignores (wav.cpp:257-267; `RoundTrip`).

## Model

| member | source | states |
|---|---|---|
| `Serial.DistanceIsTrueDistance` | core/include/radio/serial.hpp:35-38 | the signed 32-bit difference of two sequence images is the difference of their true positions, exactly when those are within 2^31 |
| `Serial.TrichotomyUnlessAntipodal` | core/include/radio/serial.hpp:41-50 | exactly one of before, equal, after holds, if and only if the two numbers are not 2^31 apart |
| `Serial.TransitiveWithinHorizon` | core/include/radio/serial.hpp:41-50 | precedence is transitive as long as the whole span stays under 2^31 |
| `Serial.PrecedenceCycle` | core/include/radio/serial.hpp:41-44 | without that horizon three numbers can precede each other in a ring |
| `Clock.RoundTrip` | core/include/radio/clock.hpp:24-30 | microseconds to samples and back never gains time and loses at most 21 us; whole 125 us steps survive exactly |
| `ReorderQueues.ReorderQueue.constructor` | core/src/audio/reorder_queue.cpp:68-86 | a new queue is the empty finite map with zero counters |
| `ReorderQueues.ReorderQueue.Start` | core/src/audio/reorder_queue.cpp:49-57 | a start is a no-op once running; otherwise it puts the cursor on the first sequence |
| `ReorderQueues.ReorderQueue.Resync` | core/src/audio/reorder_queue.cpp:59-66 | the 64-slot clear is the map emptied, the cursor moved and one resync counted |
| `ReorderQueues.ReorderQueue.Reset` | core/src/audio/reorder_queue.cpp:68-86 | everything, counters included, goes back to the empty queue |
| `ReorderQueues.ReorderQueue.Insert` | core/src/audio/reorder_queue.cpp:88-148 | the slot store refines insertion into a finite map from sequence to frame, with all six verdicts in the code's order and the counter each one bumps |
| `ReorderQueues.ReorderQueue.Peek` | core/src/audio/reorder_queue.cpp:150-165 | looking at a slot is looking up the map, for every sequence, started or not |
| `ReorderQueues.ReorderQueue.StepOnce` | core/src/audio/reorder_queue.cpp:177-187 | one cursor step removes exactly the frame at the cursor and reports whether there was one |
| `ReorderQueues.ReorderQueue.Advance` | core/src/audio/reorder_queue.cpp:189-205 | an advance delivers or counts a gap, and only counts before the first arrival |
| `ReorderQueues.ReorderQueue.DiscardRun` | core/src/audio/reorder_queue.cpp:220-229 | the clearing loop removes exactly the frames it walks over, and counts each |
| `ReorderQueues.ReorderQueue.SkipTo` | core/src/audio/reorder_queue.cpp:207-236 | a forward jump of any length, past 64 included, keeps exactly the frames beyond it; a backward one does nothing |
| `ReorderQueues.ReorderQueue.DropExpired` | core/src/audio/reorder_queue.cpp:238-249 | the sweep removes exactly the frames whose deadline has passed |
| `ReorderQueues.ReorderQueue.Depth` | core/src/audio/reorder_queue.cpp:251-256 | zero when nothing is held, else one more than the distance to the highest |
| `ReorderQueues.OneSequencePerSlot` | core/src/audio/reorder_queue.cpp:130-137 | no two sequences of one 64-wide window share a slot |
| `ReorderQueues.OccupiedMeansSameSequence` | core/src/audio/reorder_queue.cpp:156-160 | an occupied slot in the window holds the very sequence asked for: the sequence check in peek is redundant |
| `ReorderQueues.StoreAddsOne` | core/src/audio/reorder_queue.cpp:139-146 | filling a vacant slot adds one frame to the map and one to the count |
| `ReorderQueues.ClearRemovesOne` | core/src/audio/reorder_queue.cpp:180-183 | vacating an occupied slot removes one frame from the map and one from the count |
| `ReorderQueues.JumpKeepsPlaced` | core/src/audio/reorder_queue.cpp:215-235 | after a jump longer than the window nothing stale is left in any slot |
| `QueueRuns.WindowOverRuns` | core/src/audio/reorder_queue.cpp:88-249 | on every run each held frame lies in the 64-wide window under its own sequence, and without drop_expired the highest one recorded is held |
| `QueueRuns.DepthIsSpan` | core/src/audio/reorder_queue.cpp:251-256 | held <= depth <= 64, and depth is the span to the furthest held frame if and only if a frame sits at cursor + depth - 1 |
| `QueueRuns.DropExpiredKeepsHighest` | core/src/audio/reorder_queue.cpp:238-256 | an expiry sweep leaves the depth exact if and only if it empties the queue or the highest frame's own deadline has not passed |
| `QueueRuns.DepthOvershootsAfterDropExpired` | core/src/audio/reorder_queue.cpp:238-256 | after drop_expired depth can be two with one frame held |
| `QueueRuns.Conservation` | core/src/audio/reorder_queue.cpp:59-249 | on every run accepted = delivered + discarded + expired + held + flushed by resyncs, and every insert bumps exactly one verdict counter |
| `QueueAccounts.PositionsAreCounted` | core/src/audio/reorder_queue.cpp:59-236 | on every run every position passed is counted once, delivered if a frame was held there and a gap otherwise, jumps included; and every resync once |
| `QueueAccounts.ReportsAreCounts` | core/src/audio/reorder_queue.cpp:207-256 | a sweep and a jump report what they count; only an empty queue has no depth |
| `QueueRuns.DeliveryOrder` | core/src/audio/reorder_queue.cpp:177-236 | between resyncs the delivered true positions strictly increase, through sequence wrap |
| `QueueRuns.HeldWereAccepted` | core/src/audio/reorder_queue.cpp:88-148 | whatever is held was accepted |
| `QueueRuns.DeliveredWereAccepted` | core/src/audio/reorder_queue.cpp:88-205 | each frame delivered is one that was accepted, unchanged, and carries the sequence of the position it came out at |
| `JitterBuffers.JitterBuffer.constructor` | core/src/audio/jitter_buffer.cpp:84-113 | a new buffer is closed, with zero counters |
| `JitterBuffers.JitterBuffer.Close` | core/src/audio/jitter_buffer.cpp:84-113 | closing forgets the configuration, the timeline, the queue and every counter |
| `JitterBuffers.JitterBuffer.Open` | core/src/audio/jitter_buffer.cpp:55-82 | opening fails exactly when the decoder does or a frame has no length, and derives the frame length in both units |
| `JitterBuffers.JitterBuffer.ResetStream` | core/src/audio/jitter_buffer.cpp:115-125 | drops the timeline, the held frames and the queue counters; keeps the buffer's own |
| `JitterBuffers.JitterBuffer.Anchor` | core/src/audio/jitter_buffer.cpp:146-154 | pins a sender timestamp to arrival plus target delay |
| `JitterBuffers.JitterBuffer.Restart` | core/src/audio/jitter_buffer.cpp:200-208 | the timeline restarts on one packet: resync, anchor, position, conceal run |
| `JitterBuffers.JitterBuffer.Place` | core/src/audio/jitter_buffer.cpp:186-218 | what a packet may do to the anchor and to the end mark |
| `JitterBuffers.JitterBuffer.Adopt` | core/src/audio/jitter_buffer.cpp:162-184 | a foreign stream takes over if and only if it announces itself or the live one has gone idle |
| `JitterBuffers.JitterBuffer.Push` | core/src/audio/jitter_buffer.cpp:156-258 | the whole of push: eight outcomes, the insert retried once after a resync |
| `JitterBuffers.JitterBuffer.PeekAndAlign` | core/src/audio/jitter_buffer.cpp:264-275 | the playout position is only ever drawn forward onto the frame at the cursor |
| `JitterBuffers.JitterBuffer.NextFrame` | core/src/audio/jitter_buffer.cpp:423-424 | queue cursor and playout timestamp move on together |
| `JitterBuffers.JitterBuffer.FillHole` | core/src/audio/jitter_buffer.cpp:359-421 | end of speech, forward correction, concealment or mute, in that order, with the counter of each |
| `JitterBuffers.JitterBuffer.CatchUp` | core/src/audio/jitter_buffer.cpp:321-330 | a capped jump of cursor and position, counted |
| `JitterBuffers.JitterBuffer.PlayOrFill` | core/src/audio/jitter_buffer.cpp:336-426 | a held frame is decoded or replaced by silence; a hole is filled; either way one step on |
| `JitterBuffers.JitterBuffer.Pull` | core/src/audio/jitter_buffer.cpp:277-426 | the whole of pull: refused, idle, pre-roll, catch-up, packet or filler |
| `PlayoutRuns.CoherentOverRuns` | core/src/audio/jitter_buffer.cpp:156-426 | on every run the buffer is anchored if and only if the queue is started, and every held frame belongs to the live stream and sits in the window |
| `PlayoutTimeline.LineShift` | core/src/audio/jitter_buffer.cpp:325-325 | moving along a timestamp line and moving in its 32-bit image agree through both wraps |
| `PlayoutTimeline.AlignIsIdentity` | core/src/audio/jitter_buffer.cpp:264-275 | on an affine stream aligning to the frame at the cursor moves nothing |
| `PlayoutTimeline.PullKeepsLockstep` | core/src/audio/jitter_buffer.cpp:277-426 | a pull keeps the playout timestamp the affine image of the cursor, catch-up included, and reports a timestamp on the line |
| `PlayoutTimeline.LockstepOverRuns` | core/src/audio/jitter_buffer.cpp:115-426 | over every interleaving of pushes, pulls, stalls, catch-ups, resyncs, re-anchors and stream changes the playout timestamp stays the affine image of the queue cursor |
| `PlayoutTimeline.ResyncRetry` | core/src/audio/jitter_buffer.cpp:227-240 | the insert retried after a resync is accepted if and only if arrival plus target delay does not wrap 64 bits |
| `PlayoutDeadlines.SupportedIsExact` | core/src/audio/jitter_buffer.cpp:69-80 | for every frame length and rate the codec takes, opening succeeds and microseconds and wire units agree exactly: the zero check never fires |
| `PlayoutDeadlines.OpensIff` | core/src/audio/jitter_buffer.cpp:55-82 | opening succeeds if and only if the decoder does and a frame has a length in microseconds and in wire units |
| `PlayoutDeadlines.DeadlineMonotone` | core/src/audio/jitter_buffer.cpp:127-140 | deadlines are monotone in serial order on both sides of the anchor |
| `PlayoutDeadlines.DeadlineSaturates` | core/src/audio/jitter_buffer.cpp:132-139 | before the anchor a deadline stops at zero and never wraps |
| `PlayoutDeadlines.DueOnLine` | core/src/audio/jitter_buffer.cpp:127-131 | n frames after the anchor the deadline is n frame times later, if and only if the span is under 2^31 samples |
| `PlayoutDeadlines.CatchUpMovesDeadline` | core/src/audio/jitter_buffer.cpp:321-328 | a catch-up moves the deadline on by exactly the time it jumps |
| `PlayoutDeadlines.CatchUpLands` | core/src/audio/jitter_buffer.cpp:321-328 | a catch-up below the cap lands less than one frame behind the clock and never ahead of it; the cap leaves the rest |
| `PlayoutDeadlines.NeverEarlyWithoutCatchUp` | core/src/audio/jitter_buffer.cpp:301-357 | for any stream, a pull that does not catch up never plays a packet before its deadline |
| `PlayoutDeadlines.NeverEarlyOnLine` | core/src/audio/jitter_buffer.cpp:301-357 | on an affine stream no pull plays early, catch-up or not |
| `PlayoutDeadlines.PlaysChosen` | core/src/audio/jitter_buffer.cpp:301-357 | a pull plays a packet if and only if it is due, the decoder takes it, and a frame stands where the catch-up lands; and it is that frame |
| `PlayoutDeadlines.EarlyPlayExactly` | core/src/audio/jitter_buffer.cpp:301-357 | for any stream, its timestamps within reach of the anchor, a pull plays a packet before its deadline if and only if it is due, is more than max_catchup_frames behind, and the frame standing at the cursor plus the jump is not due yet: all of it known before the call |
| `PlayoutDeadlines.CatchUpCanPlayEarly` | core/src/audio/jitter_buffer.cpp:322-344 | a run of four calls on a default buffer: the sender skips its timestamps two seconds on but not its sequence numbers, and a pull six frames late plays the frame after the skip 1.86 seconds before its deadline |
| `PlayoutAccounting.CountersAreSources` | core/src/audio/jitter_buffer.cpp:277-426 | over every run the four source counters are exactly the multiset of sources reported |
| `PlayoutAccounting.RefusedPull` | core/src/audio/jitter_buffer.cpp:277-300 | a pull of a closed buffer or into too little room changes nothing and says so |
| `PlayoutCounters.CountersAreEvents` | core/src/audio/jitter_buffer.cpp:156-426 | on every run the refused arrivals, the frames reported with an error, the catch-ups and the frames jumped are counted exactly |
| `PlayoutCounters.AnchorsAreCounted` | core/src/audio/jitter_buffer.cpp:146-241 | an arrival pins the timeline once if it takes over or is flagged START, and once more if it lies 64 or more ahead |
| `PlayoutCounters.ReportsWhereItStands` | core/src/audio/jitter_buffer.cpp:301-426 | a pull reports the position it waits at, and the frame it plays or fills just before where it leaves off |
| `PlayoutAccounting.GapsAreHolesAndJumps` | core/src/audio/jitter_buffer.cpp:322-327 | since the queue was last reset its gaps are the frames caught up over plus the holes filled |
| `PlayoutAccounting.ConcealmentIsBounded` | core/src/audio/jitter_buffer.cpp:393-421 | between two zeroings of the conceal run at most max_conceal_run frames are invented, and the mute is entered exactly once, when the run passes it |
| `PlayoutCounters.RunIsSinceLast` | core/src/audio/jitter_buffer.cpp:156-426 | on every run the run of missing frames is the number done without since the last frame played or rebuilt, the last catch-up, restart or takeover |
| `PlayoutAccounting.PushMovesCursor` | core/src/audio/jitter_buffer.cpp:186-241 | an arrival, too large to store or not, moves the cursor back if and only if it is flagged START and already behind, forward if and only if it fits and is 64 or more ahead; and exactly when the anchor moves |
| `PlayoutAccounting.ResetStreamDropsQueueCounters` | core/src/audio/jitter_buffer.cpp:115-125 | the queue's counters survive a stream reset if and only if they were all zero |
| `PlayoutAccounting.TakeoverCountsAfresh` | core/src/audio/jitter_buffer.cpp:115-241 | after a takeover the queue's counters hold the verdict on the new stream's first packet and nothing else; the buffer's own count one more anchor |
| `PlayoutReplays.DuplicateStartReplays` | core/src/audio/jitter_buffer.cpp:190-208 | a first packet flagged START, received again after it was played, at any time, is played a second time |
| `PlayoutOracle.LaterArrival` | core/src/audio/jitter_buffer.cpp:156-258 | the verdict of every arrival after the first, from its position, its time and whether a copy is held |
| `PlayoutOracle.ScriptIsTracked` | core/src/audio/jitter_buffer.cpp:156-426 | after any script of arrivals and regular pulls the window holds exactly the frames with a copy in time, at the cursor the pull count gives |
| `PlayoutOracle.PlaysWhatArrivedInTime` | core/src/audio/jitter_buffer.cpp:277-426 | after the pre-roll pull k stands at frame k - K0 and plays the packet if and only if some copy arrived by its deadline and decodes, silence with the decoder's error if it does not; before it every pull is silence |
| `PlayoutOracle.DrainedPlayout` | core/src/audio/jitter_buffer.cpp:277-426 | when arrivals are handed over before the next pull, that depends on arrival times alone, not on call order |
| `PlayoutOracle.PrerollIsTargetDelay` | core/src/audio/jitter_buffer.cpp:146-154 | K0 is what is left of the target delay at the first pull, in frames, rounded up |
| `PlayoutOracle.PerfectNetwork` | core/src/audio/jitter_buffer.cpp:156-426 | on a perfect network, with any constant time between arrival and pull and any payloads: every frame is accepted, K0 pulls are silence and the rest packets; late, gaps, concealed and recovered stay zero |
| `PlayoutOracle.OpenedIsWaiting` | core/src/audio/jitter_buffer.cpp:55-82 | the hypotheses of the oracle hold of every buffer opened on a supported configuration |
| `PlayoutHoles.EndIsFurthest` | core/src/audio/jitter_buffer.cpp:211-218 | after any script the end mark is the furthest end any copy flagged, late, duplicate and refused copies included |
| `PlayoutHoles.MissedAreCounted` | core/src/audio/jitter_buffer.cpp:336-421 | after any script the run of missing frames the buffer keeps is the number really done without since the last one played or rebuilt |
| `PlayoutHoles.HolesAreFilledBest` | core/src/audio/jitter_buffer.cpp:359-421 | at a frame that never came in time: silence if the sender had stopped before it; rebuilt if and only if correction is on and a copy of the next frame came in time with usable redundancy; concealed if and only if neither, fewer than max_conceal_run in a row were missed before it and the codec obliges |
| `PlayoutHoles.EveryPullIsOwed` | core/src/audio/jitter_buffer.cpp:277-426 | on every script every pull reports the source, position, samples and error that the ticks before it call for |
| `PlayoutTakeover.ResetIsForgotten` | core/src/audio/jitter_buffer.cpp:115-125 | after a stream reset the next packet leaves what it leaves in a newly opened buffer, counters aside |
| `PlayoutTakeover.TakeoverIsFreshStart` | core/src/audio/jitter_buffer.cpp:115-258 | from a takeover on, every arrival and every pull is answered as by a buffer newly opened for that packet, whatever came before |
| `PlayoutTakeover.RunsAreSetUp` | core/src/audio/jitter_buffer.cpp:55-82 | the hypotheses of that hold on every run of an opened buffer |
| `PlayoutTakeover.NewStreamIsOwed` | core/src/audio/jitter_buffer.cpp:115-426 | so the whole oracle holds of every stream that takes over |
| `PlayoutStreams.PushClaims` | core/src/audio/jitter_buffer.cpp:162-184 | one arrival is foreign if and only if it is of another stream, unannounced, and the live one was heard too recently |
| `PlayoutStreams.LiveStreamIsProtected` | core/src/audio/jitter_buffer.cpp:156-426 | over every run the live stream and when it was last heard depend on ids, start flags and arrival times alone |
| `RingProtocol.SafeOverRuns` | core/include/radio/spsc_ring.hpp:94-199 | over every interleaving of the two threads' loads, slot copies and index stores, with loads as stale as memory order allows: what was consumed is a prefix of what was accepted, and occupancy stays within the capacity through index wrap |
| `RingProtocol.SafeFromEmpty` | core/include/radio/spsc_ring.hpp:73-199 | so on every run from an empty ring what came out is a prefix of what went in, and what is in use fits |
| `RingProtocol.StoreKeepsUnread` | core/include/radio/spsc_ring.hpp:109-115 | no slot copy overwrites an item the consumer has not yet retired |
| `RingProtocol.SizeGuaranteesPop` | android/app/src/main/cpp/session.cpp:207-209 | a consumer that has seen size() >= n gets n from its next bulk pop, whatever the producer does meanwhile: the short-pop branch is dead |
| `RingProtocol.OwnersSeeBoundedSize` | core/include/radio/spsc_ring.hpp:206-210 | either owning thread sees a size between zero and the capacity |
| `RingProtocol.ThirdPartySize` | core/include/radio/spsc_ring.hpp:206-210 | any other thread, reading the indices at two moments of a run from an empty ring: write index first, it sees a size within the capacity if and only if the consumer retired no more in between than the ring held; read index first or stale, if and only if the producer published no more than there was room for (fewer than 2^62 items moving in between) |
| `RingProtocol.ThirdPartySeesNonsense` | core/include/radio/spsc_ring.hpp:206-210 | a third thread can be told 2^64 - 1 |
| `RingAccounts.PushesAndPopsAddUp` | core/include/radio/spsc_ring.hpp:94-199 | over every interleaving what is published or in hand is exactly what the pushes had room for, the overflow count is the number of pushes that fell short, and what is retired or in hand is what the pops asked for and could know of |
| `SpscRings.SpscRing.constructor` | core/include/radio/spsc_ring.hpp:73-80 | a new ring is empty |
| `SpscRings.SpscRing.Push` | core/include/radio/spsc_ring.hpp:94-117 | appends one item or refuses and counts, exactly when full |
| `SpscRings.SpscRing.PushBulk` | core/include/radio/spsc_ring.hpp:125-151 | appends the longest prefix that fits and counts a partial push |
| `SpscRings.SpscRing.Store` | core/include/radio/spsc_ring.hpp:138-146 | two straight copies are one copy going round |
| `SpscRings.SpscRing.Pop` | core/include/radio/spsc_ring.hpp:155-164 | takes the oldest item, if any |
| `SpscRings.SpscRing.PopBulk` | core/include/radio/spsc_ring.hpp:166-187 | takes the oldest items, in order, as many as asked for and there |
| `SpscRings.SpscRing.Load` | core/include/radio/spsc_ring.hpp:176-183 | two straight copies out are the window from the read index, going round |
| `SpscRings.SpscRing.Discard` | core/include/radio/spsc_ring.hpp:191-199 | drops the oldest items without copying |
| `SpscRings.SpscRing.Reset` | core/include/radio/spsc_ring.hpp:220-224 | empties the ring |
| `SpscRings.WindowAppend` | core/include/radio/spsc_ring.hpp:138-149 | items laid down from the write index are appended to what the read index sees, through array and index wrap |
| `SpscRings.WindowTail` | core/include/radio/spsc_ring.hpp:189-199 | moving the read index drops exactly the oldest items |
| `SpscRings.StepsLayDown` | core/include/radio/spsc_ring.hpp:141-146 | the bulk copy is the protocol's slot-by-slot copy |
| `SpscRings.StepsTakeUp` | core/include/radio/spsc_ring.hpp:176-183 | the bulk copy out is the protocol's slot-by-slot copy: it takes the window from the read index |
| `SeqTrackers.SeqTracker.constructor` | core/src/metrics/seq_tracker.cpp:98-98 | a new tracker has seen nothing |
| `SeqTrackers.SeqTracker.Set` | core/src/metrics/seq_tracker.cpp:15-18 | the shift and mask set exactly one bit of the 1024-bit window |
| `SeqTrackers.SeqTracker.Clear` | core/src/metrics/seq_tracker.cpp:20-23 | the shift and mask clear exactly one bit |
| `SeqTrackers.SeqTracker.ClearRangeExclusive` | core/src/metrics/seq_tracker.cpp:25-44 | clears exactly the slots strictly between, or all of them once the jump is a window |
| `SeqTrackers.SeqTracker.Observe` | core/src/metrics/seq_tracker.cpp:46-96 | the word array refines the window of bits, with all five verdicts |
| `SeqTrackers.SeqTracker.Reset` | core/src/metrics/seq_tracker.cpp:98-98 | forgets everything |
| `BitWords.AmountInjective` | core/src/metrics/seq_tracker.cpp:10-18 | distinct slots have distinct bits |
| `SeqRuns.TrackerIsExact` | core/src/metrics/seq_tracker.cpp:46-96 | over every run with true span under 2^31: a window bit is set if and only if that sequence was accepted, the verdict is the one the history demands, and received is the number of distinct sequences accepted |
| `SeqRuns.AheadIsExact` | core/src/metrics/seq_tracker.cpp:57-65 | moving the high-water mark leaves no bit from a lap ago |
| `SeqRuns.BehindIsExact` | core/src/metrics/seq_tracker.cpp:72-95 | a reordered arrival is Duplicate if and only if it was accepted before, TooOld if and only if it is a window behind |
| `SeqRuns.LostIsExact` | core/src/metrics/seq_tracker.cpp:100-113 | lost() counts exactly the sequences in [base, highest] never accepted: its clamp never fires |
| `SeqRuns.NothingExpected` | core/src/metrics/seq_tracker.cpp:100-113 | nothing is expected or lost before the first arrival |
| `SeqRuns.CountersAreAnswers` | core/src/metrics/seq_tracker.cpp:46-96 | each counter is the number of arrivals that truly were what it names, and every arrival is received, a duplicate or too old |
| `Buckets.ValueInItsBucket` | core/src/metrics/histogram.cpp:7-27 | every 64-bit value lies between the bounds of its own bucket |
| `Buckets.UpperBoundIsExact` | core/src/metrics/histogram.cpp:29-37 | the shift arithmetic gives the last value of the bucket, with no 64-bit overflow |
| `Buckets.BucketsPartition` | core/src/metrics/histogram.cpp:7-37 | the buckets partition 0..2^64-1: a value is in a bucket if and only if that is its index |
| `Buckets.IndexMonotone` | core/src/metrics/histogram.cpp:7-27 | a larger value never has a smaller index |
| `Buckets.LastBucket` | core/src/metrics/histogram.cpp:29-37 | the last bucket ends exactly at the largest 64-bit value |
| `Buckets.IndexNeedsNoClamp` | core/src/metrics/histogram.cpp:7-27 | for every 64-bit value the index before the clamp is inside the table: the clamp never fires |
| `Buckets.RelativePrecision` | core/src/metrics/histogram.cpp:20-36 | x <= u and 32 (u - x) <= x for the upper bound u of the bucket of x |
| `Histograms.Histogram.constructor` | core/src/metrics/histogram.cpp:47-47 | a new histogram has counted nothing |
| `Histograms.Histogram.Record` | core/src/metrics/histogram.cpp:39-45 | one more in the value's bucket, the count, the sum, the minimum and the maximum |
| `Histograms.Histogram.Merge` | core/src/metrics/histogram.cpp:49-57 | bucket by bucket addition, and nothing at all for an empty other |
| `Histograms.Histogram.Percentile` | core/src/metrics/histogram.cpp:68-92 | the accumulating loop finds the first bucket whose cumulative count reaches the rank |
| `Histograms.RecordAllRepresents` | core/src/metrics/histogram.cpp:39-45 | after any recorded values the buckets, count, minimum and maximum are those of the sorted sample |
| `Histograms.MergeRepresents` | core/src/metrics/histogram.cpp:49-57 | a merge represents the two samples put together |
| `Histograms.RankBucketFound` | core/src/metrics/histogram.cpp:80-90 | the rank search stops in the bucket of the true r-th smallest sample |
| `Histograms.RankIsNearest` | core/src/metrics/histogram.cpp:73-78 | the rank asked for is the whole number nearest to the percentage of the count, at least one |
| `Histograms.RankIsPrecise` | core/src/metrics/histogram.cpp:80-91 | for every sample and rank the answer u and the true r-th smallest x satisfy x <= u and 32 (u - x) <= x |
| `Histograms.NothingRecorded` | core/src/metrics/histogram.cpp:68-71 | of nothing every percentile is nought |
| `Histograms.PercentileIsPrecise` | core/src/metrics/histogram.cpp:68-92 | the same for every recorded multiset and every percentage, at the nearest rank, the two ends being exact |
| `ClockSyncs.ClockSync.constructor` | core/src/time/clock_sync.cpp:58-58 | a new estimator holds no sample |
| `ClockSyncs.ClockSync.Observe` | core/src/time/clock_sync.cpp:5-56 | an exchange is rejected or enters the circular window, the histogram and, at the eighth, the drift anchor |
| `ClockSyncs.ClockSync.Best` | core/src/time/clock_sync.cpp:60-67 | the scan of the window |
| `ClockSyncs.ClockSync.OffsetUncertaintyUs` | core/src/time/clock_sync.cpp:69-75 | half the best round trip, zero without a sample |
| `ClockSyncs.ClockSync.RemoteToLocal` | core/src/time/clock_sync.cpp:77-82 | subtracts the best offset modulo 2^64 |
| `ClockSyncs.ClockSync.LocalToRemote` | core/src/time/clock_sync.cpp:84-89 | adds the best offset modulo 2^64 |
| `ClockSyncs.EstimateError` | core/src/time/clock_sync.cpp:28-40 | for any true offset, delays and think time the round trip is exactly d1 + d2 and 2 abs(offset - theta) <= rtt + 1; accepted if and only if it is within two seconds |
| `ClockSyncs.UncertaintyExact` | core/src/time/clock_sync.cpp:37-75 | the stated uncertainty holds, except exactly when the round trip is odd and all on one leg, on the side the truncation favours |
| `ClockSyncs.UncertaintyCanBeExceeded` | core/src/time/clock_sync.cpp:69-75 | an error of one microsecond under a stated uncertainty of zero |
| `ClockSyncs.TranslationRoundTrip` | core/src/time/clock_sync.cpp:77-89 | translating to the peer's clock and back is the identity on all 64-bit times |
| `ClockSyncs.TranslationIsTrue` | core/src/time/clock_sync.cpp:77-89 | an instant is translated to the peer's clock, and back to ours, to within the error of the estimate |
| `ClockSyncs.WindowHoldsLast` | core/src/time/clock_sync.cpp:42-44 | after any run the circular window is the last eight accepted samples |
| `ClockSyncs.BestOfLastEight` | core/src/time/clock_sync.cpp:60-67 | best() is a minimum round trip among the last min(8, accepted) accepted samples |
| `ClockRuns.BelievedIff` | core/src/time/clock_sync.cpp:5-40 | an exchange is believed if and only if neither clock goes back in it and its round trip lies between nought and two seconds |
| `ClockRuns.BestIsFirstOfEquals` | core/src/time/clock_sync.cpp:60-67 | among equal round trips the scan keeps the one in the lowest slot |
| `ClockRuns.RoundTripsAreRecorded` | core/src/time/clock_sync.cpp:42-50 | the histogram holds exactly the round trips of the accepted samples |
| `ClockRuns.DriftAnchorIsFirstBest` | core/src/time/clock_sync.cpp:50-54 | drift is measured from the best of the first eight accepted samples, once there are eight, and ever after |
| `ClockRuns.NoSampleNoEstimate` | core/src/time/clock_sync.cpp:60-89 | before any sample is accepted there is no uncertainty and no translation |
| `Pacers.Pacer.constructor` | core/src/net/pacer.cpp:5-7 | the tolerance defaults to two intervals |
| `Pacers.Pacer.Start` | core/src/net/pacer.cpp:9-12 | the first departure is due at once |
| `Pacers.Pacer.Reset` | core/src/net/pacer.cpp:14-20 | keeps the interval and the tolerance |
| `Pacers.Pacer.Advance` | core/src/net/pacer.cpp:31-51 | moves the schedule by one interval, and onto the clock when it is hopelessly behind |
| `Pacers.ScheduleAdvances` | core/src/net/pacer.cpp:31-51 | each departure moves the schedule by at least an interval, and by exactly one without a resync |
| `Pacers.RateBound` | core/src/net/pacer.cpp:31-51 | after any departure the next k take at least (k - 1) intervals less the tolerance, whatever stalls and resyncs lie between |
| `Pacers.NoDrift` | core/src/net/pacer.cpp:38-41 | without a resync the schedule is start + departures * interval, however late each departure was |
| `Pacers.ResyncsIff` | core/src/net/pacer.cpp:38-50 | a departure gives the schedule up if and only if the next one would be overdue by more than the tolerance, and then starts it from the clock |
| `Pacers.KeptIff` | core/src/net/pacer.cpp:31-51 | the schedule is kept without a resync if and only if no departure was that late |
| `Pacers.ToleranceAsked` | core/src/net/pacer.cpp:5-20 | a tolerance of zero asks for two intervals |
| `Pacers.DelayIsExact` | core/src/net/pacer.cpp:22-29 | waiting makes the departure due if and only if the wait is at least the delay stated |
| `Probers.Prober.constructor` | core/src/net/prober.cpp:13-22 | a new prober is idle |
| `Probers.Prober.Start` | core/src/net/prober.cpp:5-11 | clears the table and the counters and starts the schedule |
| `Probers.Prober.Find` | core/src/net/prober.cpp:24-29 | the first slot awaiting the id, or none |
| `Probers.Prober.Outstanding` | core/src/net/prober.cpp:31-37 | the number of slots awaiting an answer |
| `Probers.Prober.DueProbe` | core/src/net/prober.cpp:39-87 | issues a probe in the first free slot, skips it with the schedule moved on when there is none, and writes the ping's bytes |
| `Probers.Prober.Withdraw` | core/src/net/prober.cpp:89-95 | a probe that never left is taken out of the table and of the sent count |
| `Probers.Prober.OnPong` | core/src/net/prober.cpp:97-126 | settles a probe as replied, impossible or malformed, or counts a stale answer |
| `Probers.Prober.Expire` | core/src/net/prober.cpp:128-140 | gives up exactly the probes older than the timeout, never on a clock gone back |
| `ProbeRuns.ProbesAreConserved` | core/src/net/prober.cpp:39-140 | on every run against arbitrary pongs sent = outstanding + replied + timed out + impossible + malformed, so the decrement in withdraw never underflows |
| `ProbeRuns.StartIsBalanced` | core/src/net/prober.cpp:5-22 | the account is balanced at the start |
| `ProbeRuns.EachProbeSettlesOnce` | core/src/net/prober.cpp:39-140 | on every run of fewer than 2^32 - 2 steps ids are never reused, outstanding ids are distinct, no id settles twice, and what is outstanding is what was issued and not settled |
| `ProbeRuns.FedTimesAreGenuine` | core/src/net/prober.cpp:97-126 | the clock estimator is only ever fed the time at which the answered id was really issued, and that id was awaiting an answer |
| `ProbeRuns.OnlyPongsFeed` | core/src/net/prober.cpp:119-119 | no other step touches the estimator |
| `ProbeRuns.StartIsGenuine` | core/src/net/prober.cpp:13-22 | the table is consistent at the start |
| `ProbeSettlement.ExpiryGivesUp` | core/src/net/prober.cpp:128-140 | on every run an expiry settles an id if and only if it is awaited and was really issued at least the timeout ago; each is counted once |
| `ProbeSettlement.OnlyItsAnswerSettles` | core/src/net/prober.cpp:89-126 | no other step settles an id but its own answer or its own withdrawal, and either does if it is awaited |
| `ProbeSettlement.AnswersAreCounted` | core/src/net/prober.cpp:97-126 | an answer is stale if and only if its id is not awaited; else malformed, replied or impossible by its body and the round trip since the id was really issued |
| `ProbeSettlement.WithdrawalsAreCounted` | core/src/net/prober.cpp:89-95 | a withdrawal takes an awaited id off the sent count and does nothing else to the counts |
| `ProbeSettlement.ProbeIsIssuedIff` | core/src/net/prober.cpp:39-87 | on every run a probe is issued if and only if one is due, the buffer holds a ping and fewer than eight are awaited; it takes the next id |
| `ProbeSettlement.StartIsBlank` | core/src/net/prober.cpp:5-22 | a start forgets every count, probe and sample, and the first probe goes out at once with id 1 |
| `ProbeSettlement.IdleIsSilent` | core/src/net/prober.cpp:13-22 | without a start nothing goes out; the defaults |
| `ProbeSettlement.ProbingIsPaced` | core/src/net/prober.cpp:39-60 | from a start the schedule is that of a pacer with the interval asked for and a tolerance of two, each departure when due |
| `ProbeRuns.ProbeMeasuresTheTruth` | core/src/net/prober.cpp:39-158 | a ping parses at the peer, its pong parses back here, and settling it measures the round trip exactly and the offset within its bound; beyond two seconds it is settled as impossible |
| `ByteOrder.StoreBe16` | core/include/radio/bytes.hpp:67-70 | two bytes, most significant first, and nothing else written |
| `ByteOrder.StoreBe32` | core/include/radio/bytes.hpp:72-77 | four bytes, most significant first |
| `ByteOrder.StoreBe64` | core/include/radio/bytes.hpp:79-82 | eight bytes as two halves |
| `ByteOrder.StoreLe16` | core/include/radio/bytes.hpp:109-112 | two bytes, least significant first |
| `ByteOrder.StoreLe32` | core/include/radio/bytes.hpp:114-119 | four bytes, least significant first |
| `ByteOrder.LoadStored16` | core/include/radio/bytes.hpp:53-112 | a 16-bit value stored anywhere loads back, in either byte order |
| `ByteOrder.LoadStored32` | core/include/radio/bytes.hpp:58-119 | a 32-bit value stored anywhere loads back, in either byte order |
| `ByteOrder.LoadStored64` | core/include/radio/bytes.hpp:63-82 | a 64-bit value stored anywhere loads back |
| `ByteOrder.Load16IsValue` | core/include/radio/bytes.hpp:53-107 | a 16-bit load is worth its bytes in base 256: as they stand for little-endian, backwards for big-endian |
| `ByteOrder.Load32IsValue` | core/include/radio/bytes.hpp:58-107 | the same for 32 bits |
| `ByteOrder.Load64IsValue` | core/include/radio/bytes.hpp:63-66 | the same for 64 bits, most significant byte first |
| `ByteOrder.StoredIsValue` | core/include/radio/bytes.hpp:67-119 | what a store lays down is worth what was stored, in the order its name says |
| `ByteOrder.StoreLoaded16` | core/include/radio/bytes.hpp:53-112 | two bytes loaded and stored are unchanged |
| `ByteOrder.StoreLoaded32` | core/include/radio/bytes.hpp:58-119 | four bytes loaded and stored are unchanged |
| `ByteOrder.StoreLoaded64` | core/include/radio/bytes.hpp:63-82 | eight bytes loaded and stored are unchanged |
| `Proto.EncodeMedia` | core/src/proto/proto.cpp:145-165 | lays down the header and payload, or writes nothing when the payload is empty or does not fit |
| `Proto.EncodeControl` | core/src/proto/proto.cpp:167-186 | lays down the header and body, or writes nothing when they do not fit |
| `Proto.EncodePongBody` | core/src/proto/proto.cpp:188-193 | sixteen bytes or nothing |
| `Proto.EncodePongFor` | core/src/net/prober.cpp:142-158 | the whole reply, or nothing when it does not fit |
| `Proto.MediaRoundTrip` | core/src/proto/proto.cpp:70-165 | parsing an encoded media packet gives it back if and only if a conforming sender may send it |
| `Proto.MediaCanonical` | core/src/proto/proto.cpp:70-101 | every accepted media datagram re-encodes to the same bytes |
| `Proto.ControlRoundTrip` | core/src/proto/proto.cpp:103-186 | the same for control packets |
| `Proto.ControlCanonical` | core/src/proto/proto.cpp:103-129 | every accepted control datagram re-encodes to the same bytes |
| `Proto.PongBodyRoundTrip` | core/src/proto/proto.cpp:131-193 | a pong body parses if and only if it is sixteen bytes, and both ways round |
| `Proto.RejectionOrder` | core/src/proto/proto.cpp:33-129 | arbitrary bytes are rejected under the first failing check of prefix length, version, type, flags, length |
| `Proto.PongEchoes` | core/src/net/prober.cpp:142-158 | the reply to a ping parses to its request id, its send time and the responder's two times |
| `WireLayout.MediaLayout` | core/src/proto/proto.cpp:33-101 | a media datagram is accepted if and only if it is 01 01, flags at most 15, 17 to 1200 bytes; its fields are the big-endian numbers at 2, 4, 8 and 12 |
| `WireLayout.ControlLayout` | core/src/proto/proto.cpp:33-129 | a control datagram is accepted if and only if it is version 1, an assigned type other than 1, no flags, 16 to 1200 bytes; its fields are the big-endian numbers at 4 and 8 |
| `WireLayout.PongLayout` | core/src/proto/proto.cpp:131-143 | a pong body is two big-endian 64-bit numbers |
| `WireLayout.FlagBits` | core/include/radio/proto.hpp:67-95 | which of the sixteen flag combinations open and which close a talkspurt |
| `WireLayout.AudioMinimal` | protocol/testvectors/vectors.json:6-18 | the smallest media packet, byte for byte |
| `WireLayout.PongWithBody` | protocol/testvectors/vectors.json:142-157 | a pong with its body, byte for byte |
| `WireLayout.FirstFaultWins` | protocol/testvectors/vectors.json:223-229 | of several faults the first in order is reported |
| `Impairments.ImpairmentEngine.constructor` | core/src/sim/impairment.cpp:66-104 | the configuration clamped, the chain derived from it, everything reset |
| `Impairments.ImpairmentEngine.Reset` | core/src/sim/impairment.cpp:106-115 | back to the seed, a full bucket and zero counters |
| `Impairments.ImpairmentEngine.NextUnit` | core/src/sim/impairment.cpp:121-127 | one generator step and the top 53 bits as a fraction |
| `Impairments.ImpairmentEngine.DrawNormal` | core/src/sim/impairment.cpp:129-146 | two draws make two normals; the spare is used first |
| `Impairments.ImpairmentEngine.DrawJitter` | core/src/sim/impairment.cpp:148-186 | one draw of the configured shape, as a word that wraps when negative |
| `Impairments.ImpairmentEngine.DrawDelay` | core/src/sim/impairment.cpp:188-190 | base delay plus jitter modulo 2^64 |
| `Impairments.ImpairmentEngine.RateLimitAllows` | core/src/sim/impairment.cpp:192-216 | refill, cap, and drain or refuse |
| `Impairments.ImpairmentEngine.AdvanceBurstState` | core/src/sim/impairment.cpp:218-229 | one step of the chain, one draw when it is on |
| `Impairments.ImpairmentEngine.Decide` | core/src/sim/impairment.cpp:231-282 | the fixed order of draws, verdicts and counters |
| `ImpairmentDraws.LossIsOneDraw` | core/src/sim/impairment.cpp:231-253 | a packet the chain leaves out of a burst is lost if and only if the next draw falls below the loss asked for; and what each drop costs in draws |
| `ImpairmentDraws.ForwardingIsDraws` | core/src/sim/impairment.cpp:262-282 | a forwarded packet is held back, by exactly the extra delay, and doubled, each if and only if its own draw falls below the chance asked for |
| `ImpairmentDraws.UniformIsEven` | core/src/sim/impairment.cpp:155-159 | uniform jitter is spread evenly over plus and minus the amount asked for |
| `ImpairmentDraws.NormalIsClamped` | core/src/sim/impairment.cpp:160-166 | normal jitter is the normal drawn times the amount asked for, cut off at three of them |
| `ImpairmentDraws.NormalsComeInPairs` | core/src/sim/impairment.cpp:129-146 | two draws give two normals, the second kept and used without a draw |
| `ImpairmentDraws.ParetoOnlyAdds` | core/src/sim/impairment.cpp:167-176 | Pareto jitter is never negative for a factor of at least one, and passes a multiple of the amount exactly when the factor passes one more |
| `ImpairmentDraws.JitterOrNot` | core/src/sim/impairment.cpp:148-153 | without jitter the delay is the base and no draw is made; with it one draw of the shape |
| `ImpairmentDraws.NewEngineAsksFor` | core/src/sim/impairment.cpp:66-104 | a new engine has the chances its configuration names, clamped to none or all, and nothing else changed |
| `ImpairmentDraws.GeneratorStates` | core/src/sim/impairment.cpp:11-13 | the first two states of the generator from seed zero |
| `ImpairmentDraws.FirstOutputs` | core/src/sim/impairment.cpp:11-17 | and what splitmix64 puts out for them |
| `ImpairmentDraws.UnitIsTopBits` | core/src/sim/impairment.cpp:121-127 | a unit draw is the top 53 bits: each of 2^53 equal steps is hit by 2^11 outputs in a row |
| `TokenBucket.LevelIsTightest` | core/src/sim/impairment.cpp:201-210 | the token level is the tightest of all the windows ending now |
| `TokenBucket.PassesIffEveryWindowAllows` | core/src/sim/impairment.cpp:192-216 | a packet passes if and only if every window ending with it has room: one bucket plus the rate over the window, less the bytes passed in it |
| `TokenBucket.AllowanceInBits` | core/src/sim/impairment.cpp:192-216 | what a window allows, in whole bits and microseconds: eight million times the bytes against the rate in bits a second |
| `TokenBucket.GainIsElapsedIff` | core/src/sim/impairment.cpp:204-206 | the time credited is never less than the time elapsed, and equal to it if and only if the clock never stepped back |
| `TokenBucket.GainBound` | core/src/sim/impairment.cpp:192-216 | over any clock at most one bucket plus the rate times the time gone forward gets through |
| `TokenBucket.RateBound` | core/src/sim/impairment.cpp:192-216 | over a monotone clock the bytes passed between any two packets are at most one bucket plus the rate times the elapsed time, in bits a second and whole numbers too |
| `TokenBucket.BackwardClockEarnsTwice` | core/src/sim/impairment.cpp:204-206 | a clock that steps back earns the same microsecond twice |
| `ImpairmentRuns.EveryPacketIsCountedOnce` | core/src/sim/impairment.cpp:231-282 | on every run each counter is the number of decisions it names, considered = forwarded + three kinds of drop, and only forwarded packets are copied or held back |
| `ImpairmentRuns.ResetReplays` | core/src/sim/impairment.cpp:106-115 | after any history a reset engine makes the decisions a new one would, and ends in the same state |
| `ImpairmentRuns.LimiterSeesSurvivors` | core/src/sim/impairment.cpp:236-260 | the limiter's state is that of a bucket fed only the packets the loss models spare |
| `ImpairmentRuns.ForwardedIffEveryWindowAllows` | core/src/sim/impairment.cpp:256-260 | on every run a spared packet is forwarded if and only if every window of spared packets has room for it |
| `ImpairmentRuns.DelayIsTotal` | core/src/sim/impairment.cpp:180-190 | negative jitter wraps out and wraps back: the delay is the whole part of a positive total |
| `ImpairmentRuns.DelayIsClampedTotal` | core/src/sim/impairment.cpp:180-190 | the delay is the total clamped at zero if and only if the total is positive or the base delay is zero |
| `ImpairmentRuns.NegativeTotalKeepsBase` | core/src/sim/impairment.cpp:180-185 | a total of minus one millisecond still waits the whole base delay |
| `BurstChain.ChainMeetsItsSetting` | core/src/sim/impairment.cpp:75-101 | the chain balances at the loss asked for with the mean burst asked for, and its entry probability is a probability if and only if the loss is at most B / (B + 1) |
| `BurstChain.StepIsOneDraw` | core/src/sim/impairment.cpp:218-229 | the draws that make the next packet lossy are an interval as long as one chance: staying in a burst or entering one |
| `BurstChain.NoLossNoChain` | core/src/sim/impairment.cpp:93-101 | asked for no loss the chain is off and makes no draw |
| `BurstChain.AllLossIsForever` | core/src/sim/impairment.cpp:98-101 | asked for all of it, the first packet opens a burst that never ends |
| `BurstChain.RestBalances` | core/src/sim/impairment.cpp:94-97 | at rest what enters the lossy state is what leaves it, and rest is at the loss asked for if and only if that is at most B / (B + 1) |
| `BurstChain.ShareSettles` | core/src/sim/impairment.cpp:75-101 | from any start the distance of the lossy share from rest shrinks by one constant factor a step, of size below one unless every burst is one packet and every good run too; so the long-run loss is the one asked for if and only if that is at most B / (B + 1) |
| `ImpairmentRuns.UnitBurstsNeverRepeat` | core/src/sim/impairment.cpp:218-247 | with a mean burst length of one no two packets in a row are lost to bursts, and never more than half, rounded up |
| `Wavs.Scan` | core/src/audio/wav.cpp:131-188 | the chunk walk, in bounds and terminating, with its two early errors |
| `Wavs.TakeFmt` | core/src/audio/wav.cpp:158-178 | a format chunk is taken, or refused as malformed, through the extensible subformat |
| `Wavs.Deliver` | core/src/audio/wav.cpp:190-223 | the checks after the walk in order, then the whole frames of the data |
| `Wavs.ReadWav` | core/src/audio/wav.cpp:109-224 | the reader as a function of the file's bytes |
| `Wavs.Header` | core/src/audio/wav.cpp:257-280 | the 44 bytes, field by field |
| `Wavs.WriteWav` | core/src/audio/wav.cpp:248-299 | refusals, and otherwise header and samples in order |
| `Wavs.DownmixToMono` | core/src/audio/wav.cpp:226-246 | the averaging loops |
| `WavSpec.SumFits` | core/src/audio/wav.cpp:238-242 | a frame's sum fits 32 signed bits for every channel count |
| `WavSpec.DownmixStaysInFrame` | core/src/audio/wav.cpp:235-244 | each mono sample lies within its own frame's range; samples short of a frame are dropped |
| `WavSpec.SumIsAdditive` | core/src/audio/wav.cpp:238-240 | the sum of a frame leaves no channel out and counts none twice |
| `WavSpec.DownmixIsMean` | core/src/audio/wav.cpp:235-244 | each mono sample is its own frame's mean rounded toward zero |
| `WavSpec.StereoIsHalfSum` | core/src/audio/wav.cpp:235-244 | two channels come out as half their sum |
| `WavChunks.WalkVisitsExactly` | core/src/audio/wav.cpp:140-188 | over padded chunks the walk visits exactly those chunks, in order |
| `WavChunks.OnlyTheLastMatter` | core/src/audio/wav.cpp:158-182 | only the last format and the last data chunk count; one malformed format chunk anywhere refuses the file |
| `WavChunks.ReadsAnyChunkOrder` | core/src/audio/wav.cpp:109-224 | on any chunk list, in any order, the file reads as its last data chunk under its last format chunk |
| `WavChunks.LastPadMayBeMissing` | core/src/audio/wav.cpp:184-187 | a missing pad after a last odd chunk changes nothing |
| `WavChunks.CutShort` | core/src/audio/wav.cpp:145-156 | a chunk that declares too much stops the reader: truncated if it is data, malformed otherwise |
| `WavChunks.EveryBodyIsChunks` | core/src/audio/wav.cpp:139-188 | every RIFF body is such a chunk list, so the cases above are all there are |
| `WavChunks.WrittenIsChunks` | core/src/audio/wav.cpp:257-295 | a written file is a format chunk and a data chunk |
| `WavChunks.RoundTrip` | core/src/audio/wav.cpp:109-299 | whole frames at a real rate read back sample for sample if and only if the sample bytes fit 32 bits |
| `WavChunks.NeverReadsMore` | core/src/audio/wav.cpp:142-217 | no file yields more sample bytes than 32 bits can declare |
| `WavLayout.FormatLayout` | core/src/audio/wav.cpp:158-178 | a format chunk's fields are the little-endian numbers at 0, 2, 4 and 14, the encoding at 24 for the extensible one, with 16 or 40 bytes needed |
| `WavLayout.ChunkLayout` | core/src/audio/wav.cpp:140-187 | a chunk's size is the little-endian number after its tag, and the next chunk follows that many bytes and a pad later |
| `WavLayout.SampleLayout` | core/src/audio/wav.cpp:211-220 | a sample is two bytes, the second the more significant, read as a signed number |
| `WavLayout.SmallFile` | core/src/audio/wav.cpp:109-299 | one file of two samples, byte for byte, as written and as read |
| `WavLayout.RefusalOrder` | core/src/audio/wav.cpp:109-210 | a file is refused for the first thing wrong with it: its own header, the chunk the walk stops at, then what the chunks held |
| `WavLayout.WriterTakes` | core/src/audio/wav.cpp:248-256 | a writer takes whole frames of one to eight channels at a real rate and nothing else |
| `SessionSpec.PullsFor` | android/app/src/main/cpp/session.cpp:177-197 | enough pulls to cover the request and not one more |
| `Sessions.Session.constructor` | android/app/src/main/cpp/session.cpp:81-84 | nothing staged, no talkspurt open |
| `Sessions.Session.OnCapture` | android/app/src/main/cpp/session.cpp:151-155 | captured samples are appended to the ring as far as they fit |
| `Sessions.Session.Drain` | android/app/src/main/cpp/session.cpp:161-172 | everything received enters the jitter buffer in order, and the ring is left empty |
| `Sessions.Session.OnPlayout` | android/app/src/main/cpp/session.cpp:157-198 | delivered plus left staged is what was staged plus what was pulled; the pulls are the shortfall in frames rounded up; and the jitter buffer has run the drained packets and then those pulls |
| `Sessions.Session.Hand` | android/app/src/main/cpp/session.cpp:251-270 | a packet goes to the socket and is counted, or counts as not encoded |
| `Sessions.Session.Transmit` | android/app/src/main/cpp/session.cpp:211-316 | one captured frame: opening, closing, encoding, numbering |
| `Sessions.Session.TransmitAvailable` | android/app/src/main/cpp/session.cpp:200-318 | every whole captured frame is sent in order, less than a frame is left, and a pop never comes back short |
| `SessionRuns.StagingIsTransparent` | android/app/src/main/cpp/session.cpp:174-197 | for every sequence of callback sizes the device hears the pulled frames end to end, and the pulls are always the samples heard divided by a frame, rounded up |
| `SessionRuns.TalkspurtNumbers` | android/app/src/main/cpp/session.cpp:214-316 | within a talkspurt packets are numbered one by one from the opening draw, 960 samples apart, however many frames fail to encode or send; START is on the first if and only if the opening frame encoded |
| `SessionRuns.StartIsLostWithItsFrame` | android/app/src/main/cpp/session.cpp:283-294 | some packet of a talkspurt carries START if and only if its opening frame encodes |
| `SessionRuns.ClosingNumbersOn` | android/app/src/main/cpp/session.cpp:229-274 | the closing packet is next in number and marked END, and the talkspurt closes whether or not it encodes |
| `SessionRuns.SendsAreCounted` | android/app/src/main/cpp/session.cpp:246-313 | every frame given to the encoder is counted once: sent, refused or not encoded |
| `SessionRuns.SentIsTaken` | android/app/src/main/cpp/session.cpp:251-313 | sent is what the socket took, packet for packet and byte for byte; the rest of what it was handed counts as refused |
| `SessionRuns.TalkspurtsAreCounted` | android/app/src/main/cpp/session.cpp:214-227 | each talkspurt is counted once, when it opens |
| `SessionRuns.EncodableIffParses` | android/app/src/main/cpp/session.cpp:248-305 | what the sender takes from its encoder is exactly what parses on the wire |
| `SessionRuns.CorrectionIsFlagged` | android/app/src/main/cpp/session.cpp:238-295 | every packet carries the correction flag if and only if correction is on |
| `SessionRuns.WireParses` | android/app/src/main/cpp/session.cpp:297-305 | every datagram handed over parses back to its packet |
| `SessionRuns.HandedIsOnLine` | android/app/src/main/cpp/session.cpp:214-316 | on every run each packet lies on its own stream's timestamp line |
| `SessionRuns.SentAudioStaysInStep` | android/app/src/main/cpp/session.cpp:157-317 | end to end: whatever is captured and sent, and whatever the network does, the peer's playout timestamp stays the image of its cursor |

## Left out

- Event counters are unbounded naturals: the model does not capture 2^64 events of one kind.
- The Opus encoder and decoder (core/src/audio/opus_codec.cpp): foreign code. Each call's outcome is an input, so PCM
  contents, sound quality and the decoder's own history (`reset_state`) are not modelled.
- Memory order: an acquire load is modelled as any value between the last one seen and the current one, and slot
  copies as atomic and race-free; torn slot reads are excluded by `StoreKeepsUnread`, not by a memory model.
- Signed overflow in the clock estimate, which C++ leaves undefined, is taken as two's-complement wrap; the error
  bound assumes both clocks read below 2^62 microseconds.
- Doubles are reals: the rounding of the percentile's rank, of the token level and of the link model's delays is not
  modelled, nor is a delay of 2^64 microseconds or more, whose conversion C++ leaves undefined.
- The Box-Muller and Pareto curves are parameters, so the distribution of jitter is not modelled. The long-run loss of
  the two-state chain is that of ideal draws (`BurstChain`): the quality of splitmix64 is not modelled.
- File handles in wav.cpp: reading takes the file's bytes and writing returns them, so CannotOpen and short writes are
  not modelled.
- Sockets, poll, address parsing, the network loop's receive half, the Oboe engine, JNI, Kotlin and the host tools:
  calls into the system and glue around the modelled classes.
- `drift_ppm`, `mean`, `loss_fraction`, `snapshot`, the jitter estimator and the trace buffer: short formulas that
  would add easy members.
- `to_string`, `conversion_hint`, padding and alignment: no behaviour to prove.
- Embedded C++ members (the queue in the buffer, the pacer and estimator in the prober) are objects of their own, and
  resetting one may replace it by a fresh one.
