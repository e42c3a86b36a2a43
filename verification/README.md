# Real-time media core, modelled and proved in Dafny

The desktop client shares screens, cameras and voice over QUIC. Its media core is a handful
of small state machines with wrapping counters, several threads and hard promises. This
project models them and proves what they promise over every run.

| module | models |
|---|---|
| `Basics` | optional values, bytes, minimum and maximum |
| `SequenceNumbers` | wrap-safe comparison of 32-bit frame numbers and 16-bit packet numbers |
| `FrameReorder`, `ReorderHeld` | the viewer's reorder buffer without its data structure: a state machine over arrivals, starts, aborts and polls |
| `ReorderSafety`, `ReorderArrivals`, `ReorderRecovery`, `ReorderCompleteness` | what every run of it delivers, holds, reports and finds, call by call, and the refinement of "the longest unbroken run that has arrived" |
| `HeldMap`, `ReorderBuffer` | the buffer as built: a map keyed by distance from a moving base, a running byte count, flags updated in place; every method proved equal to the state machine |
| `ReceiveRouter`, `RouterRuns`, `RouterReopening`, `RouterDelivery` | transport thread, per-stream FIFO and playout thread; what the decoder hears |
| `KeyframePacing` | the exponential-backoff gate on keyframe requests |
| `PlayoutClock` | the unwrapped capture clock and the percentile delay |
| `VoiceJitter`, `VoiceRuns`, `VoiceStream` | the voice jitter buffer and its FEC-aware playout |
| `SendAccounting`, `SendLedger` | the lock-free outstanding-byte counter and the admission gate, one atomic operation a step |
| `BaseRtt`, `CongestionWindow`, `BitrateControl`, `BitrateRuns` | the windowed minimum of the round-trip time, how an evaluation window is judged, bitrate adaptation and the two publishing gates |
| `EchoRing`, `EchoRuns` | the echo canceller's reference ring, one load or store a step |
| `Framing` | length-prefixed framing of the two reliable streams |
| `WatchSet` | the watch-set handlers |

`dafny verify dfyconfig.toml` checks everything.

Conventions. Objects that the program updates in place are classes whose methods are proved
against a function of the old state; what the program promises is then proved about that
function over whole runs. Threads are atomic steps that interleave freely, under sequential
consistency. Callbacks are outputs in a trace, clocks are parameters. Configurations are
arbitrary, and so are the limits of the voice mixer and the sizes of the echo ring: they are
constants without a value, of a type that asks of them only what the code needs and has the
program's own (`voice_mixer.h`, `echo_canceller.h`) as its witness. The other constants are
the program's.

## Findings

Where the code does not keep a promise, the code is modelled as it is, a concrete run shows
the failure and a lemma states exactly when the promise is kept.

- **Reopening a stream.** `open` replaces the reorder buffer but recalls nothing that is
  queued for playout or already taken by the playout thread, so the decoder of the reopened
  stream can first be handed a delta of its previous life
  (`RouterRuns.ReopeningBreaksDecodeSafety`). What the decoder hears is decodable in every
  continuation if and only if nothing was on its way
  (`RouterReopening.OpeningIsSafeExactlyWhenNothingIsLeft`); closing the stream first and
  letting the playout thread finish gets there
  (`RouterReopening.ClosingAndWaitingLeavesNothing`).
- **Lowering the bitrate ceiling.** The header promises that a lower ceiling takes effect on
  the next `take_bitrate_update()`. If the adapted bitrate is already under the new ceiling
  but was held back by the delta gate, nothing is published and the encoder stays above the
  ceiling (`BitrateControl.LoweredCeilingCanMissTheEncoder`, with the default configuration;
  exact condition in `BitrateControl.CeilingReachesTheEncoder`).
- **Recovery from an invalid length.** Clearing the buffer makes what is delivered depend on
  how the bytes were cut (`Framing.ErrorRecoveryDependsOnTheCut`; exact condition in
  `Framing.CutMattersExactlyBehindAnError`).
- **`set_single_watched` and decoders.** It starts and stops none, so where streams have
  decoders of their own it can leave one behind (`WatchSet.SingleCanLeaveADecoder`; exact
  condition in `WatchSet.DecodersFollow`). Only platforms with one decoder call it, and
  there it is harmless (`WatchSet.OneDecoderIsLeftAlone`).
- **The stale-front branch** of `decode_frame` and the concealment after it are unreachable,
  although the comment there says a reset can leave such a front (`VoiceJitter.NothingIsStale`
  with `VoiceRuns.EveryQueueIsSound`). Likewise the clamp of the byte counter never fires
  (`SendAccounting.ClampNeverFires`), and the re-check of aborts when a delta is held never
  starts a request (`ReorderSafety.HeldDeltaNeverStartsARequest`).

## Model

| member | source | states |
|---|---|---|
| `SequenceNumbers.DistanceIsTheWrappedDifference` | common/include/parties/video_common.h:96-102 | the frame distance is the one signed 32-bit number congruent to the difference modulo 2^32 |
| `SequenceNumbers.AheadIsTheWrappedDifference` | client/src/voice_mixer.cpp:30-34 | the packet distance is the one signed 16-bit number congruent to the difference modulo 2^16 |
| `ReorderSafety.EveryRunIsDecodable` | common/src/video_frame_reorder.cpp:131-299 | decode safety over every run from a reset: first delivery a keyframe, each delivery wrap-newer than the last, each delta right after its exact predecessor |
| `ReorderSafety.EveryRunReportsABreakOnce` | common/src/video_frame_reorder.cpp:301-313 | over every run, a loss report names the successor of the newest delivery and two reports have a delivery between them |
| `ReorderSafety.RunKeeps` | common/src/video_frame_reorder.cpp:22-30 | the documented invariant after every run: held frames ordered, deltas only, at least 2 ahead of the newest delivery, within bounds; aborts ahead, distinct and at most 64; flags consistent; the state agrees with the trace |
| `ReorderSafety.HeldDeltaNeverStartsARequest` | common/src/video_frame_reorder.cpp:210-215 | a remembered abort of the owed frame means recovery is already on, so the re-check does nothing |
| `ReorderSafety.GapTimerIsTheEarliestArrival` | common/src/video_frame_reorder.cpp:56-64 | under a positive nondecreasing clock the gap timer is the earliest held arrival, 0 if none, after every run |
| `ReorderSafety.ReleaseKeeps` | common/src/video_frame_reorder.cpp:283-294 | draining delivers decodably and leaves every held frame at least 2 ahead of the moved base |
| `ReorderSafety.OnFrameKeeps` | common/src/video_frame_reorder.cpp:131-216 | an arrival keeps the invariant and the safety of the trace |
| `ReorderSafety.OnAbortedKeeps` | common/src/video_frame_reorder.cpp:218-251 | an abort keeps the invariant and the safety of the trace |
| `ReorderSafety.OnPollKeeps` | common/src/video_frame_reorder.cpp:253-276 | a poll keeps the invariant and the safety of the trace |
| `ReorderRecovery.EveryPollFindsTheBreak` | common/src/video_frame_reorder.cpp:267-275 | after every run, a poll leaves the buffer in recovery exactly if it was or some held frame has waited its hold out, and then the loss is reported unless a trusted keyframe is arriving |
| `ReorderRecovery.EveryPollIsAccountedFor` | common/src/video_frame_reorder.cpp:253-276 | after every run, all that a poll does: before the first keyframe exactly the expired deltas go, after it nothing does, and a break is reported once unless a keyframe is trusted |
| `ReorderRecovery.EveryStartIsRemembered` | common/src/video_frame_reorder.cpp:112-121 | after every run, a started keyframe that can repair the chain is counted on unless one no older is; nothing else changes |
| `ReorderRecovery.HoldFollowsTheRtt` | common/src/video_frame_reorder.cpp:91-98 | the hold is what the round-trip time asks for, cut to its limits, and the lower limit without a measurement |
| `ReorderRecovery.LongerTripsHoldLonger` | common/src/video_frame_reorder.cpp:91-98 | the hold grows with the round-trip time |
| `ReorderRecovery.TrustRunsOut` | common/src/video_frame_reorder.cpp:100-106 | a keyframe in flight is given up exactly after two seconds and four holds |
| `ReorderRecovery.EveryAbortIsHeeded` | common/src/video_frame_reorder.cpp:218-251 | after every run, all that an abort does: of the frame owed it starts recovery and reports unless a keyframe is trusted; further ahead it un-holds the frame or is remembered beside the others, the oldest of a full memory forgotten; behind, nothing |
| `ReorderRecovery.KeyframeInFlightIsReal` | common/src/video_frame_reorder.cpp:100-125 | after every run, the keyframe the buffer stays quiet for was started at the remembered time, not aborted since, and is ahead of every delivery |
| `ReorderRecovery.ResumesAtOnce` | common/src/video_frame_reorder.cpp:139-201 | after every run, a keyframe ahead or the very frame owed is delivered at once; recovery stays on only if the next owed frame is known aborted |
| `ReorderArrivals.EveryArrivalIsAccountedFor` | common/src/video_frame_reorder.cpp:131-216 | after every run, all that an arrival does: a keyframe ahead or the frame owed goes out with the longest unbroken run of the held frames newer than it, the rest of those stay held, aborts and a keyframe in flight are remembered while ahead; another delta is held, as far as it fits; anything else changes nothing |
| `ReorderArrivals.RepairIsAccounted` | common/src/video_frame_reorder.cpp:152-201 | the same for the three branches that deliver |
| `ReorderArrivals.DeltaIsAccounted` | common/src/video_frame_reorder.cpp:142-151 | the same for a delta before the first keyframe or behind a gap |
| `ReorderArrivals.ReleaseSplits` | common/src/video_frame_reorder.cpp:283-294 | a release splits the held frames into an unbroken run that goes out and the rest that stays |
| `ReorderArrivals.PoolIsUnique` | common/src/video_frame_reorder.cpp:9-20 | the frames newer than a keyframe, in order, are determined, and so is the outcome |
| `ReorderCompleteness.DeliversTheLongestRun` | common/src/video_frame_reorder.cpp:139-299 | when a keyframe and its deltas, up to 2^31 frames, arrive in any order and with duplicates, what waits behind a gap fits the buffer and no poll finds a frame still waiting for a whole hold, the callbacks are exactly the deliveries of the longest unbroken run that has arrived |
| `ReorderCompleteness.DeliversEverything` | common/src/video_frame_reorder.cpp:139-299 | once all have arrived, all have been delivered once, in order, without a loss report, and nothing is held |
| `ReorderHeld.BoundIsMaximal` | common/src/video_frame_reorder.cpp:315-324 | eviction keeps the near end of an anchored buffer and the far end of an unanchored one, and one frame more would not fit |
| `ReorderHeld.RebaseFacts` | common/src/video_frame_reorder.cpp:44-54 | re-keying orders the frames by distance from the new base and loses none |
| `ReorderHeld.RebaseOrdered` | common/src/video_frame_reorder.cpp:283-295 | re-keying what a drain leaves changes nothing: stale keys still have the right order |
| `ReorderHeld.PlaceFacts` | common/src/video_frame_reorder.cpp:204-208 | insertion adds exactly the frame, its bytes, and keeps the order |
| `ReorderHeld.EarliestIsLeast` | common/src/video_frame_reorder.cpp:56-64 | with positive arrival times the scan finds their minimum |
| `HeldMap.LowerBound` | common/src/video_frame_reorder.cpp:190-194 | the position that separates smaller keys from the others |
| `HeldMap.Find` | common/src/video_frame_reorder.cpp:204-205 | by key: found exactly if a frame of that number is held, else where it goes |
| `HeldMap.InsertAt` | common/src/video_frame_reorder.cpp:204-208 | ordered insertion, keys and byte count exact |
| `HeldMap.Insert` | common/src/video_frame_reorder.cpp:145-148 | a frame already held is left alone, any other is put in order |
| `HeldMap.EraseFrame` | common/src/video_frame_reorder.cpp:237-243 | by key: exactly the frame of that number goes, if it is held |
| `HeldMap.Rekey` | common/src/video_frame_reorder.cpp:44-54 | the frames ordered by distance from the new base, under exact keys |
| `HeldMap.EarliestArrival` | common/src/video_frame_reorder.cpp:56-64 | the scan, proved equal to the specification of the gap timer |
| `HeldMap.EraseAt` | common/src/video_frame_reorder.cpp:238-242 | one node erased, keys, order and byte count exact |
| `HeldMap.ErasePrefix` | common/src/video_frame_reorder.cpp:190-194 | every node up to a key erased, byte count exact |
| `HeldMap.EraseThrough` | common/src/video_frame_reorder.cpp:152-159 | exactly the frames newer than the first keyframe stay |
| `HeldMap.EraseExpired` | common/src/video_frame_reorder.cpp:255-263 | exactly the frames held for less than the hold stay |
| `HeldMap.EraseOverflow` | common/src/video_frame_reorder.cpp:315-324 | what stays is the bounded part of the specification |
| `ReorderBuffer.VideoFrameReorderBuffer.constructor` | common/src/video_frame_reorder.cpp:71-75 | a fresh, valid buffer under the normalised configuration |
| `ReorderBuffer.VideoFrameReorderBuffer.Reset` | common/src/video_frame_reorder.cpp:77-89 | back to the fresh state, the round-trip time kept |
| `ReorderBuffer.VideoFrameReorderBuffer.OnFrame` | common/src/video_frame_reorder.cpp:131-216 | the keyed buffer does exactly what the state machine does on an arrival and stays valid |
| `ReorderBuffer.VideoFrameReorderBuffer.OnFrameStarted` | common/src/video_frame_reorder.cpp:112-121 | refines the state machine on a started stream |
| `ReorderBuffer.VideoFrameReorderBuffer.OnFrameAborted` | common/src/video_frame_reorder.cpp:218-251 | refines the state machine on an abort |
| `ReorderBuffer.VideoFrameReorderBuffer.Poll` | common/src/video_frame_reorder.cpp:253-276 | refines the state machine on a poll |
| `ReorderBuffer.VideoFrameReorderBuffer.Drain` | common/src/video_frame_reorder.cpp:283-299 | refines the drain although keys are stale while the base moves; keys exact again at the end |
| `ReorderBuffer.VideoFrameReorderBuffer.ReleaseHeld` | common/src/video_frame_reorder.cpp:286-294 | the delivery loop equals the recursive release |
| `ReorderBuffer.VideoFrameReorderBuffer.CheckHeld` | common/src/video_frame_reorder.cpp:210-215 | refines the bound and abort checks after a delta was held |
| `ReorderBuffer.VideoFrameReorderBuffer.NoteAbort` | common/src/video_frame_reorder.cpp:237-250 | refines un-holding an aborted frame or remembering the abort, at most 64 of them |
| `ReorderBuffer.VideoFrameReorderBuffer.DropExpired` | common/src/video_frame_reorder.cpp:255-266 | before the first keyframe exactly the deltas held for less than the hold stay, and the timer is exact |
| `ReorderBuffer.VideoFrameReorderBuffer.AnchorAt` | common/src/video_frame_reorder.cpp:152-168 | the first keyframe drops what is not newer, re-keys the rest and resumes |
| `ReorderBuffer.VideoFrameReorderBuffer.ResumeAtKeyframe` | common/src/video_frame_reorder.cpp:184-201 | erasing by key over a gap keeps exactly the newer frames |
| `ReorderBuffer.VideoFrameReorderBuffer.HoldDelta` | common/src/video_frame_reorder.cpp:203-216 | refines holding a delta behind a gap, overflow and abort checks included |
| `ReorderBuffer.VideoFrameReorderBuffer.HoldStartup` | common/src/video_frame_reorder.cpp:142-151 | refines holding a delta before the first keyframe |
| `ReorderBuffer.VideoFrameReorderBuffer.BoundHeld` | common/src/video_frame_reorder.cpp:315-324 | bounded contents and an exact gap timer |
| `ReorderBuffer.VideoFrameReorderBuffer.RequireKeyframe` | common/src/video_frame_reorder.cpp:301-307 | refines the start of recovery |
| `ReorderBuffer.VideoFrameReorderBuffer.ReportLoss` | common/src/video_frame_reorder.cpp:309-313 | refines the loss report |
| `ReorderBuffer.VideoFrameReorderBuffer.KeyframeArriving` | common/src/video_frame_reorder.cpp:91-106 | whether a keyframe in flight is still trusted |
| `ReorderBuffer.KeyOrderIsNewness` | common/src/video_frame_reorder.cpp:9-20 | ahead of the base, key order is newness: nodes up to a keyframe's key are exactly those not newer than it |
| `ReorderBuffer.DrainKeepsOrder` | common/src/video_frame_reorder.cpp:283-295 | what a drain leaves is in order from the new base |
| `ReceiveRouter.DueCount` | common/src/video_receive_router.cpp:51-57 | a pass takes exactly the due head of a queue and the oldest of an overlong one; what is left is bounded and not due |
| `ReceiveRouter.TakeDue` | common/src/video_receive_router.cpp:52-55 | the inner loop moves exactly that head over, in order, touching no other stream |
| `ReceiveRouter.PlayoutPass` | common/src/video_receive_router.cpp:45-57 | one pass splits every queue, whatever order the map iterates in |
| `RouterRuns.HeardIsAPrefix` | common/src/video_receive_router.cpp:45-71 | in every interleaving, what the decoder heard is a prefix of what was left over at the open followed by what the buffer released |
| `RouterRuns.DecoderIsSafe` | common/src/video_receive_router.cpp:132-152 | with nothing left over, decode safety holds at the decoder in every interleaving |
| `RouterRuns.LeftoverIsHeardFirst` | common/src/video_receive_router.cpp:73-88 | anything left over is what the reopened stream's decoder hears first |
| `RouterRuns.PassBoundsTheQueue` | common/src/video_receive_router.cpp:22-57 | every pass leaves at most 64 frames queued and loses or reorders none |
| `RouterRuns.ReopeningBreaksDecodeSafety` | common/src/video_receive_router.cpp:73-88 | a concrete run in which the reopened stream first plays an old delta |
| `RouterReopening.OpeningIsSafeExactlyWhenNothingIsLeft` | common/src/video_receive_router.cpp:73-88 | for every run: in every continuation the decoder hears a decodable sequence, and only what the new buffer released, if and only if nothing was on its way at the open |
| `RouterReopening.LeftoverBreaksDecoding` | common/src/video_receive_router.cpp:45-71 | from every open with frames left over there is a continuation the decoder cannot decode |
| `RouterReopening.ClosingAndWaitingLeavesNothing` | common/src/video_receive_router.cpp:90-102 | whatever else happens, a closed stream's queue is empty once `close` is through, and nothing of it is left once the playout thread has handed out what it had taken |
| `RouterDelivery.BufferSeesWhatIsFed` | common/src/video_receive_router.cpp:158-191 | in every interleaving an open stream's buffer is a reorder buffer run on exactly the events fed to it since it was opened |
| `RouterDelivery.EverythingReleasedIsHeard` | common/src/video_receive_router.cpp:45-71 | from every point of every run a stream can catch up, and its decoder has then heard exactly what was left over and all that buffer delivers |
| `KeyframePacing.RequestsArePaced` | common/src/video_receive_router.cpp:193-218 | between keyframes the (i+1)-th request follows the i-th by at least min(base * 2^(i-1), max); the backoff stays in its limits; sent plus paced is the number of calls |
| `KeyframePacing.RequestIsSentExactlyWhenDue` | common/src/video_receive_router.cpp:193-218 | after every run a call goes out if and only if the backoff since the last one sent is over; after a keyframe at once |
| `KeyframePacing.BackoffDoubles` | common/src/video_receive_router.cpp:199-206 | the stored backoff is min(base * 2^n, max) after n requests |
| `KeyframePacing.Pacer.Open` | common/src/video_receive_router.cpp:80-87 | refines opening: counters cleared, first request held one backoff when the time is known, other streams untouched |
| `KeyframePacing.Pacer.Close` | common/src/video_receive_router.cpp:99-101 | the stream's gate and counters are gone, other streams untouched |
| `KeyframePacing.Pacer.RequestKeyframe` | common/src/video_receive_router.cpp:193-210 | refines one request, other streams untouched |
| `KeyframePacing.Pacer.KeyframeArrived` | common/src/video_receive_router.cpp:212-218 | refines the reset of the gate, other streams untouched |
| `PlayoutClock.ObservationGuarantees` | common/src/video_playout.cpp:20-61 | one frame: clock congruent to the stamp; due the shortest transit of the window and the delay after its capture, within the limit without the upper clamp; the delay follows, up at once and down by the decay to the microsecond, the smallest cushion that covers the percentile of the window |
| `PlayoutClock.EveryRunIsGood` | common/src/video_playout.cpp:20-61 | over every run with nondecreasing arrivals every frame gets all of these guarantees |
| `PlayoutClock.WindowIsTheRecentPast` | common/src/video_playout.cpp:34-37 | after every run with nondecreasing arrivals the window holds exactly the samples taken at most the window's length before the newest, in order |
| `PlayoutClock.DelayFollows` | common/src/video_playout.cpp:49-57 | up at once, down by no more and no less than the decay allows, and no further than the target |
| `PlayoutClock.PercentileCovers` | common/src/video_playout.cpp:41-47 | the chosen excess is the smallest cushion under which more than the percentile's share of the window falls |
| `PlayoutClock.UnwrapsTheTrueClock` | common/src/video_playout.cpp:23-31 | the unwrapped clock follows the true capture time across any number of wraps while steps stay under half the range |
| `PlayoutClock.KthIsUnique` | common/src/video_playout.cpp:44-47 | the k-th smallest excess is well defined |
| `PlayoutClock.NthElement` | common/src/video_playout.cpp:44-47 | a selection that does find it |
| `PlayoutClock.VideoPlayoutClock.PlayoutTime` | common/src/video_playout.cpp:20-61 | the whole update refines the observation; an unstamped frame plays on arrival and changes nothing |
| `PlayoutClock.VideoPlayoutClock.Measure` | common/src/video_playout.cpp:23-47 | window, base and percentile of one frame |
| `PlayoutClock.VideoPlayoutClock.Advance` | common/src/video_playout.cpp:23-32 | the unwrapped clock and the transit time |
| `PlayoutClock.VideoPlayoutClock.PruneWindow` | common/src/video_playout.cpp:34-37 | the loop drops exactly the samples that left the window |
| `PlayoutClock.VideoPlayoutClock.SmallestTransit` | common/src/video_playout.cpp:39-40 | the loop finds the smallest transit |
| `VoiceRuns.EveryQueueIsSound` | client/src/voice_mixer.cpp:36-83 | after every run the queue is strictly sorted, duplicate-free, at most 10 long and 0 to 2^15-1 ahead of the slot owed |
| `VoiceRuns.EveryFecIsPaired` | client/src/voice_mixer.cpp:156-183 | every FEC slot is followed by the normal decode of the same packet, unless a push evicted it |
| `VoiceRuns.ConcealmentIsBounded` | client/src/voice_mixer.cpp:109-204 | never more than PLC_MAX_FRAMES concealed slots between two decoded ones |
| `VoiceRuns.PacketsPlayOnceInOrder` | client/src/voice_mixer.cpp:86-205 | packets play in increasing order under one baseline; accepted packets are exactly those played, evicted or still queued |
| `VoiceRuns.ClockNeverRewinds` | client/src/voice_mixer.cpp:44-82 | while a baseline is held the unwrapped slot number never goes back |
| `VoiceRuns.HeadPlaysSoon` | client/src/voice_mixer.cpp:148-204 | from every primed state with something queued the head is decoded within PLC_MAX_FRAMES + 2 slots |
| `VoiceRuns.EverySlotIsWellFilled` | client/src/voice_mixer.cpp:103-205 | a slot is decoded normally if its packet is queued anywhere, recovered by FEC if only the next one is, concealed only if neither is; catch-up and stop exactly at the limits |
| `VoiceRuns.EveryStreamStarts` | client/src/voice_mixer.cpp:106-114 | after every run, a stream not playing stays as it is and silent below the pre-buffer; from it on the next slot decodes the nearest packet and the stream plays |
| `VoiceRuns.EveryStreamStopsAndRestarts` | client/src/voice_mixer.cpp:116-128 | after every run, a playing stream stops exactly when nothing is queued and concealment is used up, and then any packet is taken as a new baseline |
| `VoiceRuns.PushLeavesTheClock` | client/src/voice_mixer.cpp:43-78 | only an eviction while playing moves clock and counter |
| `VoiceJitter.NothingIsStale` | client/src/voice_mixer.cpp:130-145 | in every sound queue the stale-front discard and the concealment after it do nothing |
| `VoiceJitter.EvictionOwesTheHead` | client/src/voice_mixer.cpp:66-78 | after an eviction on a primed stream the head is the packet owed |
| `VoiceJitter.PushKeepsTheNewest` | client/src/voice_mixer.cpp:43-78 | a packet is turned away exactly if it is late or queued; a full queue gives up its oldest packet |
| `VoiceJitter.PushKeeps` | client/src/voice_mixer.cpp:36-83 | a push keeps the queue sound |
| `VoiceJitter.DecodeKeeps` | client/src/voice_mixer.cpp:103-205 | a playout slot keeps the queue sound |
| `VoiceStream.UserStream.InsertionIndex` | client/src/voice_mixer.cpp:53-63 | the backward search finds the one place that keeps the order, or the duplicate |
| `VoiceStream.UserStream.PushPacket` | client/src/voice_mixer.cpp:36-83 | refines a push |
| `VoiceStream.UserStream.DecodeFrame` | client/src/voice_mixer.cpp:103-205 | refines a playout slot, stale-front loop included |
| `SendAccounting.CounterIsExact` | common/src/video_send_controller.cpp:123-149 | in every interleaving each counter is the bytes charged and neither completed nor taken back, never negative, zero when every send is done |
| `SendAccounting.ClampNeverFires` | common/src/video_send_controller.cpp:128-139 | in every interleaving the compare-and-swap clamp leaves its loop at once |
| `SendAccounting.BothSidesCountAlike` | client/src/net_client_msquic.cpp:590-702 | application and transport count the same bytes for the same controller on both transports, the 32-bit count included |
| `SendAccounting.RunConserves` | client/src/app_core.cpp:1622-1651 | charge before send, complete possibly before the call returns, take back on failure: conservation after every step |
| `SendAccounting.BacklogIsBounded` | common/src/video_send_controller.cpp:160-168 | outstanding bytes never exceed the largest allowance so far plus k * M, the two loads of an admission check being separate steps |
| `SendLedger.CounterIsTheBalance` | common/src/video_send_controller.cpp:123-138 | in every interleaving each counter is the bytes the charges put on it less those completions and take-backs gave back |
| `SendLedger.AcceptedSendComesBack` | client/src/net_client_msquic.cpp:123-135 | from every conserved state a frame charged, accepted and completed leaves every counter as it was, and is charged in between |
| `SendLedger.RefusedSendIsTakenBack` | client/src/app_core.cpp:1645-1651 | so does a frame charged and refused |
| `SendLedger.FrameIsAdmittedExactlyWithinTheAllowance` | common/src/video_send_controller.cpp:160-168 | after every run, with either order of the loads, a frame is admitted exactly if what is charged and not given back is within the allowance last set |
| `SendLedger.AdmittedByWhatWasSeen` | common/src/video_send_controller.cpp:160-168 | with other steps in between, by the values the two loads saw |
| `SendLedger.BacklogIsWithinTheLargestAllowance` | common/src/video_send_controller.cpp:340-350 | the backlog bound in terms of the allowances the actions set |
| `BitrateControl.EveryRunIsBounded` | common/src/video_send_controller.cpp:105-119 | over every run the bitrate is at most the ceiling and at least the smaller of the minimum and every ceiling since the reset; the tick's publications are rate-limited |
| `BitrateControl.CleanRunProgresses` | common/src/video_send_controller.cpp:262-274 | on a clean run every closed window brings the bitrate nearer to the ceiling |
| `BitrateControl.CleanWindowProgresses` | common/src/video_send_controller.cpp:262-274 | every clean_windows-th clean window strictly raises the bitrate below the ceiling |
| `BitrateControl.CleanRunConverges` | common/src/video_send_controller.cpp:262-287 | after enough windows the bitrate is the ceiling, and the first tick the rate gate allows publishes it |
| `BitrateControl.CeilingIsPublished` | common/src/video_send_controller.cpp:352-376 | on the ceiling the delta gate never keeps the exact value from being published |
| `BitrateControl.CongestedRoundDecreases` | common/src/video_send_controller.cpp:245-261 | a completed congested round lowers the bitrate to the scaled value or under the goodput, never under the floor |
| `BitrateControl.ScaleShrinks` | common/src/video_send_controller.cpp:22-28 | scaling down by at least half a bit does shrink after rounding |
| `BitrateControl.CeilingReachesTheEncoder` | common/src/video_send_controller.cpp:105-119 | after every run, a new ceiling bounds the published value if and only if the bitrate was above it or the published value was not |
| `BitrateControl.LoweredCeilingCanMissTheEncoder` | common/include/parties/video_send_controller.h:87-89 | a concrete run in which a lowered ceiling leaves the published value above it |
| `BitrateRuns.EveryTickIsAccountedFor` | common/src/video_send_controller.cpp:212-287 | after every run, all that a tick does: a window closes exactly when it is over, only one that completes a round moves the bitrate, down to the goal or up by the factor within the bounds, and the encoder is told exactly if the value is on a bound or far enough from the last and that is long enough ago |
| `BitrateRuns.RoundsAreCounted` | common/src/video_send_controller.cpp:249-273 | after every run the counters are how far the last windows in a row, judged alike, are into a round |
| `BitrateRuns.GateOpensWhenWorth` | common/src/video_send_controller.cpp:352-376 | both publishing gates without the division |
| `BitrateRuns.ScaleIsNearest` | common/src/video_send_controller.cpp:22-28 | scaling rounds to the nearest integer within 32 bits |
| `BitrateControl.RateController.constructor` | common/src/video_send_controller.cpp:43-97 | starts on the ceiling, published, with normalised counts and an empty window |
| `BitrateControl.RateController.SetTargetBitrate` | common/src/video_send_controller.cpp:105-119 | refines a change of the ceiling |
| `BitrateControl.RateController.DoTick` | common/src/video_send_controller.cpp:212-287 | one tick: the queue sampled, an ended window judged by all events in it, the bitrate adapted and published |
| `BitrateControl.RateController.CloseIfOver` | common/src/video_send_controller.cpp:224-284 | opens the first window, closes one that is over, and starts the next with empty counters |
| `BitrateControl.RateController.Record` | common/src/video_send_controller.cpp:127-168 | the counters are those of the events since the window opened |
| `BitrateControl.RateController.OnConnectionStats` | common/src/video_send_controller.cpp:172-210 | packet counts enter the window as differences of two readings, spurious losses taken off; the base round-trip time takes the sample |
| `BaseRtt.BaseRttIsAWindowedMinimum` | common/src/video_send_controller.cpp:195-208 | over every run of samples: the base round-trip time is at most every sample of the last five seconds, and is a sample at most ten seconds and one pause old |
| `BaseRtt.RunIsExact` | common/src/video_send_controller.cpp:195-208 | after every run the two minima are exactly those of the current block and the one before it |
| `CongestionWindow.WindowIsJudgedByItsEvents` | common/src/video_send_controller.cpp:225-243 | a window is congested exactly if its queue never drained, too large a share of its frames was skipped, or a frame was lost on the sender; the goodput is what was acknowledged per second |
| `CongestionWindow.LeastIsStanding` | common/src/video_send_controller.cpp:215-222 | the running minimum is at least a bound exactly if every sample of the window is |
| `CongestionWindow.QueueDelayIsExact` | common/src/video_send_controller.cpp:320-333 | the queueing delay in whole milliseconds, as an inequality of integers |
| `CongestionWindow.GoodputIsExact` | common/src/video_send_controller.cpp:233-237 | the goodput in whole bits per second, as an inequality of integers |
| `CongestionWindow.LossRatioIsOfTheWindow` | common/src/video_send_controller.cpp:227-229 | the loss ratio is that of the packets of the window |
| `CongestionWindow.InFlightUs` | common/src/video_send_controller.cpp:335-338 | between one and two and a half round trips |
| `BitrateControl.RateController.CloseCongested` | common/src/video_send_controller.cpp:245-261 | refines closing a congested window |
| `BitrateControl.RateController.CloseClean` | common/src/video_send_controller.cpp:262-274 | refines closing a clean window |
| `BitrateControl.RateController.PublishIfNeeded` | common/src/video_send_controller.cpp:352-376 | refines the two gates |
| `BitrateControl.RateController.TakeBitrateUpdate` | common/src/video_send_controller.cpp:295-299 | hands out a pending value once |
| `EchoRing.NoReferenceIsTorn` | client/src/echo_canceller.cpp:87-206 | in every interleaving of single loads and stores each reference used is exactly the published frame of its number, all its samples pushed since its epoch was adopted, in ascending order within an epoch |
| `EchoRing.RunKeeps` | client/src/echo_canceller.cpp:87-206 | the ring holds every frame less than a lap behind the writer, after every step |
| `EchoRing.QuietCaptureUsesTheFrame` | client/src/echo_canceller.cpp:184-206 | from any reachable point before an undisturbed copy, exactly that frame is used |
| `EchoRing.EveryReferenceIsHeldBack` | client/src/echo_canceller.cpp:124-205 | in every interleaving, before each use exactly REFERENCE_DELAY_FRAMES captures were let pass since the last new epoch, missing reference or lap |
| `EchoRuns.NewEpochIsUsedAfterTheDelay` | client/src/echo_canceller.cpp:131-206 | from every reachable point where a new epoch is announced and its first frame published, captures left to themselves hold back exactly the delay and then use that frame |
| `EchoRuns.EachCaptureUsesTheNextFrame` | client/src/echo_canceller.cpp:131-206 | from then on each capture uses the next frame |
| `EchoRuns.CallFindsNothing` | client/src/echo_canceller.cpp:149-158 | a capture whose frame is not there uses nothing and owes the whole delay again |
| `EchoRuns.CallFindsALap` | client/src/echo_canceller.cpp:174-182 | a lapped capture uses nothing and starts over at the newest frame |
| `EchoRuns.CopyFindsALap` | client/src/echo_canceller.cpp:198-205 | so does one lapped during its copy |
| `EchoRuns.PublishedIsWhatWasPushed` | client/src/echo_canceller.cpp:98-122 | in every interleaving the published frames and the one being filled are exactly the samples pushed, less a frame given up for a new epoch |
| `EchoRuns.FullFrameIsPublished` | client/src/echo_canceller.cpp:87-96 | after every run a full frame is published as it is |
| `EchoRuns.PlaybackAnnouncesTheEpoch` | client/src/echo_canceller.cpp:103-110 | a callback that finds a new epoch announces it as beginning with the next frame |
| `EchoRing.SlotsApart` | client/src/echo_canceller.cpp:87-92 | frames less than a ring apart never share a slot |
| `Framing.RoundTrip` | client/src/net_client_parsing.h:22-82 | any list of valid bodies, encoded and cut anyhow, parses to exactly that list, on both streams |
| `Framing.EveryPieceLeavesAStrictPrefix` | client/src/net_client_parsing.h:22-82 | after each piece whole frames are out and a strict prefix of the next is kept |
| `Framing.ChunkingIsIrrelevant` | client/src/net_client_parsing.h:57-82 | without an invalid length the cut never matters |
| `Framing.CutMattersExactlyBehindAnError` | client/src/net_client_parsing.h:28-39 | every cut gives the same bodies and the same kept bytes if and only if no byte follows a readable invalid length |
| `Framing.ErrorRecoveryDependsOnTheCut` | client/src/net_client_parsing.h:64-72 | two cuts of the same bytes with different results |
| `Framing.BodiesBeforeAnErrorStay` | client/src/net_client_parsing.h:57-82 | what precedes an invalid length is delivered under every cut |
| `Framing.ParseResumes` | client/src/net_client_parsing.h:22-53 | parsing may stop anywhere and go on with what was kept |
| `Framing.MessagesRoundTrip` | client/src/net_client_msquic.cpp:534-557 | control messages arrive as the same messages, in order, under every cut |
| `Framing.ParseEncoded` | client/src/net_client_msquic.cpp:590-611 | parsing inverts the sender's framing |
| `Framing.StreamParser.Process` | client/src/net_client_parsing.h:22-82 | one piece: the kept bytes and the piece are parsed as one |
| `Framing.ParseBuffer` | client/src/net_client_parsing.h:28-53 | the loop that takes frames off the front refines the recursive parser |
| `WatchSet.EveryRunIsConsistent` | client/src/app_core.cpp:1222-1516 | after every handler, on both kinds of platform: open streams are the watched ones, the primary is one of them, the sound is on exactly if a screen is watched and then on one |
| `WatchSet.EveryCallIsHonoured` | client/src/app_core.cpp:1222-1516 | in every run every call does what was asked: watching leaves the stream watched, primary and with the sound where that is its place, beside the others or instead of them; removing leaves exactly the others; stopping leaves none |
| `WatchSet.DecodersFollow` | client/src/app_core.cpp:1264-1389 | with many decoders, over every run: exactly the watched streams have one after every call if and only if no `set_single_watched` changes what is watched |
| `WatchSet.SingleCanLeaveADecoder` | client/src/app_core.cpp:1375-1389 | a run in which it does, and the old decoder stays |
| `WatchSet.OneDecoderIsLeftAlone` | client/src/app_core.cpp:1222-1516 | with one decoder no handler starts a stream decoder, over every run |
| `WatchSet.OneAtATime` | client/src/app_core.cpp:1222-1259 | with one decoder at most one stream is watched |
| `WatchSet.Viewer.WatchSharer` | client/src/app_core.cpp:1222-1259 | refines the single-select handler |
| `WatchSet.Viewer.AddWatch` | client/src/app_core.cpp:1263-1296 | refines the additive handler |
| `WatchSet.Viewer.RemoveWatch` | client/src/app_core.cpp:1320-1350 | refines removal, with any choice of the next primary |
| `WatchSet.Viewer.RefocusStreamAudio` | client/src/app_core.cpp:1354-1367 | the sound moves to a watched screen if there is one, else nowhere |
| `WatchSet.Viewer.ToggleWatch` | client/src/app_core.cpp:1369-1373 | removes what is watched, adds what is not |
| `WatchSet.Viewer.SetSingleWatched` | client/src/app_core.cpp:1375-1389 | exactly the given stream is watched, or none |
| `WatchSet.Viewer.StopWatching` | client/src/app_core.cpp:1397-1423 | everything torn down, every watched decoder stopped |
| `WatchSet.Viewer.ClearAllSharers` | client/src/app_core.cpp:1490-1516 | the same, and nothing is on offer any more |

## Left out

- SendAccounting.RunConserves: the counters are modelled as a machine of atomic steps on values, not as a class, because the interleaving of threads is the point; `clear_outstanding` and `reset` racing with sends in flight are not modelled (the code calls the former only when nothing is in flight).
- SendAccounting.BacklogIsBounded: the allowance is an arbitrary nonnegative value per change; the arithmetic of `refresh_allowance` is not modelled.
- BitrateControl.RateController.DoTick: the bytes outstanding are an input, the window counters are read in one step, and factors are real numbers rather than doubles.
- PlayoutClock.NthElement: stands for the standard library's selection; the percentile is a real number.
- EchoRing.NoReferenceIsTorn: single loads and stores as steps on values under sequential consistency; weaker memory orders, the Speex call and the sample conversions are not modelled. A reader can be disturbed at any step, so no progress is claimed while playback keeps lapping it.
- RouterRuns.HeardIsAPrefix: critical sections as steps on values; the inline mode without a playout thread, the condition variable, delivery counters and `close_all` (successive closes) are not modelled.
- ReorderBuffer.VideoFrameReorderBuffer.OnFrame: the ordered map is a pair of parallel sequences in iteration order, and the three keyframe-in-flight fields are one optional value; null callbacks are not modelled.
- ReorderCompleteness.DeliversTheLongestRun: stated for one keyframe and at most 2^31 - 1 deltas after it, without aborts; all other runs are covered by the safety and recovery theorems.
- Framing.MessagesRoundTrip: a message over the accepted length, which the sender would emit and the receiver would refuse, is outside the round trip.
- Integers are unbounded except where wrap-around matters; microsecond clocks, byte counters and epoch counters are not cut to 64 bits.
- Opus decoding results, playout statistics, stream creation and removal, and the PCM loop of `mix_output`.
- `should_request_keyframe`, the decoder's own keyframe wishes and the per-tick candidates of `tick`: they only decide who calls the paced request, and every caller is covered.
- MsQuic, TLS, handle lifetimes, connection setup; one completion per accepted send and none for a refused one is taken from its contract.
- Network messages, user-interface models, reconnection, login, chat and the camera handlers around the watch set.
- Database, settings, crypto, codec factories, logging, serialization and the server query: wrappers or easy round trips.
