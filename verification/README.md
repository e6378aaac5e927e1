# Verified model of the mesh audio firmware

Wearable nodes talk over an nRF radio mesh; an ESP processor beside each radio encodes and plays the audio. This
project models the parts of the firmware that keep the audio and the mesh correct, and proves what they guarantee
over whole runs. `dafny verify dfyconfig.toml` checks everything.

| part | files | what it is about |
|---|---|---|
| Playout | `JitterSpec`, `JitterRuns`, `JitterPlayout`, `PacketStore` | the sixteen-slot jitter buffer with 16-bit sequence numbers, against a store over unbounded numbers |
| Resampling | `ResamplerSpec`, `ResamplerShape`, `ResamplerRuns`, `PcmResampler` | the PI-controlled fractional reader of a 2880-sample ring, against one unbounded sample stream |
| Bundles and airtime | `AudioBundle`, `Airtime` | the redundant audio bundle, its in-place stripping, and the choice of what still fits a slot |
| Slot transmitter | `SlotSpec`, `SlotRuns`, `SlotService`, `SlotLedger`, `SlotTransmitter`, `Rings` | which local or relayed frame a TDMA slot sends, and when a frame may be skipped |
| TDMA clock | `TdmaSpec`, `TdmaRuns`, `TdmaVerdicts`, `TdmaClock` | late ticks, rate and phase correction, acquisition and the frame history |
| Membership | `SlotMaps`, `Membership`, `Election`, `PeerSpec`, `PeerRuns`, `PeerLiveness`, `PeerTable`, `CoordinatorMaps`, `Handshake` | the event reducer, the election, the coordinator's peer table and the slot maps it publishes |
| Control queue | `ControlSpec`, `ControlAdmission`, `ControlAgeing`, `ControlRuns`, `ControlQueue`, `ControlLink` | the ESP-NOW control queue with coalescing, eviction and ageing, and the heard and relayed bits it must not lose |
| SPI bridge | `BridgeFrame`, `BridgePipe`, `BridgeLink`, `BridgeService`, `BridgeTx`, `NrfQueue` | framing with CRC, stop-and-wait with resending, and the queue in the other direction |
| Duplicate filter | `Dedupe` | the ring of recently accepted packet keys |

Code that updates a structure in place is a class with the source's fields and methods; each method is proved equal to
a function on values, and the theorems are about those functions and about every run of them. Each critical section,
mutex hold or interrupt body is one atomic step. Time, radio acceptance, transfer success, mutex availability and the
upstream sample count are inputs.

The main results are `JitterRuns.PlaysInOrderOnce` with `JitterPlayout.WaitingPacketPops`, `ResamplerRuns.OneStream`,
`SlotLedger.EveryFrameAccounted` with `SlotService.DeferralDelivers`, `TdmaRuns.ClockLedger`,
`TdmaRuns.SyncSeparatesWindows`, `Election.ElectionOutcome`, `Handshake.ScannerBecomesMember`, `PeerRuns.RunKeepsInv`
with `PeerLiveness.HeardPeerStays` and `PeerLiveness.SilentPeerGoes`, `CoordinatorMaps.PeersAgree`,
`ControlRuns.NothingIsLost`, `ControlAgeing.OverduePacketLeaves`, `BridgeLink.AcceptedInOrder` with
`BridgeService.FirstFreshIsSent`, `BridgeLink.SlotsConserved` and `BridgeFrame.OneByteCorruptionDetected`.

Five expectations are false of the code; each has its exact condition and an input that fails:

- A coordinator with an all-zero address never wins an election, because its SYNC is ignored
  (`Election.AllZeroNeverWins`); every other lowest address does (`Election.ElectionOutcome`).
- A slot map built while a grant names a node that has left is refused by every participant, and a LEAVE keeps the
  grant (`CoordinatorMaps.DepartedSpeakerSpoilsMap`); exactly the maps with compact, distinct, announced grants are
  accepted (`CoordinatorMaps.BuiltMapVerdict`).
- The bridge receiver takes a new frame for a repeat exactly when a multiple of 256 frames has passed since the last
  accepted one (`BridgeLink.RepeatOrAlias`); a run with 255 control frames between two audio frames acknowledges the
  second and never accepts it (`BridgeLink.AliasedFrameIsLost`).
- The nRF removes an unsent packet after a transfer exactly when a positive multiple of sixteen packets was dropped
  during it (`NrfQueue.UnsentRemoved`), as sixteen arrivals at a full queue do (`NrfQueue.SixteenArrivalsLoseOne`).
- A source that holds too much is read slower than nominal exactly when the integrator outweighs the error by a whole
  ppm (`ResamplerSpec.CorrectionFollowsError`), as after 43 seconds one sample short of the target
  (`ResamplerRuns.LaggingIntegrator`).

Where a comment and the code differ the code is followed: the head comment of `components/uart_bridge/bridge_tx.c`
says a slot is released only by the ACK pulse, while the timeout and the purge release it as well.

## Model

| member | source | states |
|---|---|---|
| JitterRuns.PlaysInOrderOnce | components/audio/audio_packet_store.c:76-260 | over every run of pushes and pops in sequenced mode the frames handed out have strictly increasing unwrapped numbers, are the accepted packets unaltered, and every accepted packet was handed out or still waits |
| JitterRuns.PushKeepsInv | components/audio/audio_packet_store.c:76-164 | a push never lands on an accepted number nor behind a delivered one; anything but OK changes nothing; start moves and rewinds keep the window |
| JitterRuns.PopKeepsInv | components/audio/audio_packet_store.c:186-220 | a pop hands out exactly the packet accepted under the next number and keeps the window, the miss count of at most five and the history |
| JitterRuns.ApplyKeepsInv | components/audio/audio_packet_store.c:76-260 | every operation in every mode keeps the store invariant |
| JitterRuns.RunKeepsInv | components/audio/audio_packet_store.c:76-260 | every reachable store satisfies it |
| JitterRuns.OutputsAreDelivered | components/audio/audio_packet_store.c:222-260 | the delivered history is exactly the output of the pops |
| JitterRuns.AcceptedNumbersMatch | components/audio/audio_packet_store.c:103-155 | every accepted packet carries the 16-bit number it is filed under |
| JitterRuns.RewindStaysAhead | components/audio/audio_packet_store.c:103-121 | in playout the start moves back only through the rewind of an empty store, by at most five, and stays ahead of everything delivered |
| JitterRuns.WaitingPacketPlays | components/audio/audio_packet_store.c:186-220 | a waiting packet plays on exactly the pop its distance says |
| JitterPlayout.GateOpens | components/audio/audio_packet_store.c:222-239 | a store that has not started stays shut, unchanged, exactly until it holds three packets or its deadline has come, and then pops as a started one with its first frame due now |
| JitterPlayout.FirstPushOpensGate | components/audio/audio_packet_store.c:99-164 | nothing comes out of an empty store; the first packet fixes mode, number to play and a deadline 60 ms ahead |
| JitterPlayout.ReadyPlays | components/audio/audio_packet_store.c:186-202 | a started store with the next packet at hand plays it at any time and moves on by one frame of 20 ms |
| JitterPlayout.EarlyWaits | components/audio/audio_packet_store.c:241-251 | without it nothing happens before the deadline and 40 ms |
| JitterPlayout.LateMisses | components/audio/audio_packet_store.c:204-260 | from then on the frame is given up, as a miss, or idly when the store is idle and nothing waits |
| JitterPlayout.ArrivalPlays | components/audio/audio_packet_store.c:166-184 | in arrival order the head plays whenever there is one, and otherwise the same wait applies |
| JitterPlayout.WaitingPacketPops | components/audio/audio_packet_store.c:186-260 | over any run of pops that come 40 ms after their deadlines a waiting packet plays on the pop its distance says, whatever is missing before it |
| JitterPlayout.SilenceAfterLast | components/audio/audio_packet_store.c:193-220 | after the last packet come five misses and then idleness, or idleness at once if it was inactive |
| JitterPlayout.GapIsCorrected | components/audio/audio_packet_store.c:106-121 | after five misses in a row a packet with one of the missed numbers is taken, is next, and plays at once |
| JitterPlayout.PushRefusals | components/audio/audio_packet_store.c:76-98 | which pushes are refused for argument, length, mode or a full queue, in that order, each without a change |
| JitterPlayout.AheadVerdict | components/audio/audio_packet_store.c:103-162 | a packet ahead of playout is taken unless it is sixteen or more ahead, which is Future, or already accepted, which is Duplicate |
| JitterPlayout.BehindVerdict | components/audio/audio_packet_store.c:103-134 | a packet behind playout is taken in exactly two cases, before playout or to correct a silent gap; otherwise it is a Duplicate if just played and Late if not |
| JitterPlayout.ArrivalPlaysAll | components/audio/audio_packet_store.c:91-184 | over every run in arrival order what was accepted is what was handed out followed by what waits |
| PacketStore.ShiftedBits | components/audio/audio_packet_store.c:21-34 | shifting the history moves every bit by one and records the new frame |
| PacketStore.HistoryAdvances | components/audio/audio_packet_store.c:21-44 | the 16-bit history keeps saying which of the last sixteen frames were played |
| PacketStore.PushDistances | components/audio/audio_packet_store.c:103-121 | the two wrapping subtractions of push decide ahead, behind and age correctly in unwrapped numbers |
| PacketStore.WindowRoom | components/audio/audio_packet_store.c:137-155 | a window with a free number is not full, so the full branch is not reached |
| PacketStore.HoldsInsert | components/audio/audio_packet_store.c:137-155 | filing a packet in slot number mod 16 overwrites no other packet of the window |
| PacketStore.HoldsRemove | components/audio/audio_packet_store.c:186-205 | freeing the slot of the next number removes exactly that packet |
| PacketStore.HoldsAt | components/audio/audio_packet_store.c:137-145 | an occupied slot of a number in the span holds that very packet, so a collision is a true duplicate |
| PacketStore.CanMoveStartSlots | components/audio/audio_packet_store.c:46-62 | the slot scan answers whether the window still spans all packets from an older start |
| PacketStore.AudioPacketStore.constructor | components/audio/audio_packet_store.c:64-69 | a reset store is the empty store |
| PacketStore.AudioPacketStore.WasDelivered | components/audio/audio_packet_store.c:36-44 | the bitmap test answers whether the number was played since the last start move |
| PacketStore.AudioPacketStore.Push | components/audio/audio_packet_store.c:76-164 | acts as the unbounded store does, result by result; a refused push changes nothing |
| PacketStore.AudioPacketStore.PushSequenced | components/audio/audio_packet_store.c:103-155 | the sequenced branch acts as the unbounded window does |
| PacketStore.AudioPacketStore.PushArrival | components/audio/audio_packet_store.c:91-98 | the arrival-order branch appends to a queue of at most sixteen |
| PacketStore.AudioPacketStore.PopArrival | components/audio/audio_packet_store.c:166-184 | hands out the head of the arrival queue, or a miss, or idle |
| PacketStore.AudioPacketStore.PopSequenced | components/audio/audio_packet_store.c:186-220 | acts as the unbounded pop does |
| PacketStore.AudioPacketStore.Pop | components/audio/audio_packet_store.c:222-260 | gate, deadline and dispatch act as the unbounded store does |
| ResamplerSpec.UpdatedStaysBounded | components/audio/audio_pcm_resampler.c:51-86 | the filter moves toward the depth without passing it, the integrator stays within 1000 ppm, the correction within its limits, no 32-bit field overflows |
| ResamplerSpec.CorrectionOpposesError | components/audio/audio_pcm_resampler.c:51-86 | as long as the integrator has the sign of the error or is zero, it keeps that, and a source that is too full is not read slower than nominal, one that is too empty not faster |
| ResamplerSpec.CorrectionSign | components/audio/audio_pcm_resampler.c:51-86 | whatever the integrator, the source is read at nominal speed or faster if and only if the sum of the proportional and the integral part exceeds -1 ppm, and at nominal speed or slower if and only if it is below 1 ppm |
| ResamplerSpec.CorrectionFollowsError | components/audio/audio_pcm_resampler.c:51-86 | told from the state before the call: a source not too empty is read slower than nominal, one not too full faster, if and only if the integrator outweighs 5124 times the filtered error by a whole ppm |
| ResamplerSpec.StepBounds | components/audio/audio_pcm_resampler.c:210-213 | the step lies between 0.999 and 1.02 samples |
| ResamplerSpec.InterpolateBetween | components/audio/audio_pcm_resampler.c:93-100 | every interpolated sample lies between its two neighbours |
| ResamplerShape.InterpolateLinear | components/audio/audio_pcm_resampler.c:93-100 | an interpolated sample lies on the line from the first to the second, less than a unit off and rounded toward the first |
| ResamplerShape.OutputOnLine | components/audio/audio_pcm_resampler.c:241-262 | so does every output of a block, and under a fade in every output lies on the ramp to that line |
| ResamplerShape.FadeToZeroOnLine | components/audio/audio_pcm_resampler.c:102-114 | an underrun fades along the line from the last output to zero |
| ResamplerShape.FilterClosesGap | components/audio/audio_pcm_resampler.c:67-68 | each update closes an eighth of the gap between filtered and measured depth |
| ResamplerShape.FilterSettles | components/audio/audio_pcm_resampler.c:67-68 | at a steady depth the filter settles within 7/256 of a sample |
| ResamplerShape.CorrectionTracks | components/audio/audio_pcm_resampler.c:69-86 | the correction is 20 ppm for each sample of error plus the integrator, cut off at -1000 and at 1000 or, while audio waits upstream, 20000 ppm |
| ResamplerShape.IntegratorMoves | components/audio/audio_pcm_resampler.c:72-82 | the integrator moves by four times the error up to 1000 ppm, and stays only while the correction is cut off on the side of the error |
| ResamplerShape.StepTracks | components/audio/audio_pcm_resampler.c:210-213 | one ppm of correction is a millionth of a sample an output |
| ResamplerShape.PushAppends | components/audio/audio_pcm_resampler.c:136-176 | a push appends its samples, all with its activity, or nothing when they do not all fit |
| ResamplerShape.SilentBeforeStart | components/audio/audio_pcm_resampler.c:199-208 | nothing plays before 1280 samples are there |
| ResamplerShape.PlaysOrUnderruns | components/audio/audio_pcm_resampler.c:213-222 | a running render underruns exactly if its last output lacks a neighbour |
| ResamplerShape.PlayedMoves | components/audio/audio_pcm_resampler.c:241-273 | a block that plays moves the position by 320 steps under the updated controller |
| ResamplerShape.UnderrunRestarts | components/audio/audio_pcm_resampler.c:222-238 | an underrun fades out, drops the fraction of a sample and starts over with controller and fade |
| ResamplerShape.ReportsAudible | components/audio/audio_pcm_resampler.c:249-262 | a block is reported audible exactly if an output gives weight to an active sample |
| ResamplerShape.ReportsChange | components/audio/audio_pcm_resampler.c:178-273 | the rest of the report agrees with the change of state |
| ResamplerSpec.RenderConsumes | components/audio/audio_pcm_resampler.c:213-266 | a successful render consumes 319 to 327 samples and never more than there are |
| ResamplerSpec.FirstBlockPlays | components/audio/audio_pcm_resampler.c:178-220 | 328 samples always suffice for a block, so a source started with 1280 samples does not underrun on its first one |
| ResamplerSpec.RenderKeepsInv | components/audio/audio_pcm_resampler.c:178-273 | every render keeps depth, stream and controller bounds |
| ResamplerRuns.OneStream | components/audio/audio_pcm_resampler.c:136-273 | over every run pushed equals consumed plus depth, every output of every block lies less than a unit off the straight line between the two pushed samples around start plus i times step, or less than two off the ramp to it while fading in, and blocks chain without gap or overlap except the fraction an underrun drops |
| ResamplerRuns.SeamlessBlocks | components/audio/audio_pcm_resampler.c:241-266 | two blocks at one step without an underrun between them read as one |
| ResamplerRuns.LaggingIntegrator | components/audio/audio_pcm_resampler.c:136-273 | a run of pushes and renders from a fresh source, all but the first block below target, after which a source of 1300 samples, more than the target, is read slower than nominal |
| PcmResampler.RequiredCovers | components/audio/audio_pcm_resampler.c:213-220 | the required-samples test is exactly that every output has both neighbours |
| PcmResampler.AppendHolds | components/audio/audio_pcm_resampler.c:155-170 | writing at the write index keeps the ring equal to the unconsumed stream |
| PcmResampler.AudioPcmResampler.Push | components/audio/audio_pcm_resampler.c:136-176 | appends the samples to the stream or refuses them all |
| PcmResampler.AudioPcmResampler.UpdateController | components/audio/audio_pcm_resampler.c:51-86 | computes the specified controller from the fields in place |
| PcmResampler.AudioPcmResampler.RenderFadeToZero | components/audio/audio_pcm_resampler.c:102-114 | writes the linear fade from the last output to zero |
| PcmResampler.AudioPcmResampler.RenderBlock | components/audio/audio_pcm_resampler.c:241-262 | the sample loop over ring and phase writes the block the stream defines |
| PcmResampler.AudioPcmResampler.Render | components/audio/audio_pcm_resampler.c:178-273 | output, state and telemetry of every render are those of the stream reader |
| AudioBundle.ParseEncode | shared/audio_bundle.c:49-147 | parsing inverts encoding on every valid bundle |
| AudioBundle.EncodeParse | shared/audio_bundle.c:92-147 | everything accepted is the encoding of the valid bundle returned |
| AudioBundle.StrippedValid | shared/audio_bundle.c:149-179 | a bundle without its oldest frame is valid and keeps the activity of the others |
| AudioBundle.ClearedFlags | shared/audio_bundle.c:149-179 | clearing one frame's flag bits leaves the other tests as they were |
| AudioBundle.EncodeInto | shared/audio_bundle.c:49-90 | writes the encoding and nothing behind it, or refuses and writes nothing |
| AudioBundle.StripOldest | shared/audio_bundle.c:149-179 | in place gives the encoding of the bundle without its oldest frame |
| Airtime.FitAirtime | shared/mesh_core.c:275-294 | returns the first candidate that fits, or -1 when none does |
| Airtime.CandidatesAreLengths | nrf_mesh/src/mesh_protocol_audio.c:706-723 | the lengths computed from the view are the real lengths after each strip |
| Airtime.FewestIsUnique | shared/mesh_core.c:275-294 | there is one fewest number of strips that fits |
| Airtime.ChooseStrips | nrf_mesh/src/mesh_protocol_audio.c:706-723 | the candidate scan finds it |
| SlotRuns.SlotAccountsForEveryFrame | nrf_mesh/src/mesh_protocol_audio.c:820-917 | a slot leaves the local queue alone, or removes its head after attempting it, or removes two entries and then the bundle the radio has just accepted carries the skipped frame byte for byte with its activity |
| SlotLedger.EveryFrameAccounted | nrf_mesh/src/mesh_protocol_audio.c:820-1004 | over every run of arrivals and slots each local frame ever enqueued is still queued, was attempted itself, was delivered byte for byte with its activity by a transmission of its successor that the radio accepted, or was dropped as the oldest of a full ring; they leave in the order they came |
| SlotLedger.SlotRemoves | nrf_mesh/src/mesh_protocol_audio.c:820-917 | a slot removes at most two entries, from the front, and what it removed was attempted last or delivered by the successor |
| SlotRuns.SuccessorDelivers | nrf_mesh/src/mesh_protocol_audio.c:545-569 | a successful successor transmission delivers the frame it skips |
| SlotRuns.RetainedPrevious | nrf_mesh/src/mesh_protocol_audio.c:725-751 | a bundle that must retain its last frame is never sent without it |
| SlotRuns.FailedSuccessorKeepsBoth | nrf_mesh/src/mesh_protocol_audio.c:858-885 | a failed successor removes neither entry and the next local slot takes the tail |
| SlotRuns.LocalPacketsFit | nrf_mesh/src/mesh_protocol_audio.c:681-770 | every bundle sent fits the remaining time plus margin and keeps the most predecessors that fit |
| SlotRuns.RelayPacketsFit | nrf_mesh/src/mesh_protocol_audio.c:571-679 | the same for relayed bundles, with a header length that matches |
| SlotRuns.ContendedSlot | nrf_mesh/src/mesh_protocol_audio.c:839-895 | in a contended slot the turn decides who is served, and passes on |
| SlotRuns.LocalWithinTwo | nrf_mesh/src/mesh_protocol_audio.c:839-895 | any two consecutive contended slots include a local attempt |
| SlotRuns.RelayWithinThree | nrf_mesh/src/mesh_protocol_audio.c:839-895 | any three include a relay service, whatever fails or falls back |
| SlotRuns.FeedKeepsTurn | nrf_mesh/src/mesh_protocol_audio.c:975-1004 | arrivals change neither the turn nor create a deferral |
| SlotService.FitsInTime | shared/mesh_core.c:269-294 | a packet needs 4 us a byte and 173 us on the air, and 100 us to spare |
| SlotService.AttemptOutcome | nrf_mesh/src/mesh_protocol_audio.c:753-818 | an attempt succeeds exactly if something was handed to the radio and the radio took it |
| SlotService.BundleAttempt | nrf_mesh/src/mesh_protocol_audio.c:681-770 | a bundle is handed over exactly if an allowed number of strips makes it fit, with the fewest such; only one that must retain its last frame and cannot falls back |
| SlotService.PlainAttempt | nrf_mesh/src/mesh_protocol_audio.c:783-803 | a plain frame goes out behind its four-byte header, but never in place of another |
| SlotService.GarbledAttempt | nrf_mesh/src/mesh_protocol_audio.c:697-700 | what is no valid bundle fails without being sent |
| SlotService.RelayHandsOver | nrf_mesh/src/mesh_protocol_audio.c:571-590 | a relayed packet of another type goes out unchanged; of audio bundles only well-formed ones do |
| SlotService.RelayBundleHandsOver | nrf_mesh/src/mesh_protocol_audio.c:590-655 | such a bundle is handed over exactly if some number of strips makes it fit, unchanged if none is needed |
| SlotService.ActiveTail | nrf_mesh/src/mesh_protocol_audio.c:531-543 | a tail is active exactly if it is a bundle whose lowest flag is set |
| SlotService.TriesMeetRadio | nrf_mesh/src/mesh_protocol_audio.c:820-917 | every transmission meets the radio of its own call and succeeds exactly if that took it |
| SlotService.TwoLeave | nrf_mesh/src/mesh_protocol_audio.c:858-885 | two entries leave if and only if the proven successor was handed over and the radio took it |
| SlotService.TailServed | nrf_mesh/src/mesh_protocol_audio.c:849-895 | without a deferral the tail is attempted and leaves, and relays get the next contended turn |
| SlotService.RelayServed | nrf_mesh/src/mesh_protocol_audio.c:839-900 | a relayed packet is served when the tail defers to it or nothing local is pending, and never otherwise |
| SlotService.DeferralDelivers | nrf_mesh/src/mesh_protocol_audio.c:839-885 | an active bundle waits while a relayed packet is served, and in the next slot its successor, which carries the same frame, takes both off the queue |
| SlotService.IngressAppends | nrf_mesh/src/mesh_protocol_audio.c:975-1004 | a new local frame goes behind the others, and a full ring loses its oldest and with it any deferral |
| SlotService.RelayKeepsNewest | nrf_mesh/src/mesh_protocol_audio.c:344-367 | the relay queue keeps exactly the newest fifteen packets, in order |
| SlotTransmitter.StripForSlot | nrf_mesh/src/mesh_protocol_audio.c:725-751 | the strip loop gives the encoding after that many strips, or gives up before the last frame would go |
| SlotTransmitter.TransmitLocalEntry | nrf_mesh/src/mesh_protocol_audio.c:681-818 | outcome and payload are the specified attempt |
| SlotTransmitter.BuildRelayPacket | nrf_mesh/src/mesh_protocol_audio.c:571-679 | the bytes handed to the radio are the specified ones |
| SlotTransmitter.Transmitter.Ingress | nrf_mesh/src/mesh_protocol_audio.c:975-1004 | the ring keeps the newest fifteen frames; dropping the tail forgets a deferral |
| SlotTransmitter.Transmitter.EnqueueRelay | nrf_mesh/src/mesh_protocol_audio.c:344-367 | refuses an exhausted TTL and a wrong length with everything unchanged; otherwise the ring keeps the newest fifteen packets, the new one with its TTL and flags rewritten and nothing else |
| SlotTransmitter.Transmitter.LocalTailIsActive | nrf_mesh/src/mesh_protocol_audio.c:531-543 | answers whether the tail is an active bundle, and its number |
| SlotTransmitter.Transmitter.DeferredTailHasProvenSuccessor | nrf_mesh/src/mesh_protocol_audio.c:545-569 | answers whether the next entry carries the deferred tail |
| SlotTransmitter.Transmitter.TransmitRelayEntry | nrf_mesh/src/mesh_protocol_audio.c:571-679 | the relay tail leaves the ring whatever the radio says |
| SlotTransmitter.Transmitter.ServeSuccessor | nrf_mesh/src/mesh_protocol_audio.c:858-885 | success removes two entries, failure none and resets the turn |
| SlotTransmitter.Transmitter.ServeLocal | nrf_mesh/src/mesh_protocol_audio.c:849-895 | the local branch acts as the specified slot |
| SlotTransmitter.Transmitter.SlotTxHandler | nrf_mesh/src/mesh_protocol_audio.c:820-917 | queues, turn, deferral and transmissions of a slot are the specified ones |
| Rings.RingPush | nrf_mesh/src/mesh_protocol_audio.c:975-1004 | writing at the head appends to the queue and disturbs no queued element |
| Rings.RingPop | nrf_mesh/src/mesh_protocol_audio.c:516-529 | advancing the tail removes the oldest element |
| TdmaRuns.ClockLedger | nrf_mesh/src/tdma.c:226-437 | over every run the next deadline is the acquired epoch plus 20 ms per frame plus the corrections applied, at most 2 ms is pending, and rate corrections plus residual equal the drift exactly |
| TdmaRuns.TickKeepsLedger | nrf_mesh/src/tdma.c:226-359 | a tick, however late, moves the epoch only by what it applies, re-arms after now and counts every skipped frame |
| TdmaRuns.RateLedger | nrf_mesh/src/tdma.c:121-127 | whole corrections and residual lose nothing of the drift |
| TdmaRuns.AcquireAdoptsEpoch | nrf_mesh/src/tdma.c:361-433 | acquisition adopts the sender's epoch exactly and arms a boundary in the future |
| TdmaRuns.SyncKeepsLedger | nrf_mesh/src/tdma.c:611-659 | each verdict on a SYNC keeps the ledger and does what it says to the epoch |
| TdmaRuns.LookupExact | nrf_mesh/src/tdma.c:103-113 | a counter of one of the recorded last sixteen frames finds its boundary |
| TdmaRuns.LookupMisses | nrf_mesh/src/tdma.c:103-113 | any other counter finds none |
| TdmaRuns.HistoryExtends | nrf_mesh/src/tdma.c:93-101 | the history stays a list of consecutive frames through skipped ones |
| TdmaRuns.EpochOfBoundary | nrf_mesh/src/tdma.c:93-113 | a recorded boundary gives the epoch to within a quantum for each frame since and one more |
| TdmaRuns.PhaseErrorIsApplied | nrf_mesh/src/tdma.c:280-313 | without drift and with ticks less than 19.9 ms late a phase error is worked off a quantum a frame down to less than one quantum, and the epoch moves by exactly what is worked off |
| TdmaRuns.DriftIsFollowed | nrf_mesh/src/tdma.c:280-313 | with a drift correction running beside it nothing of either is lost: epoch and pending together move by the rate corrections, which are the drift of all frames, and what is pending of a phase error falls by a quantum less the rate each frame |
| TdmaRuns.SyncBoundsEpoch | nrf_mesh/src/tdma.c:611-659 | a SYNC that adjusts the phase leaves exactly the measured phase pending, and the epoch with it lies within a quantum per frame since the reference boundary, and one more, of the sender's |
| TdmaRuns.SyncTracksSender | nrf_mesh/src/tdma.c:611-659 | however the sender's oscillator drifts, receiver and sender begin each frame after a phase-adjusting SYNC within a quantum per frame the SYNC is old and one more, the time-stamp error, what is still pending, and the drift the SYNC did not announce |
| TdmaRuns.SyncSeparatesWindows | nrf_mesh/src/tdma.c:611-659 | as long as that error stays below the guard, from the first to the last frame it is claimed for, the slot and control windows of sender and receiver are disjoint |
| TdmaRuns.GuardSuffices | nrf_mesh/src/tdma.c:611-659 | with SYNCs every ten frames that announce no drift and oscillators up to 50 ppm apart it is below the guard from the sixth frame to the next SYNC, for a SYNC one frame old read to 100 us or two frames old read exactly, and from the first frame on when the phase is below a quantum |
| TdmaRuns.WindowsDisjoint | nrf_mesh/src/tdma.c:133-205 | two nodes that begin a frame less than the guard apart have disjoint slot windows, disjoint slot and control windows, and control windows that end before any next frame can begin |
| TdmaVerdicts.SyncVerdict | nrf_mesh/src/tdma.c:611-651 | a SYNC about a frame re-acquires exactly if that is more than four frames off or began more than 500 us from where it was recorded; nothing happens if it was not recorded, and otherwise the whole difference is pending |
| TdmaVerdicts.SyncEffect | nrf_mesh/src/tdma.c:611-659 | so it leaves the sender's epoch and drift, or the new phase and drift, or everything as it was |
| TdmaVerdicts.AcquireCatchesUp | nrf_mesh/src/tdma.c:361-433 | an acquisition catches up to the frame that is running and no further |
| TdmaVerdicts.TickCatchesUp | nrf_mesh/src/tdma.c:252-272 | so does a tick, however late |
| TdmaVerdicts.TickRecords | nrf_mesh/src/tdma.c:248-272 | a tick that missed fewer than sixteen frames records all it begins and forgets none of the last sixteen; one that missed more knows only the frame that is running |
| TdmaVerdicts.TuningMovesEpoch | nrf_mesh/src/tdma.c:593-609 | without drift a positive offset delays the frames to come by all of it, a negative one brings them forward |
| TdmaVerdicts.TuningIsBounded | nrf_mesh/src/tdma.c:115-119 | an offset beyond 2 ms is cut off |
| TdmaVerdicts.DriftIsBounded | nrf_mesh/src/tdma.c:121-127 | the drift corrected for is the announced one, up to 5000 ppm either way |
| TdmaVerdicts.WindowsTileFrame | nrf_mesh/src/tdma.c:318-334 | slots of 2 ms fill the frame from its start, the control window follows, and each ends half a millisecond early |
| TdmaClock.RecordHolds | nrf_mesh/src/tdma.c:93-101 | recording overwrites the oldest of sixteen entries |
| TdmaClock.Clock.Start | nrf_mesh/src/tdma.c:451-492 | a bad slot or a running clock is refused with everything unchanged; otherwise, after a stop as for the first time, timing and history are those of a fresh start, the generation goes on, and the frame timer is armed at least a quantum ahead |
| TdmaClock.Clock.FrameTimerHandler | nrf_mesh/src/tdma.c:226-359 | the tick on counters, deadlines, residual and ring is the specified one, the slot and control windows are those of the new frame, and exactly the timers whose window is not over are armed for its start; a stopped clock ignores it |
| TdmaClock.Clock.SetRateCorrection | nrf_mesh/src/tdma.c:121-127 | splits the drift into whole and fractional microseconds |
| TdmaClock.Clock.TuneTiming | nrf_mesh/src/tdma.c:593-609 | adds to the pending correction within its bounds |
| TdmaClock.Clock.AcquireBegin | nrf_mesh/src/tdma.c:361-391 | quiesces the timers under a new generation |
| TdmaClock.Clock.AcquireCommit | nrf_mesh/src/tdma.c:391-433 | adopts the epoch unless stopped or overtaken |
| TdmaClock.Clock.Sync | nrf_mesh/src/tdma.c:611-659 | the verdict and its effect are the specified ones |
| TdmaClock.Clock.LookupHistory | nrf_mesh/src/tdma.c:103-113 | the ring search is the specified lookup |
| TdmaClock.Clock.RecordHistory | nrf_mesh/src/tdma.c:93-101 | the ring holds the newest sixteen boundaries |
| TdmaClock.Clock.InvalidateHistory | nrf_mesh/src/tdma.c:85-91 | no entry answers afterwards |
| TdmaClock.Clock.Stop | nrf_mesh/src/tdma.c:494-516 | a stopped clock overtakes an acquisition under way |
| SlotMaps.BitmapMarks | shared/mesh_core.c:10-19 | a scanned bitmap marks exactly the valid ids of the list |
| SlotMaps.FirstFreeNodeId | shared/mesh_core.c:21-29 | the lowest unmarked id, 0 when all eight are marked |
| SlotMaps.SlotMapValidCore | shared/mesh_core.c:331-375 | accepts exactly the valid maps and reports the node's slot and the member count |
| SlotMaps.SlotMapValidMembership | shared/mesh_membership.c:53-106 | accepts exactly the same maps and reports the same |
| SlotMaps.ScanSlotsCore | shared/mesh_core.c:342-358 | the bitmap loop decides whether members are valid and named once |
| SlotMaps.ScanSlotsMembership | shared/mesh_membership.c:69-86 | the range-checked loop decides the same |
| SlotMaps.ScanSpeakers | shared/mesh_membership.c:91-102 | the speaker loop decides whether grants are distinct members |
| Membership.AddressCompare | shared/mesh_membership.c:15-23 | the sign of the comparison is the lexicographic order |
| Membership.AddressAll | shared/mesh_membership.c:25-33 | answers whether all bytes have the value |
| Membership.LowerTotal | shared/mesh_membership.c:15-23 | of two addresses of one length exactly one is lower unless they are equal |
| Membership.LowerTransitive | shared/mesh_membership.c:15-23 | the order is transitive |
| Membership.LowerExtremes | shared/mesh_membership.c:116-123 | nothing is below all zeros and all ones is below nothing |
| Membership.LeadershipChanges | shared/mesh_membership.c:108-265 | no event makes a coordinator or changes an address, and exactly a SYNC of a lower, not all-zero address unmakes one |
| Handshake.ScannerDiscovers | shared/mesh_membership.c:116-136 | a scanning node joins the first coordinator it hears, and nothing else changes |
| Handshake.ParticipantFollows | shared/mesh_membership.c:138-143 | a participant follows the SYNC of its own coordinator and no other, and no SYNC changes it |
| Handshake.DeposedJoinsWinner | shared/mesh_membership.c:145-163 | a coordinator deposed by a lower address gives everything up and joins the winner; any other SYNC leaves it as it is |
| Handshake.OthersIgnoreSync | shared/mesh_membership.c:138-149 | idle and joining nodes ignore every SYNC |
| Handshake.AckIgnored | shared/mesh_membership.c:35-51 | only a joining node adopts an acknowledgement, and only one for its own address from the node it joins |
| Handshake.AckAdopted | shared/mesh_membership.c:165-182 | a well-formed one makes it the participant it names, under its sender |
| Handshake.HandshakeCompletes | nrf_mesh/src/mesh_protocol_membership.c:196-242 | the acknowledgement of a granted request makes the requester a participant under the coordinator with the id and slot of its row |
| Handshake.AckConcernsTarget | nrf_mesh/src/mesh_protocol_membership.c:196-242 | to any other node it means nothing |
| Handshake.MapIgnored | shared/mesh_membership.c:184-202 | a map is adopted only by a participant, from its own coordinator, and only if it is consistent |
| Handshake.MapAdopted | shared/mesh_membership.c:53-106 | an adopted map names the coordinator first, the node in a later slot and each member once; the node takes that slot and the count of the others |
| Handshake.GrantsAdopted | nrf_mesh/src/mesh_protocol_audio.c:426-433 | the grants are then those it names, distinct members all of them |
| Handshake.ScannerBecomesMember | nrf_mesh/src/mesh_protocol_membership.c:129-332 | a scanning node that hears a coordinator's SYNC, is acknowledged and then heard adopts the map sent for it exactly if the grants are compact, distinct and announced, and then agrees with the coordinator on slot, number of peers and grants |
| Handshake.LeaveVerdict | shared/mesh_membership.c:204-238 | a LEAVE is honoured exactly if it is not the node's own and names an active peer by id and, unless it is a legacy one, by address |
| Handshake.LeaveEffects | shared/mesh_membership.c:204-238 | a LEAVE that removes a row is reported if the peer was announced and asks a coordinator for a map; any other has no effect |
| Election.LeadersShrink | shared/mesh_membership.c:108-163 | over every run the coordinators only shrink |
| Election.SafeLeaderStays | shared/mesh_membership.c:108-163 | a coordinator that no first coordinator's address can depose leads after every run |
| Election.ReachedLeaderYields | shared/mesh_membership.c:138-158 | a higher coordinator reached by the lowest's SYNC no longer leads |
| Election.LowestWins | shared/mesh_membership.c:108-163 | the lowest well-formed coordinator is never demoted and is the only one once its SYNC reached the others, in any order with losses and repeats |
| Election.AllZeroNeverWins | shared/mesh_membership.c:116-123 | with an all-zero lowest address two coordinators stay whatever is delivered |
| Election.ElectionOutcome | shared/mesh_membership.c:108-163 | after full delivery exactly one coordinator is left if and only if it was alone or its address is not all zeros |
| PeerRuns.RunKeepsInv | nrf_mesh/src/mesh_protocol_membership.c:129-536 | in every reachable table active rows have distinct ids and addresses, slot is id minus one, the coordinator's own row is present, peer_count counts the announced others, and a node that does not coordinate has no rows |
| PeerRuns.StepKeepsInv | nrf_mesh/src/mesh_protocol_membership.c:129-536 | every handler keeps this |
| PeerRuns.RoleChanges | nrf_mesh/src/mesh_protocol_membership.c:129-536 | only the scan timer of a scanning node makes a coordinator; only a deposing SYNC, which also clears the table, or a stop unmakes one |
| PeerRuns.FreeIdHasFreeRow | nrf_mesh/src/mesh_protocol_membership.c:213-233 | by pigeonhole an id is free exactly if a row is |
| PeerRuns.JoinIsRecorded | nrf_mesh/src/mesh_protocol_membership.c:196-242 | a JOIN is turned away only when the requester is unknown and the table full; otherwise it is recorded under the granted id, and nothing else of the node changes |
| PeerRuns.LeftRemoves | nrf_mesh/src/mesh_protocol_membership.c:334-388 | a LEAVE whose identity matches removes exactly the sender's row, any other changes nothing |
| PeerRuns.TimedOutRows | nrf_mesh/src/mesh_protocol_membership.c:481-510 | the sweep deactivates exactly the rows silent for more than 3 s, never the node's own or the coordinator's |
| PeerRuns.RemovedKeepsInv | nrf_mesh/src/mesh_protocol_membership.c:372-376 | removing a row uncounts an announced peer and nothing else |
| PeerRuns.AnnounceKeepsInv | nrf_mesh/src/mesh_protocol_membership.c:129-149 | the first packet of a peer counts it once |
| PeerLiveness.HeardNotes | nrf_mesh/src/mesh_protocol_membership.c:129-149 | a packet of a member notes its time and announces it once |
| PeerLiveness.StrangerIgnored | nrf_mesh/src/mesh_protocol_membership.c:129-149 | a packet from an id in no row changes nothing |
| PeerLiveness.HeardPeerStays | nrf_mesh/src/mesh_protocol_membership.c:129-510 | a member heard at some time is still in the table after any steps up to 3 s later, but for its own LEAVE and the end of the session |
| PeerLiveness.SilentPeerGoes | nrf_mesh/src/mesh_protocol_membership.c:481-510 | a member that nothing was heard from for more than 3 s is gone after any sweep, whatever happened meanwhile |
| PeerLiveness.SweepKeepsOwn | nrf_mesh/src/mesh_protocol_membership.c:481-510 | the sweep never takes the node's own row nor its coordinator's |
| PeerLiveness.JoinRequests | nrf_mesh/src/mesh_protocol_membership.c:196-200 | only a coordinator answers a JOIN, only from a node without an id, and only of the right size |
| PeerLiveness.ScanMakesCoordinator | nrf_mesh/src/mesh_protocol_membership.c:423-451 | a scan that heard nobody makes the node coordinator 1 in slot 0, alone in its table |
| PeerLiveness.SessionEnds | nrf_mesh/src/mesh_protocol_membership.c:512-536 | a node that gives up its session keeps nothing of it |
| PeerLiveness.SearchContinues | nrf_mesh/src/mesh_protocol_membership.c:453-478 | other transitions move only the state or forget the coordinator to join |
| PeerTable.FirstFreeIsLowest | nrf_mesh/src/mesh_protocol_membership.c:213-220 | the id found in the occupancy bitmap is the lowest one neither the node nor a row has |
| PeerTable.MemberTable.constructor | nrf_mesh/src/mesh_protocol_runtime.c:268-291 | a node starts idle with an empty table |
| PeerTable.MemberTable.UpdatePeerLastSeen | nrf_mesh/src/mesh_protocol_membership.c:129-149 | refreshes and announces as specified |
| PeerTable.MemberTable.ProcessJoin | nrf_mesh/src/mesh_protocol_membership.c:196-242 | answers with id and slot and records as specified; wrong source, size or role changes nothing |
| PeerTable.MemberTable.OccupiedIds | nrf_mesh/src/mesh_protocol_membership.c:213-218 | the bitmap of the node's and all active rows' ids |
| PeerTable.MemberTable.ProcessLeave | nrf_mesh/src/mesh_protocol_membership.c:334-388 | removes as specified and asks for a slot map exactly when a coordinator's table changed |
| PeerTable.MemberTable.CheckPeerTimeouts | nrf_mesh/src/mesh_protocol_membership.c:481-510 | sweeps as specified and reports exactly whether a row was silent |
| PeerTable.MemberTable.ScanWorkHandler | nrf_mesh/src/mesh_protocol_membership.c:423-451 | only a scanning node becomes coordinator, as node 1 in slot 0 with its own row |
| PeerTable.MemberTable.ProcessEvent | nrf_mesh/src/mesh_protocol_membership.c:151-332 | SYNC, JOIN_ACK and SLOT_MAP follow the reducer; a demotion clears the table |
| PeerTable.MemberTable.ApplySlotMapSpeakers | nrf_mesh/src/mesh_protocol_audio.c:426-433 | the grants are those the map names, and none beyond its count |
| PeerTable.MemberTable.JoinTimeout | nrf_mesh/src/mesh_protocol_membership.c:464-478 | a joining node whose attempts are spent scans again |
| PeerTable.MemberTable.HandleCoordinatorTimeout | nrf_mesh/src/mesh_protocol_membership.c:512-536 | a participant that lost its coordinator scans again with a cleared session |
| PeerTable.MemberTable.StartMesh | nrf_mesh/src/mesh_protocol_runtime.c:293-314 | only an idle node starts scanning |
| PeerTable.MemberTable.StopMesh | nrf_mesh/src/mesh_protocol_runtime.c:316-363 | whatever the state, a stopped node is idle with an empty table and no grants |
| CoordinatorMaps.BuildSlotMap | nrf_mesh/src/mesh_protocol_tx.c:109-131 | the built map has the announced rows in their slots and counts the grants |
| CoordinatorMaps.PlacedAt | nrf_mesh/src/mesh_protocol_tx.c:114-119 | slot s holds node s+1 exactly if it is announced |
| CoordinatorMaps.BuiltMapVerdict | nrf_mesh/src/mesh_protocol_tx.c:109-131 | every announced participant accepts the map of the coordinator's table and grants if and only if the grants are compact, distinct and announced; it finds its own slot and the coordinator's peer count |
| CoordinatorMaps.PeersAgree | shared/mesh_membership.c:184-202 | an active participant adopts exactly such maps and then agrees with the coordinator on slot and peer count |
| CoordinatorMaps.DepartedSpeakerSpoilsMap | nrf_mesh/src/mesh_protocol_membership.c:334-388 | a granted peer's LEAVE removes its row and keeps the grants, and the map then sent is refused by every remaining participant |
| CoordinatorMaps.LongestTalker | shared/mesh_core.c:250-262 | the longest-talking node not yet chosen, lowest id among equals |
| CoordinatorMaps.SelectSpeakers | shared/mesh_core.c:228-267 | chosen ids are distinct talkers, holders keep their grant, free places go to the longest talkers, and a place stays empty only when nobody is left |
| CoordinatorMaps.SelectedGrants | nrf_mesh/src/mesh_protocol_audio.c:285-342 | grants selected this way spoil a map only by naming a talker that is no announced member |
| ControlSpec.VictimIsLeast | components/mesh/mesh_transport.c:130-138 | the eviction victim has the lowest priority and the oldest order among those |
| ControlSpec.SelectIsDue | components/mesh/mesh_transport.c:179-199 | the packet dequeued is the oldest overdue one, otherwise the oldest of the highest priority |
| ControlAdmission.PriorityIsRank | components/mesh/mesh_transport.c:13-29 | SYNC ranks before JOIN_ACK and LEAVE, these before slot map and speaker types, and all before the rest |
| ControlAdmission.NewerReplaces | components/mesh/mesh_transport.c:105-128 | a newer packet of a superseding type takes the place, order and age of the first one queued for the same destination with its own contents; a STATUS reports the bits of both |
| ControlAdmission.RoomAppends | components/mesh/mesh_transport.c:152-155 | any other packet goes to the end of a queue with room |
| ControlAdmission.FullQueueRefuses | components/mesh/mesh_transport.c:130-150 | a full queue refuses a packet exactly if all it holds outrank it or are periodic like it |
| ControlAdmission.FullQueueEvicts | components/mesh/mesh_transport.c:130-155 | otherwise the oldest packet of the lowest priority makes room and all others stay |
| ControlAdmission.OverdueGoesFirst | components/mesh/mesh_transport.c:179-203 | after half a second a packet is overdue, and the oldest overdue one goes first |
| ControlAdmission.HighestGoesFirst | components/mesh/mesh_transport.c:179-203 | with none overdue the oldest of the highest priority goes first |
| ControlAgeing.EnqueueKeepsPlace | components/mesh/mesh_transport.c:105-155 | no enqueue puts a packet before an overdue one or makes it younger; only eviction removes it |
| ControlAgeing.DequeueComesCloser | components/mesh/mesh_transport.c:179-199 | while a packet is overdue every dequeue takes one with an earlier order |
| ControlAgeing.OverduePacketLeaves | components/mesh/mesh_transport.c:105-199 | an overdue packet that is not evicted leaves within one dequeue more than there are packets with an earlier order, whatever is enqueued meanwhile |
| ControlAgeing.EnqueueKeepsOk | components/mesh/mesh_transport.c:105-155 | capacity and distinct orders below the counter are kept |
| ControlRuns.NothingIsLost | components/mesh/mesh_transport.c:48-623 | from the initial state, after any interleaving, every heard or relayed observation not confirmed by a sent STATUS nor discarded by a reset has its bit in the live bitmaps, a queued STATUS, a packet in hand that was not launched, or the one in flight |
| ControlRuns.NextKeepsInv | components/mesh/mesh_transport.c:48-623 | every critical section keeps the bitmaps equal to the observations they stand for and loses none |
| ControlRuns.PutKeeps | components/mesh/mesh_transport.c:105-163 | coalescing, appending, evicting and refusing keep every queued and offered observation |
| ControlRuns.ConfirmedWasSent | components/mesh/mesh_transport.c:289-329 | an observation is confirmed only by the successful transmission of a STATUS with its bit, discarded only by a reset |
| ControlRuns.NothingIsInvented | components/mesh/mesh_transport.c:48-61 | no bitmap has a bit that was not observed |
| ControlAdmission.StatusQueued | components/mesh/mesh_transport.c:590-623 | the bitmaps are taken and queued: nothing is live any more and the STATUS carries all of it |
| ControlAdmission.StatusConfirmed | components/mesh/mesh_transport.c:289-398 | taken, launched and sent, all it reports is confirmed and nothing is left anywhere |
| ControlAdmission.FailureGivesBack | components/mesh/mesh_transport.c:289-329 | a transmission that fails or is abandoned gives all its observations back |
| ControlAdmission.RefusalGivesBack | components/mesh/mesh_transport.c:361-398 | a packet that the radio refuses is no longer in flight, and giving it back empties the hand |
| ControlAdmission.OtherFlight | components/mesh/mesh_transport.c:361-398 | only one packet is in flight at a time, and one that is no STATUS has nothing to report |
| ControlAdmission.ResetForgets | components/mesh/mesh_transport.c:205-212 | a session reset empties queue and live bitmaps and discards exactly what they held |
| ControlAdmission.ObservationIsNoted | components/mesh/mesh_audio.c:87-99 | an observation sets its bit in the live bitmap of its kind |
| ControlQueue.Transport.FindVictim | components/mesh/mesh_transport.c:130-138 | the scan is the specified victim |
| ControlQueue.Transport.PlaceItem | components/mesh/mesh_transport.c:105-155 | the queue after an enqueue, the verdict and the evicted packet are the specified ones |
| ControlQueue.Transport.EnqueueControlPacket | components/mesh/mesh_transport.c:63-165 | refused arguments change nothing and an evicted STATUS gives its bits back |
| ControlQueue.Transport.RestoreStatusBitmaps | components/mesh/mesh_transport.c:48-61 | a full-length STATUS gives its bits back, anything else nothing |
| ControlQueue.Transport.FindDue | components/mesh/mesh_transport.c:179-197 | the scan is the specified selection |
| ControlQueue.Transport.DequeueControlPacket | components/mesh/mesh_transport.c:167-203 | takes the packet that is due and keeps the rest |
| ControlQueue.Transport.ResetControlQueue | components/mesh/mesh_transport.c:205-212 | the queue is empty afterwards |
| ControlQueue.Transport.SendStatus | components/mesh/mesh_transport.c:590-623 | the bitmaps are queued, or given back when the queue refuses |
| ControlQueue.Transport.TrackedSend | components/mesh/mesh_transport.c:361-398 | one transmission at a time, only a LEAVE while stopping, no record left after a refusal |
| ControlQueue.Transport.SendNext | components/mesh/mesh_tdma.c:192-209 | the due packet is sent, or gives its bits back |
| ControlQueue.Transport.SendCallback | components/mesh/mesh_transport.c:289-329 | a failed STATUS gives its bits back |
| ControlQueue.Transport.ForceCleanup | components/mesh/mesh_transport.c:436-474 | an abandoned STATUS gives its bits back |
| ControlQueue.Transport.Note | components/mesh/mesh_audio.c:87-99 | sets one bit |
| ControlLink.SendStatusIsARun | components/mesh/mesh_transport.c:590-623 | send_status is a run of the step system, so nothing is lost through it |
| ControlLink.SendNextIsARun | components/mesh/mesh_tdma.c:192-209 | so is the control slot |
| BridgeFrame.Crc8 | shared/bridge_frame.c:5-25 | the nested loop computes the specified CRC |
| BridgeFrame.ShiftMultiplies | shared/bridge_frame.c:15-23 | one bit of the CRC multiplies by x modulo x^8 + x^2 + x + 1 |
| BridgeFrame.NoRemainder | shared/bridge_frame.c:5-25 | data followed by their own CRC leave no remainder |
| BridgeFrame.OneByteChangesCrc | shared/bridge_frame.c:5-25 | data that differ in one byte have different CRCs |
| BridgeFrame.CrcByteInjective | shared/bridge_frame.c:15-23 | one CRC step is injective in the CRC and in the byte |
| BridgeFrame.Encode | shared/bridge_frame.c:27-56 | writes the frame and nothing behind it, or refuses and writes nothing |
| BridgeFrame.DecodeFrame | shared/bridge_frame.c:58-110 | the verdict and view are the specified ones, in the source's order of checks |
| BridgeFrame.DecodeEncoded | shared/bridge_frame.c:27-110 | an encoded frame with any padding decodes to what was encoded |
| BridgeFrame.EncodeDecoded | shared/bridge_frame.c:27-110 | what decodes is the encoding of the result |
| BridgeFrame.OneByteCorruptionDetected | shared/bridge_frame.c:95-102 | changing exactly one sequence, type, payload or CRC byte is always BAD_CRC |
| BridgeLink.AcceptedInOrder | components/uart_bridge/bridge_tx.c:117-333 | under any interleaving, loss, resend, timeout and purge the accepted audio frames, plain and bundled, are a repeat-free subsequence of the enqueued ones |
| BridgeLink.SlotsConserved | components/uart_bridge/bridge_tx.c:26-329 | free plus used plus waiting plus slots in hand is fifteen in every reachable state, and head minus tail is used |
| BridgeLink.NextKeepsInv | components/uart_bridge/bridge_tx.c:26-333 | every step keeps both |
| BridgeLink.NextConserves | components/uart_bridge/bridge_tx.c:26-329 | every step conserves the slots and overwrites no queued frame |
| BridgeLink.PurgeConserves | components/uart_bridge/bridge_tx.c:60-80 | a purge returns every queued slot and the one awaiting an ACK |
| BridgeLink.RepeatOrAlias | nrf_mesh/src/uart_bridge.c:211-238 | a frame is taken for a repeat exactly when its number agrees with the last accepted one modulo 256 |
| BridgeLink.AliasedFrameIsLost | nrf_mesh/src/uart_bridge.c:211-238 | a run from the initial state that ends with a new audio frame, 256 frames after the only accepted one, in transfer: it is acknowledged and no transfer of it is ever accepted |
| BridgeService.FreshFrameIsSent | components/uart_bridge/bridge_tx.c:154-208 | with nothing awaiting its ACK, no control frame and the mesh ready, an oldest entry at most 120 ms old is in the DMA buffer and awaits its ACK from then on |
| BridgeService.StaleFrameIsDropped | components/uart_bridge/bridge_tx.c:156-187 | an older one, or any while the mesh is not ready, is dropped, its slot is free again, and the next has its turn |
| BridgeService.FirstFreshIsSent | components/uart_bridge/bridge_tx.c:154-208 | so the first fresh entry of the ring is sent, whatever has grown stale before it |
| BridgeService.NothingToSend | components/uart_bridge/bridge_tx.c:154-213 | with the ring empty or its mutex taken an idle frame goes out |
| BridgeService.ControlGoesFirst | components/uart_bridge/bridge_tx.c:136-145 | a control frame goes before everything and leaves the frame awaiting its ACK alone |
| BridgeService.UnackedIsResent | components/uart_bridge/bridge_tx.c:147-154 | a frame awaiting its ACK is sent again until 50 ms have passed |
| BridgeService.UnackedIsGivenUp | components/uart_bridge/bridge_tx.c:119-134 | after that it is let go and its slot is free again |
| BridgeService.NewFrameAccepted | nrf_mesh/src/uart_bridge.c:225-238 | a new audio frame that the mesh takes is handed on, acknowledged and remembered; one it refuses is none of these |
| BridgeService.OtherFramesKept | nrf_mesh/src/uart_bridge.c:225-242 | a repeated one is acknowledged again and not handed on |
| BridgeService.FrameGoesThrough | components/uart_bridge/bridge_tx.c:117-333 | from any idle state a frame that is enqueued and sent within 120 ms is accepted and acknowledged, and the bridge is idle again |
| BridgeTx.Bridge.constructor | components/uart_bridge/uart_bridge.c:109-128 | fifteen free slots, none used, nothing in flight |
| BridgeTx.Bridge.SendAudioPacket | components/uart_bridge/bridge_tx.c:282-333 | enqueues as specified; every refusal leaves the pipe as it was |
| BridgeTx.Bridge.QueueControlFrame | components/uart_bridge/bridge_tx.c:221-252 | a newer control frame replaces an unsent one |
| BridgeTx.Bridge.AckIsr | components/uart_bridge/bridge_tx.c:26-52 | lets the frame in flight go and returns its slot; a spurious pulse does nothing |
| BridgeTx.Bridge.DrainAudioRing | components/uart_bridge/bridge_tx.c:60-80 | purges as specified |
| BridgeTx.Bridge.DequeueOne | components/uart_bridge/bridge_tx.c:154-208 | the oldest entry is sent, or dropped when stale or the mesh is not ready |
| BridgeTx.Bridge.PrepareDma | components/uart_bridge/bridge_tx.c:117-213 | timeout, control, resend and dequeue in the source's order, with a mutex, clock and mesh-ready reading of its own for every turn of the loop |
| BridgeTx.Receiver.ParseRx | nrf_mesh/src/uart_bridge.c:211-242 | hands on, acknowledges and counts as specified |
| BridgeTx.SendIsARun | components/uart_bridge/bridge_tx.c:282-333 | a send is a run of the protocol |
| BridgeTx.ReleaseIsARun | components/uart_bridge/bridge_tx.c:26-52 | so are the interrupt and the timeout |
| BridgeTx.PrepareIsARun | components/uart_bridge/bridge_tx.c:117-213 | so is the preparation of a transfer, whatever it drops on the way |
| NrfQueue.KeepsNewest | nrf_mesh/src/uart_bridge.c:346-367 | however many packets arrive, the queue keeps exactly the newest fifteen, in order, and its tail moves once for every drop |
| NrfQueue.AudioOut.Send | nrf_mesh/src/uart_bridge.c:346-367 | appends, dropping the oldest when full |
| NrfQueue.AudioOut.Peek | nrf_mesh/src/uart_bridge.c:503-518 | the oldest packet and its index |
| NrfQueue.AudioOut.Commit | nrf_mesh/src/uart_bridge.c:558-561 | removes the oldest packet if the tail has not moved |
| NrfQueue.TailReturns | nrf_mesh/src/uart_bridge.c:346-367 | after any arrivals the tail is where the transfer began if and only if the number of drops is a multiple of sixteen |
| NrfQueue.OldestIs | nrf_mesh/src/uart_bridge.c:346-367 | the oldest packet after the arrivals is the one whose number is the count of drops |
| NrfQueue.SentRemoved | nrf_mesh/src/uart_bridge.c:503-565 | peek, arrivals, commit: the packet that was sent is removed if and only if nothing was dropped meanwhile |
| NrfQueue.UnsentRemoved | nrf_mesh/src/uart_bridge.c:503-565 | a packet that was not sent is removed if and only if a positive multiple of sixteen was dropped meanwhile |
| NrfQueue.SixteenArrivalsLoseOne | nrf_mesh/src/uart_bridge.c:503-565 | a full queue and sixteen arrivals during one transfer lose the second arrival, which was never sent |
| Dedupe.Cache.Contains | shared/mesh_core.c:43-56 | answers whether the key is among the last thirty-two accepted and not purged |
| Dedupe.Cache.Accept | shared/mesh_core.c:58-71 | accepts exactly the keys that are not |
| Dedupe.Cache.PurgeNode | shared/mesh_core.c:73-83 | forgets exactly the node's keys |
| Dedupe.RepeatsAreFar | shared/mesh_core.c:43-83 | between two acceptances of one key without a purge of its node lie at least thirty-two others |

## Left out

- PacketStore.AudioPacketStore.AdvanceSequence: models a count of one, because every caller passes one; 64-bit deadlines do not wrap.
- PcmResampler.AudioPcmResampler.Render: a measured depth above 0x7FFFFF samples is excluded, because the signed 32-bit product of the source is undefined there; its only caller passes at most sixteen packets' samples.
- TdmaClock.Clock.FrameTimerHandler: does not model the 32-bit cast of a skip count above 2^32 frames, and the frame number is unbounded with its 32-bit wire form derived.
- TdmaRuns.SyncTracksSender: ticks later than 19.9 ms after the SYNC, which skip frames, are not covered, and the sender's drift is constant until the next SYNC.
- TdmaClock.Clock.Start: the generation counter is unbounded; the local-clock discipline is left out.
- ControlAgeing.OverduePacketLeaves: does not model the wrap of the 32-bit order counter; the order is unbounded.
- ControlRuns.NothingIsLost: a bitmap is the set of node ids whose bit it has, and the radio is taken never to call back for a packet it refused.
- BridgeLink.AcceptedInOrder: frames carry the unbounded count of encoded frames, of which the wire has the low eight bits; a transfer delivers the prepared frame or nothing, as the CRC results of BridgeFrame justify for single-byte errors.
- PeerTable.MemberTable.ProcessEvent: the loop that copies slots into a participant's rows is left out, since such a table is proved empty.
- Election.ElectionOutcome: covers the reducer; a node whose scan finds nobody becomes a coordinator later by its timer.
- CoordinatorMaps.SelectSpeakers: returns the chosen ids instead of writing a zero-padded array.
- NrfQueue.AudioOut.Send: models the audio queue; the four-entry control queue behaves alike at its own size.
- Null-pointer checks, device reboot, bridge deinitialisation and reinitialisation.
- Radio, SPI, I2S, GPIO, Wi-Fi and storage drivers, RTOS tasks and memory ordering.
- Opus coding, voice cleanup, tone generation and voice detection.
- The sequence-gap trackers, the relay mask and the frame-boundary recovery of `shared/mesh_core.c`, which are short arithmetic.
- Statistics, telemetry logs, round-trip probes, the decision to relay a received packet and the control ring of the nRF.
- That an ACK release means the nRF accepted the frame: the second pulse of a resent frame can release the next one.
- How long playout stays silent after a resampler underrun, which depends on the refilling loop of `components/audio/audio_playout.c`.
