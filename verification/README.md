# A two-link UDP frame streamer, modelled and proved in Dafny

The program sends frames over two links. A sender thread cuts each frame into fragments of at most 1463
bytes, puts them in a bounded queue, admits them through a sliding-window rate throttler, lets a policy
choose a link for every attempt and writes a 9-byte header plus payload to the socket of that link. The
receiver reassembles fragments that arrive in any order over both links, acks a complete frame, hands it up
and keeps counters. The acks come back into a ring of round-trip entries that also accounts for outages.

The model follows that structure, one module per source file, and adds modules whose theorems range over
runs:

- `Packets`, `Policies`, `TxPartCtl`, `Throttle`, `Source`, `Threads`, `Record`, `Destination`,
  `RttRecords`, `Stuttering`, `TraceReader`: the code. What the program updates in place is a class whose
  methods are proved equal to a specification function on a value (`After...`); the theorems are about
  those functions. `None` in a specification function's result is a Rust panic.
- `ThrottleRuns`, `ThrottleDecisions`, `ThrottleRate`, `ThrottleTotal`, `ThrottleWait`, `ThrottleDrain`: every
  run of a throttler: window accounting, first in first out, the frame counter, the exact decisions from the
  history, the rate bound despite the cached rate, at every admission and over the whole run, bounded waiting,
  and the draining of the queue.
- `Scheduling`, `Epochs`: every run of send attempts: failover history, optimality and balance of the
  queue-aware policy, balance of the simple queue-aware one, and the counters across snapshot epochs.
- `Reassembly`: any arrival order of the fragments of one frame.
- `EndToEnd`: sender, lossy, reordering and duplicating network, and receiver as one step protocol.
- `QueueLoop`, `AckContents`: the sender's loop as attempts of that protocol, and what its acks say.
- `Counting`: the same protocol on a network without duplication: each fragment is in one place.
- `Conservation`: the same protocol on a network without loss: each fragment is in some place.
- `Rounds`: on any network, when and how often a frame is counted, and when the loss count underflows.
- `RttRuns`, `RttAverages`, `AckLoop`: every run of the ring alone, what it reports, and of the whole loop from a frame to its ack.
- `Duplicates`, `RingPanics`: runs in which the loss count underflows and the ring panics.

Time is an integer number of nanoseconds in the throttler and a real number of seconds elsewhere; floating
point numbers are reals. Clock readings, socket answers, queue snapshots and the layout of a number in bytes
are inputs.

## What the code does that its callers may not expect

- A frame whose size is a positive multiple of 1463 is sent with a last fragment of length zero and comes
  out without its last 1463 bytes; a frame of 65536 fragments or more is never completed. All other
  non-empty frames survive. `Reassembly.SurvivesIff` and `EndToEnd.EndToEndSafety` state this as
  equivalences.
- Such a zero-length fragment at the head of the queue, once rejected by a throttler with a staleness slack
  (a window of 100 or more), is rejected for as long as the throttle is not changed:
  `ThrottleWait.EmptyHeadWaitsForEver`; `ThrottleWait.EmptyHeadIsReached` is a run that gets there. In every
  other case, and under a positive throttle, waiting is bounded: `ThrottleWait.BoundedWait`.
- A frame is counted once for every time all its fragments arrive anew, since its record is forgotten when it
  is complete: `Rounds.CountedPerRound`. Each frame is counted at most once exactly when no sampled frame
  arrives whole again after it arrived whole (`Rounds.CountedOnceIff`), and the loss count underflows exactly
  when there were more such rounds than numbers (`Rounds.ReceivedAreRounds`);
  `Duplicates.DuplicateIsCountedTwice` is a run in which it does.
- An ack makes the sender's ring panic exactly when a ring length of newer frames has been issued, or when an
  earlier ack of its frame came back and `statistic` was called since: `AckLoop.RingPanicsIff`. So a late ack
  is enough (`RingPanics.LateAckPanics`), an ack duplicated on its way back is (`RingPanics.AckReplayPanics`),
  and so is a duplicated datagram that lets a frame arrive whole again (`RingPanics.ReplayPanics`); without any
  of them it never happens (`AckLoop.RingNeverPanics`).
- The simple queue-aware policy adds the rest of the frame to both loads, so the packets it places on the links
  of one frame are balanced in inverse proportion to the weights, within one packet:
  `Scheduling.SimpleBalanceIsKept`.
- A pong that is read off the clock before a `statistic` call but recorded after it can be charged too much, as
  in the run of `RttRuns.LatePongIsOvercharged`. `RttRuns.OutagesTelescope` gives the exact charge and the exact
  condition under which it is the time from deadline to pong.
- The comment on the indicator byte (core/src/packet.rs:37) speaks of values from 10 to 19 for last packets;
  the code uses bit 1. The model follows the code.

## Model

| member | source | states |
|---|---|---|
| `Packets.IndicatorCodec` | core/src/packet.rs:122-153 | the indicator codec inverts both ways, panics exactly on bytes above 3, and has the chosen link in its lowest bit and the last mark in the next |
| `Packets.DatagramFields` | core/src/packet.rs:31-39 | a datagram's header fields and payload are those of the packet it was cut from |
| `Packets.WireLayout` | core/src/packet.rs:31-39 | where each byte of a datagram comes from, lowest bytes first |
| `Packets.ReadBack` | rx/src/destination.rs:38-41 | what is read off a receive buffer is the datagram received last, whatever stale bytes follow |
| `Packets.WireRoundTrip` | core/src/packet.rs:126-134 | sending the first 9 + length bytes of a packet over any stale buffer and reading it back returns every header field and the used payload |
| `Packets.PacketTemplate.SetPayload` | core/src/packet.rs:117-119 | only the prefix of the payload is replaced; the rest stays from the fragment before |
| `Policies.EveryPolicyMarksLast` | tx/src/policies/mod.rs:22-33 | under each of the four policies exactly the fragment at offset num - 1 is marked last, and the receiver decodes the mark and the link that were chosen |
| `Policies.HardThresholdCuts` | tx/src/policies/hard_threshold.rs:4-13 | a hard threshold cuts a frame once: a prefix of it for the first link, the rest for the second |
| `Policies.PolicyPanicsIff` | tx/src/policies/mod.rs:22-33 | the messages on which each policy panics |
| `Epochs.AttemptEffect` | tx/src/tx_part_ctl.rs:28-61 | an attempt is unscheduled exactly when a monitored snapshot lacks queues or links and then changes nothing; otherwise the time, rates and counters of the epoch are kept, the tried link counted if monitored, and its signal latched if refused |
| `Epochs.AttemptPanicsIff` | tx/src/source.rs:71-111 | an attempt panics exactly when it is scheduled and the policy does, or the chosen link has no socket or counter, or the packet is too long |
| `Epochs.QueueAwareTries` | tx/src/policies/queue_aware.rs:19-23 | the link tried, by cross multiplication of the counters with the thetas and the rates of both links |
| `Epochs.SimpleQueueAwareTries` | tx/src/policies/simple_queue_aware.rs:5-23 | the same for the simple policy, with the rest of the frame in both backlogs |
| `Epochs.CountersOfTheEpoch` | tx/src/policies/mod.rs:54-85 | after any run, with snapshots changing at any time, the counters are the backlogs of the snapshot that began the epoch and the links tried since, and the rates are that snapshot's |
| `TxPartCtl.TxPartCtler.DetermineScheduleInfo` | tx/src/tx_part_ctl.rs:38-61 | the message of the current snapshot epoch is updated in place, a new epoch starts a new one, and a monitored controller without a snapshot gives none |
| `TxPartCtl.TxPartCtler.GetPacketState` | tx/src/tx_part_ctl.rs:28-36 | the decision is the policy's, and a monitored controller counts it in the kept message |
| `TxPartCtl.TxPartCtler.SetPolicyParameters` | tx/src/source.rs:362-366 | only the parameters change: the kept message, the counters and the block signals stay |
| `Throttle.CycledVecDequeue.Push` | tx/src/throttle.rs:26-31 | pushing appends and evicts the oldest item as soon as the length reaches the size |
| `Throttle.BelowThrottleIsBudget` | tx/src/throttle.rs:106-112 | the rate is below the throttle exactly when the bytes are within the throttle's budget of the elapsed time; no elapsed time is never below |
| `Throttle.RateThrottler.CurrentRateMbps` | tx/src/throttle.rs:98-118 | the cached rate is returned while the error is below the slack, and is computed from the front of the window otherwise |
| `Throttle.RateThrottler.Prepare` | tx/src/throttle.rs:120-130 | the loop accepts exactly the prefix of the packets that fits the buffer, and counts the frame; the invariant holds |
| `Throttle.RateThrottler.ExceedsWith` | tx/src/throttle.rs:164-190 | the new state and answer; no counter underflows and the rate is there to be unwrapped |
| `Throttle.RateThrottler.TryConsume` | tx/src/throttle.rs:132-153 | the callback is asked only about an admitted head packet, which leaves the buffer exactly when it answers yes; the frame counter does not underflow |
| `Throttle.RateThrottler.Reset` | tx/src/throttle.rs:91-96 | the window, the buffer, the sum, the error, the slack and the cached rate are cleared, the frame counter is not |
| `Throttle.RateThrottler.SetThrottle` | tx/src/source.rs:356-360 | only the throttle changes: the cached rate and the error stay, so the next decision may still use them |
| `ThrottleRuns.WindowAccounting` | tx/src/throttle.rs:164-190 | in every run the running sum is the sum of the window, the admissions since the last reset are the evicted ones followed by the window, the window stays below its size, and admitted bytes are the sum plus the evicted bytes |
| `ThrottleRuns.FifoConservation` | tx/src/throttle.rs:120-162 | in every run the packets consumed since the last reset followed by the buffer are a prefix of each prepared frame, in order |
| `ThrottleRuns.TailDrop` | tx/src/throttle.rs:33-41 | packets are dropped exactly when the frame does not fit, only from its end, and the buffer is then full |
| `ThrottleRuns.FrameCounter` | tx/src/throttle.rs:120-153 | in every run, resets included, the frame counter is the number of prepared frames less the last packets consumed, and covers the last packets in the buffer |
| `ThrottleDecisions.ErrorIsStaleBytes` | tx/src/throttle.rs:98-190 | in every run the error is the bytes the rate was asked about and the bytes evicted since it last reached the slack when the rate was asked for |
| `ThrottleDecisions.DecisionIsExact` | tx/src/throttle.rs:132-190 | in every run, under any throttles and resets, an attempt is held back exactly when, by the history, the last evaluation was over the budget while the stale bytes are below the slack, or the window and the packet are now |
| `ThrottleRate.RateBound` | tx/src/throttle.rs:164-190 | under positive, possibly changing throttles, at every admission the bytes admitted since the front of the last evaluation are below the budget of its elapsed time plus the slack less the bytes evicted since; on an earlier evaluation the bytes admitted and evicted since are below the slack; the slack is 1472 bytes per hundred entries of the window |
| `ThrottleRate.RateBoundWithoutSlack` | tx/src/throttle.rs:91-113 | with a window below 100, or after a reset, the bound holds without slack |
| `ThrottleRate.WindowOfOneNeverThrottles` | tx/src/throttle.rs:26-31 | with a window of one entry no attempt is ever held back |
| `ThrottleTotal.TotalRate` | tx/src/throttle.rs:164-190 | over a whole run under one throttle the admitted bytes are at most the first packet, the throttle's budget from the first to the last admission, and 1472 bytes per hundred entries once per window, of which all but one have `windowSize` admissions |
| `ThrottleWait.BoundedWait` | tx/src/throttle.rs:132-140 | consecutive rejections of a head packet are bounded by the sleeps after which window and packet fit the throttle plus the attempts that use the slack up |
| `ThrottleWait.EmptyHeadWaitsForEver` | tx/src/throttle.rs:176-189 | with a slack, a rejected zero-length head packet is rejected at every later attempt |
| `ThrottleWait.EmptyHeadIsReached` | tx/src/throttle.rs:98-118 | a frame of four full payloads and a lowered throttle get a fresh throttler into that state, from which every later attempt is rejected |
| `ThrottleDrain.QueueDrains` | tx/src/throttle.rs:132-153 | under a constant positive throttle and accepting sockets, all packets queued at the start are sent within the sum of their bounded waits and one attempt each, whatever is queued behind them |
| `Source.GeneratePackets` | tx/src/source.rs:33-59 | the packets of a frame are its fragments in order, each with its offset, length, bytes and last mark, whatever the template's payload held before; without a buffer they carry the template's payload under the same headers |
| `Source.BlankIsFragmentation` | tx/src/source.rs:258-264 | packets made from a size alone are the fragments of the frame that repeats the template's payload |
| `Source.FragmentationLastOnes` | core/src/packet.rs:84-87 | a cut frame has exactly one last packet, or none when it has no packets |
| `Source.RunSendCallback` | tx/src/source.rs:71-111 | the callback stamps a copy with the decided link and latches the block signal of a link that refused |
| `Source.SendCallbackStamps` | tx/src/source.rs:73-103 | what is sent is the queued packet with only its indicator changed, marked last exactly at the end of its frame, on a link that has a socket |
| `Source.IterateIsTryConsume` | tx/src/source.rs:69-112 | an iteration is one throttler attempt: a datagram leaves exactly when the head packet is consumed, and a refused packet stays in the queue unchanged |
| `Source.ProcessQueue` | tx/src/source.rs:61-117 | the loop performs its iterations until the queue is empty or the time is over, and the datagrams leave in that order |
| `QueueLoop.ProcessIsAttempts` | tx/src/source.rs:68-116 | working the queue off with a sequence of ticks is an attempt of the protocol for every tick: the same sender, and exactly its datagrams put on the network; one panics if the other does |
| `QueueLoop.ProcessSendsInOrder` | tx/src/source.rs:69-112 | the datagrams sent are those of the head packets in order, and these are what leaves the queue |
| `Threads.ServeFrame` | tx/src/source.rs:138-161 | a frame is cut under the next number, queued and registered in the ring before the queue is worked off |
| `Scheduling.FailoverDecision` | tx/src/policies/conditional_rr.rs:5-13 | the second link is tried exactly when only the first is blocked, and only a refused send changes a signal |
| `Scheduling.FailoverHistory` | tx/src/source.rs:103-111 | in every run under the failover policy the links tried are the first, then the second, then the first again, and the second is never blocked alone |
| `Scheduling.DecisionStep` | tx/src/policies/queue_aware.rs:5-23 | a decision takes the link with the smaller load, the second on a tie, and exactly that link's counter grows, sent or not |
| `Scheduling.GreedyIsOptimal` | tx/src/policies/queue_aware.rs:19-23 | in one snapshot epoch with positive weights, the larger load after any number of decisions is no larger than under any other split of the packets |
| `Scheduling.BalanceIsKept` | tx/src/policies/mod.rs:78-85 | the difference of the loads stays within where it started and one packet on either link |
| `Scheduling.PlainDecisionStep` | tx/src/policies/simple_queue_aware.rs:5-23 | a simple queue-aware decision takes the first link exactly when its load, the rest of the frame included, is smaller, and counts it, sent or not |
| `Scheduling.SimpleBalanceIsKept` | tx/src/policies/simple_queue_aware.rs:5-23 | over any attempts on one frame in one epoch the lead of the first link stays within where it started and one packet load on either side, more tightly when all sends succeed, and then it is the uses of the links divided by each other's weight |
| `Record.RecvRecord.Record` | rx/src/record.rs:58-78 | recording a buffer stores its packet, its link time and, if marked, the last offset, and recomputes completeness |
| `Record.RecvRecord.DetermineComplete` | rx/src/record.rs:86-97 | a record is complete exactly when the last offset is known and every offset up to it is there |
| `Record.RecvRecord.Gather` | rx/src/record.rs:99-107 | gathering concatenates the payloads by offset, or panics on the first missing one |
| `Reassembly.CompleteIff` | rx/src/record.rs:86-97 | a record of fragments of one frame is complete exactly when all fragments are there and there are fewer than 65536 |
| `Reassembly.GatherComplete` | rx/src/record.rs:99-107 | gathering a complete record panics nowhere and gives the frame as far as it was sent |
| `Reassembly.OrderIndependent` | rx/src/record.rs:58-107 | for any order and repetition of fragments, completeness and the gathered bytes depend only on which fragments arrived |
| `Reassembly.CompletenessLatches` | rx/src/record.rs:76-77 | a complete record stays complete |
| `Reassembly.LinkTimesAreLatest` | rx/src/record.rs:63-84 | the two link times of a record are those of the latest arrival over each link |
| `Reassembly.SurvivesIff` | tx/src/source.rs:141-147 | a frame can come back unchanged exactly when its size is no multiple of 1463 and it has fewer than 65536 fragments |
| `Destination.RecvData.HandleRtt` | rx/src/destination.rs:65-101 | the new receiver, buffer and reaction of one call, over per-frame record objects kept apart; the ack carries the delay of the record just completed |
| `Destination.HandlerOutcome` | rx/src/destination.rs:72-97 | a skipped frame leaves records and counts alone, an incomplete record is stored, a complete one is acked, counted once, timed and forgotten, and handed up exactly when frames are forwarded |
| `Destination.HandlerPanicsIff` | rx/src/destination.rs:72-95 | the calls on which the handler panics |
| `Destination.AckRoundTrip` | tx/src/rtt.rs:69-71 | the ack names the completed frame and carries the encoding of the delay between the links of the completed record where the sender reads it |
| `EndToEnd.StepKeepsInv` | tx/src/source.rs:61-117 | every step keeps every queued, in-flight and recorded fragment a slice of the frame it names |
| `EndToEnd.EndToEndSafety` | rx/src/destination.rs:79-95 | in every run, whatever is handed up under a number is the frame cut under that number, unchanged exactly when its size is no multiple of 1463 |
| `EndToEnd.HandUpIsExact` | rx/src/destination.rs:90-95 | in every run, if frames are forwarded every acked frame was handed up as the frame cut under its number, as far as it was sent; otherwise none was |
| `AckContents.AckedDelay` | rx/src/record.rs:80-84 | in every run an ack names its frame and carries the encoding of the time from the frame's latest arrival over the first link to its latest over the second since it was last acked |
| `AckContents.StutterFollowsAcks` | rx/src/destination.rs:82-83 | in every run the stuttering tracker is what the times of all acks in order make it |
| `EndToEnd.DroppedTailNeverCompletes` | tx/src/throttle.rs:126-128 | a frame of which the queue dropped anything is never acked or handed up |
| `EndToEnd.ReceiverNeverPanics` | rx/src/record.rs:58-107 | no datagram of any run makes the receiver panic |
| `Counting.ReceiverCounts` | rx/src/main.rs:51-52 | without duplication each frame is acked at most once, received plus recorded frames are exactly the sampled frames seen, and these times the sample rate are at most the newest number, so the loss count does not underflow |
| `Conservation.NothingVanishes` | tx/src/throttle.rs:132-153 | in every run without loss on the network, every fragment the queue accepted waits in the queue, is on the network or has been delivered |
| `Conservation.AckedIffAccepted` | rx/src/destination.rs:82-97 | once queue and network are empty after such a run, duplicates included, a sampled frame has been acked if and only if it has fragments and the queue accepted all of them |
| `Rounds.AckedIffDelivered` | rx/src/destination.rs:82-97 | in every run a sampled frame has been acked exactly when it has fragments and all were delivered |
| `Rounds.RoundsAreSplits` | rx/src/destination.rs:72-97 | counting greedily is optimal: there are at least `m` rounds exactly when the deliveries split into `m` stretches that each bring the whole frame |
| `Rounds.CountedPerRound` | rx/src/destination.rs:72-97 | in every run, duplicates included, a sampled frame is acked once per round of deliveries that brought all of it, and its record holds exactly what came since |
| `Rounds.CountedOnceIff` | rx/src/destination.rs:96-97 | all acks are of different frames if and only if no sampled frame arrives whole again after it arrived whole |
| `Rounds.ReceivedAreRounds` | rx/src/main.rs:51-52 | the two operands of the loss count are the rounds of all sampled frames and the newest number delivered |
| `Rounds.NoUnderflowUnlessAgain` | rx/src/main.rs:51-52 | the loss count does not underflow, whatever is duplicated, unless a sampled frame arrives whole again |
| `Duplicates.DuplicateIsCountedTwice` | rx/src/main.rs:51-52 | a run of the whole system in which a duplicated one-fragment frame is counted twice, above the newest number |
| `RttRecords.RttRecords.UpdateArrival` | tx/src/statistic/rtt_records.rs:47-50 | the slot of the frame is overwritten with a new entry, no other |
| `RttRecords.RttRecords.Update` | tx/src/statistic/rtt_records.rs:52-66 | the entry of the frame gets its pong, or the call panics and changes nothing |
| `RttRecords.RttRecords.Statistic` | tx/src/statistic/rtt_records.rs:68-102 | the loop drops acked entries, moves the charged time of the others, and returns the report on the slots as they were |
| `RttRuns.RingIsRecentMap` | tx/src/statistic/rtt_records.rs:47-66 | in every run a slot holds exactly the entry of the recent frame that belongs there |
| `RttRuns.UpdatePanicsIff` | tx/src/statistic/rtt_records.rs:52-66 | in every run an update panics exactly for a frame never issued, a ring length or more behind the newest, or collected, and otherwise returns its round-trip time |
| `RttRuns.DisciplinedNeverPanics` | tx/src/statistic/rtt_records.rs:52-66 | acks for issued frames less than a ring length behind, each once, never panic, with statistics taken at any time |
| `RttRuns.ChargesAddUp` | tx/src/statistic/rtt_records.rs:76-95 | one call charges the frames together exactly what it reports |
| `RttRuns.OutagesTelescope` | tx/src/statistic/rtt_records.rs:68-95 | over any schedule of calls a frame is charged its time past the deadline, up to the last call, its pong or the last call before its entry was overwritten, every frame is one of these, and all charges are all reported outages |
| `RttRuns.LatePongIsOvercharged` | tx/src/statistic/rtt_records.rs:80-84 | a run in which a frame is charged 9 where 4 passed from deadline to pong |
| `RttAverages.ReportIsExact` | tx/src/statistic/rtt_records.rs:68-102 | after any run the average times the number of frames the call collects is the sum of their times from arrival to pong, 0 if none; the outage rate times the target is what the call charges the frames |
| `AckLoop.RingPanicsIff` | tx/src/rtt.rs:66-78 | in every run of the whole loop, datagrams and acks duplicated or not, an ack makes the ring panic exactly when it is late or follows an earlier ack of its frame and a call of `statistic`; one that is neither late nor duplicated does so only if its frame arrived whole again |
| `AckLoop.RingNeverPanics` | tx/src/rtt.rs:66-78 | in every run of the whole loop without duplication in either direction and without late acks, no update of the ring panics |
| `RingPanics.ReplayPanics` | tx/src/rtt.rs:66-78 | a run of the whole loop in which a duplicated datagram makes the ring panic |
| `RingPanics.AckReplayPanics` | rx/src/destination.rs:103-116 | a run in which every datagram is delivered once and a duplicated ack makes the ring panic |
| `RingPanics.LateAckPanics` | tx/src/statistic/rtt_records.rs:52-66 | a run without duplication in which a late ack makes the ring panic, for any ring length |
| `Stuttering.Stutter.GetStuttering` | rx/src/statistic/stuttering.rs:25-42 | the loop computes the ratio of the excesses to the span |
| `Stuttering.TracksFirstAndLast` | rx/src/statistic/stuttering.rs:16-23 | the start is the first ack and the end is the last, once there are two |
| `Stuttering.RatioIsAFraction` | rx/src/statistic/stuttering.rs:25-42 | the ratio lies in [0, 1), is 0 exactly when no gap exceeds two periods, and never divides by zero |
| `Stuttering.RatioFromGaps` | rx/src/statistic/stuttering.rs:29-41 | the ratio times the span is the length of the gaps above 32 ms less 16 ms for each |
| `TraceReader.ReadPackets` | tx/src/utils/trace_reader.rs:5-32 | the reading loop computes the parse of every finite file |
| `TraceReader.ParseIsExact` | tx/src/utils/trace_reader.rs:9-29 | a file reads as given packets if and only if it is their encoding followed by fewer than 16 bytes |
| `TraceReader.FirstPacket` | tx/src/utils/trace_reader.rs:16-28 | the interval, the length and the data of the next packet, byte by byte, highest byte first, or the error of a file cut short |
| `TraceReader.EncodingIsUnique` | tx/src/utils/trace_reader.rs:20-22 | no file is the encoding of two packet sequences |

## Left out

- Sockets, quality-of-service setup, threads, sleeps and locks: only the order of steps they impose is kept. A
  panic inside a lock and what other threads see of it is not modelled.
- Floating-point rounding, NaN and signed zeros: a zero divisor of a load gives infinity whatever its sign.
- The end of a sender thread, which resets the throttler and drops what is still queued; in the throttler's own
  runs a reset may come at any time.
- `SchedulingMessage` is a value that the controller replaces in its field, where the program updates it in
  place; nothing else holds a reference to it.
- The order in which hash maps list the links of a snapshot: a snapshot gives them as a sequence.
- `Throttle.RateThrottler.TryConsume`: takes a pure callback. The callback the program passes changes the
  controller, so `Source.IterateQueue` writes admission, callback and settling out in line.
- `EndToEnd.ReceiverNeverPanics`: does not speak of overflow of the receiver's counters nor of a closed
  forwarding channel. The frame counter is bounded by the 32-bit sequence number unless a frame arrives whole
  again; the received-byte total and the receiving end of the channel are not modelled.
- Errors of opening or reading a trace other than its end, and the memory a huge length field asks for.
- The Android glue, the video forwarding, configuration, logging, the monitor that shells out for queue
  lengths, the version manager and the older Python receiver.
- That a queued packet is eventually sent when sockets refuse: they may refuse for ever.
