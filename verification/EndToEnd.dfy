/** EndToEnd: sender, network and receiver as one step protocol, and its safety over every run. */
module EndToEnd {
  import opened Wrappers
  import opened Packets
  import opened Policies
  import opened TxPartCtl
  import opened Throttle
  import opened Source
  import opened Record
  import opened Reassembly
  import opened Destination

  /** A frame the receiver completed: what it handed to the application, and when and with what it acked. */
  datatype Output = Output(seqNo: nat, bytes: Option<seq<byte>>, time: real, ack: seq<byte>)

  /** `frames` are the frames cut so far and `accepted` how many packets of each the queue took; `acked` is
      what the receiver acked and handed up, in order; `delivered` the fragments that reached it. */
  datatype System = System(
    sender: Sender, net: multiset<seq<byte>>, buffer: seq<byte>, rx: Receiver,
    frames: seq<Frame>, accepted: seq<nat>, acked: seq<Output>, delivered: set<(nat, nat)>)

  /** The number of links with a socket, and the receiver's arguments. */
  datatype Config = Config(links: nat, args: Args)

  /** The network may lose, reorder and, with `keep`, duplicate. Throttle and policy parameters may be
      changed from outside at any time. */
  datatype Event =
    | NewFrame(frame: Frame, packets: seq<PacketWithMeta>, now: nat)
    | Attempt(tick: Tick)
    | Deliver(datagram: seq<byte>, keep: bool, env: Env)
    | Lose(datagram: seq<byte>)
    | ChangeThrottle(theta: real)
    | ChangeParameters(params: PolicyParameter)

  /** The n-th frame is cut under sequence number n, which is 32 bits wide. */
  predicate Enabled(s: System, ev: Event) {
    match ev
    case NewFrame(frame, packets, _) =>
      |s.frames| + 1 < 0x1_0000_0000 && IsFragmentation(frame, |s.frames| + 1, packets)
    case Deliver(d, _, env) => d in s.net && |d| >= APP_HEADER_LENGTH
    case Lose(d) => d in s.net
    case _ => true
  }

  function Announce(s: System, frame: Frame, packets: seq<PacketWithMeta>, now: nat): System {
    s.(sender := s.sender.(thr := AfterPrepare(s.sender.thr, packets, now)),
       frames := s.frames + [frame], accepted := s.accepted + [Accepted(s.sender.thr, |packets|)])
  }

  function TrySend(s: System, tick: Tick, links: nat): Option<System> {
    var i :- Iterate(s.sender, tick, links);
    Some(s.(sender := i.sender, net := s.net + if i.wire.Some? then multiset{i.wire.value} else multiset{}))
  }

  function OutputOf(seqNo: nat, env: Env, reaction: Reaction): Output
    requires reaction.Acked?
  {
    Output(seqNo, reaction.gathered, env.ackTime, reaction.ack)
  }

  function Receive(s: System, d: seq<byte>, keep: bool, env: Env, args: Args): Option<System>
    requires |s.buffer| == BUFFER_SIZE && |d| >= APP_HEADER_LENGTH
  {
    var (rx, buffer, reaction) :- AfterHandleRtt(s.rx, args, Overlay(s.buffer, d), env);
    Some(s.(net := if keep then s.net else s.net - multiset{d}, buffer := buffer, rx := rx,
            acked := s.acked + if reaction.Acked? then [OutputOf(SeqOf(d), env, reaction)] else [],
            delivered := s.delivered + {(SeqOf(d), OffsetOf(d))}))
  }

  /** `None` when the step panics. */
  function Step(cfg: Config, s: System, ev: Event): Option<System>
    requires |s.buffer| == BUFFER_SIZE && Enabled(s, ev)
  {
    match ev
    case NewFrame(frame, packets, now) => Some(Announce(s, frame, packets, now))
    case Attempt(tick) => TrySend(s, tick, cfg.links)
    case Deliver(d, keep, env) => Receive(s, d, keep, env, cfg.args)
    case Lose(d) => Some(s.(net := s.net - multiset{d}))
    case ChangeThrottle(theta) => Some(s.(sender := s.sender.(thr := s.sender.thr.(throttle := theta))))
    case ChangeParameters(params) => Some(s.(sender := s.sender.(ctl := s.sender.ctl.(params := params))))
  }

  function Start(theta: real, windowSize: nat, infinite: bool, ctl: Controller, buffer: seq<byte>,
                 hasTx: bool): System
  {
    System(Sender(Fresh(theta, windowSize, infinite), ctl), multiset{}, buffer, NewReceiver(hasTx), [], [], [], {})
  }

  /** The state after a run, if every event was enabled and none panicked. */
  function Run(cfg: Config, start: System, events: seq<Event>): (r: Option<System>)
    requires |start.buffer| == BUFFER_SIZE
    ensures r.Some? ==> |r.value.buffer| == BUFFER_SIZE
  {
    if events == [] then Some(start)
    else
      var s :- Run(cfg, start, events[..|events| - 1]);
      if Enabled(s, events[|events| - 1]) then Step(cfg, s, events[|events| - 1]) else None
  }

  lemma RunSnoc(cfg: Config, start: System, events: seq<Event>, ev: Event)
    requires |start.buffer| == BUFFER_SIZE && Run(cfg, start, events).Some?
    requires Enabled(Run(cfg, start, events).value, ev)
    ensures Run(cfg, start, events + [ev]) == Step(cfg, Run(cfg, start, events).value, ev)
  {
    assert (events + [ev])[..|events|] == events;
  }

  /** Deliveries are noted, and what was cut and accepted stays. */
  lemma {:induction false} StepNotes(cfg: Config, s: System, ev: Event)
    requires |s.buffer| == BUFFER_SIZE && Enabled(s, ev) && Step(cfg, s, ev).Some?
    ensures ev.Deliver? ==> |ev.datagram| >= APP_HEADER_LENGTH
    ensures var s' := Step(cfg, s, ev).value;
            && s'.delivered
               == s.delivered + (if ev.Deliver? then {(SeqOf(ev.datagram), OffsetOf(ev.datagram))} else {})
            && s.frames <= s'.frames && s.accepted <= s'.accepted
  {
    hide AfterHandleRtt, Iterate, AfterPrepare, SeqOf, OffsetOf, IsFragmentation, Overlay;
  }

  // ---------------------------------------------------------------------------------------------
  // The invariant: everything on the way is a slice of the frame it names

  /** `o` is the offset of a packet of frame `seqNo` that the queue accepted. */
  predicate Accounts(frames: seq<Frame>, accepted: seq<nat>, seqNo: nat, o: nat) {
    1 <= seqNo <= |frames| && seqNo <= |accepted| && o < accepted[seqNo - 1]
  }

  predicate QueuedOk(frames: seq<Frame>, accepted: seq<nat>, p: PacketWithMeta) {
    && Accounts(frames, accepted, p.packet.seqNo, p.packet.offset)
    && IsFragment(frames[p.packet.seqNo - 1], p.packet.seqNo, p.packet.offset, p)
  }

  predicate DatagramOk(frames: seq<Frame>, accepted: seq<nat>, d: seq<byte>) {
    && APP_HEADER_LENGTH <= |d| <= UDP_MAX_LENGTH
    && Accounts(frames, accepted, SeqOf(d), OffsetOf(d))
    && DatagramCarries(frames[SeqOf(d) - 1], d)
  }

  predicate DatagramCarries(frame: Frame, d: seq<byte>)
    requires |d| >= APP_HEADER_LENGTH
  {
    && OffsetOf(d) < PacketCount(|frame|)
    && LengthOf(d) == FragmentLength(|frame|, OffsetOf(d)) == |d| - APP_HEADER_LENGTH
    && d[APP_HEADER_LENGTH..] == FragmentBytes(frame, OffsetOf(d))
    && GetPacketType(d[8]).Some?
    && (MarksLast(GetPacketType(d[8]).value) <==> OffsetOf(d) == NumFragments(|frame|) - 1)
  }

  ghost predicate RecordOk(frames: seq<Frame>, accepted: seq<nat>, seqNo: nat, r: Rec) {
    && 1 <= seqNo <= |frames|
    && RecInv(frames[seqNo - 1], r)
    && forall o :: o in r.packets ==> Accounts(frames, accepted, seqNo, o)
  }

  /** The queue accepted all packets of a frame of fewer than 65536 fragments. */
  predicate AcceptedWhole(frames: seq<Frame>, accepted: seq<nat>, seqNo: nat) {
    && 1 <= seqNo <= |frames| && seqNo <= |accepted|
    && 0 < accepted[seqNo - 1] == NumFragments(|frames[seqNo - 1]|) < 0x1_0000
  }

  /** An acked frame was accepted whole, and what was handed up is the frame as far as it was sent. */
  predicate OutputOk(frames: seq<Frame>, accepted: seq<nat>, out: Output) {
    && AcceptedWhole(frames, accepted, out.seqNo)
    && (out.bytes.Some? ==> out.bytes.value == Reassembled(frames[out.seqNo - 1]))
  }

  ghost predicate Inv(s: System) {
    && |s.buffer| == BUFFER_SIZE
    && |s.accepted| == |s.frames| < 0x1_0000_0000
    && (forall i :: 0 <= i < |s.frames| ==> s.accepted[i] <= PacketCount(|s.frames[i]|))
    && (forall p :: p in s.sender.thr.buffer ==> QueuedOk(s.frames, s.accepted, p))
    && (forall d :: d in s.net ==> DatagramOk(s.frames, s.accepted, d))
    && (forall n :: n in s.rx.records ==> RecordOk(s.frames, s.accepted, n, s.rx.records[n]))
    && (forall out :: out in s.acked ==> OutputOk(s.frames, s.accepted, out))
  }

  lemma AnnounceKeepsInv(s: System, frame: Frame, packets: seq<PacketWithMeta>, now: nat)
    requires Inv(s) && Enabled(s, NewFrame(frame, packets, now))
    ensures Inv(Announce(s, frame, packets, now))
  {
    hide FragmentLength, FragmentBytes, NumFragments, PacketCount, RecInv, Reassembled, DatagramCarries;
    var k := Accepted(s.sender.thr, |packets|);
    var s' := Announce(s, frame, packets, now);
    forall p | p in s'.sender.thr.buffer
      ensures QueuedOk(s'.frames, s'.accepted, p)
    {
      if p in s.sender.thr.buffer {
        assert QueuedOk(s.frames, s.accepted, p);
      } else {
        assert p in packets[..k];
        var i :| 0 <= i < k && p == packets[i];
        assert IsFragment(frame, |s.frames| + 1, i, packets[i]);
      }
    }
    forall d | d in s.net
      ensures DatagramOk(s'.frames, s'.accepted, d)
    {
      assert DatagramOk(s.frames, s.accepted, d);
    }
    forall n | n in s.rx.records
      ensures RecordOk(s'.frames, s'.accepted, n, s.rx.records[n])
    {
      assert RecordOk(s.frames, s.accepted, n, s.rx.records[n]);
    }
  }

  lemma StampedIsOk(frames: seq<Frame>, accepted: seq<nat>, p: PacketWithMeta, t: PacketType, d: seq<byte>)
    requires QueuedOk(frames, accepted, p) && IsDatagramOf(d, p, t)
    ensures DatagramOk(frames, accepted, d)
    ensures SeqOf(d) == p.packet.seqNo && OffsetOf(d) == p.packet.offset
  {
    DatagramFields(SetIndicator(p, t).packet);
    IndicatorCodec(t, 0);
    hide Datagram, SeqOf, OffsetOf, LengthOf, FragmentLength, FragmentBytes, NumFragments, PacketCount;
  }

  lemma {:induction false} TrySendKeepsInv(s: System, tick: Tick, links: nat)
    requires Inv(s) && TrySend(s, tick, links).Some?
    ensures Inv(TrySend(s, tick, links).value)
  {
    IterateIsTryConsume(s.sender, tick, links);
    hide Iterate, AfterTryConsume, QueuedOk, DatagramOk, RecordOk, OutputOk, PacketCount;
    var i := Iterate(s.sender, tick, links).value;
    if i.wire.Some? {
      var t :| IsDatagramOf(i.wire.value, s.sender.thr.buffer[0], t);
      StampedIsOk(s.frames, s.accepted, s.sender.thr.buffer[0], t, i.wire.value);
    }
  }

  /** What the receiver reads off its buffer is the fragment the datagram carries, whatever stale bytes
      follow it. */
  lemma ReadIsReceived(frame: Frame, buffer: seq<byte>, d: seq<byte>)
    requires |buffer| == BUFFER_SIZE && APP_HEADER_LENGTH <= |d| <= UDP_MAX_LENGTH && DatagramCarries(frame, d)
    ensures var p := FromBuffer(Overlay(buffer, d));
            IsReceived(frame, p) && p.seqNo == SeqOf(d) && p.offset == OffsetOf(d)
    ensures SeqOf(Overlay(buffer, d)) == SeqOf(d)
  {
    ReadBack(buffer, d);
    assert Overlay(buffer, d)[0..4] == d[0..4];
    hide FromBuffer, Overlay, SeqOf, OffsetOf, LengthOf, FragmentLength, FragmentBytes, NumFragments, PacketCount;
  }

  /** A complete record of a frame means that the queue accepted all of it. */
  lemma CompleteMeansAccepted(frames: seq<Frame>, accepted: seq<nat>, seqNo: nat, r: Rec)
    requires RecordOk(frames, accepted, seqNo, r) && r.complete
    requires seqNo <= |accepted| && accepted[seqNo - 1] <= PacketCount(|frames[seqNo - 1]|)
    ensures AcceptedWhole(frames, accepted, seqNo)
    ensures GatherUpTo(r.packets, |r.packets|) == Some(Reassembled(frames[seqNo - 1]))
  {
    hide FragmentLength, FragmentBytes, RecInv, Reassembled, GatherUpTo, NumFragments;
    var frame := frames[seqNo - 1];
    GatherComplete(frame, r);
    CompleteIff(frame, r);
    assert NumFragments(|frame|) - 1 in r.packets;
  }

  /** The record a datagram's fragment is added to. */
  function Recorded(s: System, d: seq<byte>, time: real): Option<Rec>
    requires |s.buffer| == BUFFER_SIZE && |d| >= APP_HEADER_LENGTH
  {
    AfterRecord(Before(s.rx, SeqOf(d)), FromBuffer(Overlay(s.buffer, d)), time)
  }

  lemma BeforeIsOk(s: System, n: nat)
    requires Inv(s) && 1 <= n <= |s.frames|
    ensures RecordOk(s.frames, s.accepted, n, Before(s.rx, n))
  {
    EmptyRecInv(s.frames[n - 1]);
  }

  lemma ArrivalIsRecorded(s: System, d: seq<byte>, time: real)
    requires Inv(s) && d in s.net
    ensures |d| >= APP_HEADER_LENGTH && SeqOf(Overlay(s.buffer, d)) == SeqOf(d)
    ensures Recorded(s, d, time).Some?
    ensures var n, r := SeqOf(d), Recorded(s, d, time).value;
            && RecordOk(s.frames, s.accepted, n, r)
            && r.packets.Keys == Before(s.rx, n).packets.Keys + {OffsetOf(d)}
            && (r.complete ==>
                  && AcceptedWhole(s.frames, s.accepted, n)
                  && GatherUpTo(r.packets, |r.packets|) == Some(Reassembled(s.frames[n - 1])))
  {
    hide QueuedOk, OutputOk, RecInv, DatagramCarries, AfterRecord, FromBuffer, SeqOf, OffsetOf, Before, PacketCount;
    assert DatagramOk(s.frames, s.accepted, d);
    var n := SeqOf(d);
    ReadIsReceived(s.frames[n - 1], s.buffer, d);
    BeforeIsOk(s, n);
    RecordKeepsInv(s.frames[n - 1], Before(s.rx, n), FromBuffer(Overlay(s.buffer, d)), time);
    var r := Recorded(s, d, time).value;
    if r.complete {
      CompleteMeansAccepted(s.frames, s.accepted, n, r);
    }
  }

  /** The effect of receiving a datagram of frame `n` that leaves the record `r`. */
  ghost predicate Received(s: System, n: nat, o: nat, args: Args, r: Rec, s': System)
    requires args.sampleRate > 0
  {
    var sampled := n % args.sampleRate == 0;
    && s'.sender == s.sender && s'.frames == s.frames && s'.accepted == s.accepted
    && |s'.buffer| == BUFFER_SIZE && s'.net <= s.net && s'.delivered == s.delivered + {(n, o)}
    && s'.rx.lastSeq == (if n > s.rx.lastSeq then n else s.rx.lastSeq)
    && s'.rx.recevied == s.rx.recevied + (if sampled && r.complete then 1 else 0)
    && s'.rx.records == (if !sampled then s.rx.records
                         else if r.complete then s.rx.records - {n} else s.rx.records[n := r])
    && s'.rx.hasTx == s.rx.hasTx
    && (if sampled && r.complete then
          && |s'.acked| == |s.acked| + 1 && s'.acked == s.acked + [s'.acked[|s.acked|]]
          && s'.acked[|s.acked|].seqNo == n && s'.acked[|s.acked|].bytes == HandedUp(args, s.rx.hasTx, r)
        else s'.acked == s.acked)
  }

  lemma {:induction false} ReceiveEffect(s: System, d: seq<byte>, keep: bool, env: Env, args: Args)
    requires Inv(s) && |s.buffer| == BUFFER_SIZE && args.sampleRate > 0
    requires d in s.net && |d| >= APP_HEADER_LENGTH
    ensures Receive(s, d, keep, env, args).Some? && Recorded(s, d, env.recordTime).Some?
    ensures Received(s, SeqOf(d), OffsetOf(d), args, Recorded(s, d, env.recordTime).value,
                     Receive(s, d, keep, env, args).value)
  {
    hide AfterRecord, FromBuffer, Overlay, Inv, OutputOk, RecordOk, GatherUpTo, SeqOf, OffsetOf;
    hide AfterHandleRtt, Before;
    ArrivalIsRecorded(s, d, env.recordTime);
    HandlerOutcome(s.rx, args, Overlay(s.buffer, d), env, Recorded(s, d, env.recordTime).value);
  }

  /** Receiving panics nowhere and keeps the invariant. */
  lemma {:induction false} ReceiveKeepsInv(s: System, d: seq<byte>, keep: bool, env: Env, args: Args)
    requires Inv(s) && Enabled(s, Deliver(d, keep, env)) && args.sampleRate > 0
    ensures Receive(s, d, keep, env, args).Some?
    ensures Inv(Receive(s, d, keep, env, args).value)
  {
    hide Recorded, Receive, RecordOk, DatagramOk, QueuedOk, AcceptedWhole, Reassembled, GatherUpTo, SeqOf, OffsetOf;
    hide PacketCount;
    ArrivalIsRecorded(s, d, env.recordTime);
    ReceiveEffect(s, d, keep, env, args);
  }

  lemma {:induction false} StepKeepsInv(cfg: Config, s: System, ev: Event)
    requires Inv(s) && Enabled(s, ev) && cfg.args.sampleRate > 0
    requires Step(cfg, s, ev).Some?
    ensures Inv(Step(cfg, s, ev).value)
  {
    match ev
    case NewFrame(frame, packets, now) => AnnounceKeepsInv(s, frame, packets, now);
    case Attempt(tick) => TrySendKeepsInv(s, tick, cfg.links);
    case Deliver(d, keep, env) => ReceiveKeepsInv(s, d, keep, env, cfg.args);
    case _ => OthersKeepInv(cfg, s, ev);
  }

  lemma OthersKeepInv(cfg: Config, s: System, ev: Event)
    requires Inv(s) && Enabled(s, ev) && (ev.Lose? || ev.ChangeThrottle? || ev.ChangeParameters?)
    ensures Step(cfg, s, ev).Some? && Inv(Step(cfg, s, ev).value)
  {
    hide QueuedOk, DatagramOk, RecordOk, OutputOk, PacketCount;
  }

  lemma {:induction false} RunKeepsInv(cfg: Config, start: System, events: seq<Event>)
    requires |start.buffer| == BUFFER_SIZE && Inv(start) && cfg.args.sampleRate > 0
    requires Run(cfg, start, events).Some?
    ensures Inv(Run(cfg, start, events).value)
  {
    hide Inv, Step, Enabled;
    if events != [] {
      RunKeepsInv(cfg, start, events[..|events| - 1]);
      StepKeepsInv(cfg, Run(cfg, start, events[..|events| - 1]).value, events[|events| - 1]);
    }
  }

  /** A system as the two programs set it up. */
  ghost predicate Initial(s: System) {
    exists theta, windowSize, infinite, ctl, hasTx ::
      |s.buffer| == BUFFER_SIZE && s == Start(theta, windowSize, infinite, ctl, s.buffer, hasTx)
  }

  lemma InitialInv(s: System)
    requires Initial(s)
    ensures Inv(s)
  {
  }

  lemma RunOutputs(cfg: Config, start: System, events: seq<Event>)
    requires Initial(start) && cfg.args.sampleRate > 0 && Run(cfg, start, events).Some?
    ensures var s := Run(cfg, start, events).value;
            && |s.accepted| == |s.frames|
            && forall out :: out in s.acked ==> OutputOk(s.frames, s.accepted, out)
  {
    InitialInv(start);
    RunKeepsInv(cfg, start, events);
    hide Run, Initial, OutputOk, DatagramOk, QueuedOk, RecordOk, PacketCount;
  }

  /** End-to-end safety: in every run, with frames interleaved, tails dropped by a full queue, sends
      blocked and retried on another link under any policy, and a network that loses, reorders and
      duplicates, what the receiver hands up under a sequence number is the frame cut under that number:
      unchanged exactly when its size is not a multiple of the payload size, and otherwise without its
      last fragment. */
  lemma {:induction false} EndToEndSafety(cfg: Config, start: System, events: seq<Event>)
    requires Initial(start) && cfg.args.sampleRate > 0 && Run(cfg, start, events).Some?
    ensures var s := Run(cfg, start, events).value;
            forall out :: out in s.acked && out.bytes.Some? ==>
              && 1 <= out.seqNo <= |s.frames|
              && out.bytes.value == Reassembled(s.frames[out.seqNo - 1])
              && (out.bytes.value == s.frames[out.seqNo - 1] <==> |s.frames[out.seqNo - 1]| % MAX_PAYLOAD_LEN != 0)
  {
    RunOutputs(cfg, start, events);
    hide Run, Initial;
    var s := Run(cfg, start, events).value;
    forall out | out in s.acked && out.bytes.Some?
      ensures 1 <= out.seqNo <= |s.frames|
      ensures var frame := s.frames[out.seqNo - 1];
              && out.bytes.value == Reassembled(frame)
              && (out.bytes.value == frame <==> |frame| % MAX_PAYLOAD_LEN != 0)
    {
      OutputMeans(s.frames, s.accepted, out);
    }
  }

  /** A forwarding receiver hands up every frame it acks, and any other hands up nothing. */
  ghost predicate HandsUp(s: System, forwards: bool) {
    forall out :: out in s.acked ==>
      && 1 <= out.seqNo <= |s.frames|
      && out.bytes == if forwards then Some(Reassembled(s.frames[out.seqNo - 1])) else None
  }

  lemma {:induction false} ReceiveHandsUp(s: System, d: seq<byte>, keep: bool, env: Env, args: Args)
    requires Inv(s) && Enabled(s, Deliver(d, keep, env)) && args.sampleRate > 0
    requires HandsUp(s, args.rxMode && s.rx.hasTx)
    ensures Receive(s, d, keep, env, args).Some?
    ensures var s' := Receive(s, d, keep, env, args).value;
            s'.rx.hasTx == s.rx.hasTx && HandsUp(s', args.rxMode && s.rx.hasTx)
  {
    hide Recorded, Receive, RecordOk, DatagramOk, QueuedOk, OutputOk, Reassembled, GatherUpTo, SeqOf, OffsetOf;
    hide PacketCount, NumFragments;
    ArrivalIsRecorded(s, d, env.recordTime);
    ReceiveEffect(s, d, keep, env, args);
  }

  lemma {:induction false} StepHandsUp(cfg: Config, s: System, ev: Event)
    requires Inv(s) && Enabled(s, ev) && cfg.args.sampleRate > 0 && |s.buffer| == BUFFER_SIZE
    requires HandsUp(s, cfg.args.rxMode && s.rx.hasTx) && Step(cfg, s, ev).Some?
    ensures var s' := Step(cfg, s, ev).value;
            s'.rx.hasTx == s.rx.hasTx && HandsUp(s', cfg.args.rxMode && s.rx.hasTx)
  {
    hide Inv, Receive, Iterate, AfterPrepare, IsFragmentation, Reassembled;
    if ev.Deliver? {
      ReceiveHandsUp(s, ev.datagram, ev.keep, ev.env, cfg.args);
    }
  }

  /** Every acked frame is handed up: in every run, if frames are forwarded, what was handed up with an ack
      is the frame cut under its number, as far as it was sent; otherwise nothing was. */
  lemma {:induction false} HandUpIsExact(cfg: Config, start: System, events: seq<Event>)
    requires Initial(start) && cfg.args.sampleRate > 0 && Run(cfg, start, events).Some?
    ensures var s := Run(cfg, start, events).value;
            && s.rx.hasTx == start.rx.hasTx
            && HandsUp(s, cfg.args.rxMode && start.rx.hasTx)
  {
    InitialInv(start);
    if events != [] {
      var before, ev := events[..|events| - 1], events[|events| - 1];
      HandUpIsExact(cfg, start, before);
      RunKeepsInv(cfg, start, before);
      hide Inv, Step, Enabled, HandsUp, Initial;
      StepHandsUp(cfg, Run(cfg, start, before).value, ev);
    }
  }

  lemma OutputMeans(frames: seq<Frame>, accepted: seq<nat>, out: Output)
    requires OutputOk(frames, accepted, out) && out.bytes.Some?
    ensures var frame := frames[out.seqNo - 1];
            && out.bytes.value == Reassembled(frame)
            && (out.bytes.value == frame <==> |frame| % MAX_PAYLOAD_LEN != 0)
  {
    assert NumFragments(|frames[out.seqNo - 1]|) > 0;
  }

  /** A frame of which the queue dropped anything is never acked or handed up. */
  lemma {:induction false} DroppedTailNeverCompletes(cfg: Config, start: System, events: seq<Event>)
    requires Initial(start) && cfg.args.sampleRate > 0 && Run(cfg, start, events).Some?
    ensures var s := Run(cfg, start, events).value;
            && |s.accepted| == |s.frames|
            && forall i :: 0 <= i < |s.frames| && s.accepted[i] < NumFragments(|s.frames[i]|) ==>
                 forall out :: out in s.acked ==> out.seqNo != i + 1
  {
    RunOutputs(cfg, start, events);
    hide Run, Initial;
  }

  /** No datagram of a run can make the receiver panic. */
  lemma {:induction false} ReceiverNeverPanics(cfg: Config, start: System, events: seq<Event>, ev: Event)
    requires Initial(start) && cfg.args.sampleRate > 0 && Run(cfg, start, events).Some?
    requires ev.Deliver? && Enabled(Run(cfg, start, events).value, ev)
    ensures Step(cfg, Run(cfg, start, events).value, ev).Some?
  {
    hide Inv;
    InitialInv(start);
    RunKeepsInv(cfg, start, events);
    ReceiveKeepsInv(Run(cfg, start, events).value, ev.datagram, ev.keep, ev.env, cfg.args);
  }
}
