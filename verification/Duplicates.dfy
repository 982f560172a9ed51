/** Duplicates: a run on a network that duplicates, in which the receiver's loss count underflows. */
module Duplicates {
  import opened Wrappers
  import opened Packets
  import opened Policies
  import opened TxPartCtl
  import opened Throttle
  import opened Source
  import opened Destination
  import opened EndToEnd
  import opened Counting
  import opened Rounds

  /** The packets of a frame of one fragment. */
  function OnePacket(frame: Frame): seq<PacketWithMeta>
    requires NumFragments(|frame|) == 1
  {
    var length := FragmentLength(|frame|, 0);
    FragmentFits(|frame|, 0);
    [PacketWithMeta(PacketStruct(1, 0, length, 0, frame[..length] + seq(MAX_PAYLOAD_LEN - length, _ => 0)),
                    0, 1, 0.0, 0, true)]
  }

  lemma OnePacketIsFragmentation(frame: Frame)
    requires NumFragments(|frame|) == 1
    ensures IsFragmentation(frame, 1, OnePacket(frame))
  {
    FragmentFits(|frame|, 0);
  }

  /** An unmonitored sender without a throttle sends everything over the second link. */
  function PlainController(): Controller {
    Controller(HardThreshold, PolicyParameter(0.0, 0.0, 0.0, 0.0), [false, false], false, None)
  }

  lemma FirstAttemptSends(s: System, tick: Tick)
    requires s.sender.ctl == PlainController() && s.sender.thr.throttle == 0.0 && tick.accepts
    requires s.sender.thr.buffer != [] && s.sender.thr.buffer[0].num == 1
    requires s.sender.thr.buffer[0].packet.length <= MAX_PAYLOAD_LEN
    ensures Iterate(s.sender, tick, 2).Some? && Iterate(s.sender, tick, 2).value.wire.Some?
  {
    hide AfterSettle, Datagram;
  }

  /** Cutting the frame and sending its only packet puts one datagram of it on the network. */
  lemma OneDatagramInFlight(cfg: Config, start: System, frame: Frame, tick: Tick) returns (d: seq<byte>)
    requires NumFragments(|frame|) == 1 && |start.buffer| == BUFFER_SIZE && tick.accepts
    requires cfg.links == 2 && cfg.args.sampleRate > 0
    requires exists n, hasTx :: start == Start(0.0, n, true, PlainController(), start.buffer, hasTx)
    ensures var events := SentBy(frame, tick);
            && Run(cfg, start, events).Some? && Inv(Run(cfg, start, events).value)
            && d in Run(cfg, start, events).value.net
            && |d| >= APP_HEADER_LENGTH && DatagramKey(d) == (1, 0)
            && Run(cfg, start, events).value.frames == [frame]
  {
    hide Iterate, AfterTryConsume, SeqOf, OffsetOf, NumFragments, FragmentLength, FragmentBytes, PacketCount;
    OnePacketIsFragmentation(frame);
    InitialInv(start);
    var cut := NewFrame(frame, OnePacket(frame), 0);
    assert Run(cfg, start, []) == Some(start);
    assert Enabled(start, cut);
    RunSnoc(cfg, start, [], cut);
    assert [] + [cut] == [cut];
    var s := Announce(start, frame, OnePacket(frame), 0);
    StepKeepsInv(cfg, start, cut);
    hide IsFragmentation, Inv;
    assert s.sender.thr.buffer == OnePacket(frame);
    FirstAttemptSends(s, tick);
    IterateIsTryConsume(s.sender, tick, 2);
    RunSnoc(cfg, start, [cut], Attempt(tick));
    StepKeepsInv(cfg, s, Attempt(tick));
    assert [cut] + [Attempt(tick)] == [cut, Attempt(tick)];
    d := Iterate(s.sender, tick, 2).value.wire.value;
    var t :| IsDatagramOf(d, OnePacket(frame)[0], t);
    DatagramFields(SetIndicator(OnePacket(frame)[0], t).packet);
  }

  /** A datagram in flight is delivered; one that the network keeps can be delivered again. */
  lemma Delivery(cfg: Config, start: System, events: seq<Event>, d: seq<byte>, keep: bool, env: Env)
    requires |start.buffer| == BUFFER_SIZE && Run(cfg, start, events).Some? && cfg.args.sampleRate > 0
    requires Inv(Run(cfg, start, events).value) && d in Run(cfg, start, events).value.net && |d| >= APP_HEADER_LENGTH
    ensures var s' := Run(cfg, start, events + [Deliver(d, keep, env)]);
            && s'.Some? && Inv(s'.value) && (keep ==> d in s'.value.net)
            && s'.value.frames == Run(cfg, start, events).value.frames
  {
    var s := Run(cfg, start, events).value;
    ReceiveKeepsInv(s, d, keep, env, cfg.args);
    RunSnoc(cfg, start, events, Deliver(d, keep, env));
    hide Inv, AfterHandleRtt;
  }

  lemma TwoDeliveries(sent: seq<Event>, twice: Event)
    requires |sent| == 2 && !sent[0].Deliver? && !sent[1].Deliver?
    requires twice.Deliver? && |twice.datagram| >= APP_HEADER_LENGTH && DatagramKey(twice.datagram) == (1, 0)
    ensures Log(sent) == [] && Log(sent + [twice]) == [(1, 0)] && Log(sent + [twice] + [twice]) == [(1, 0), (1, 0)]
  {
    hide SeqOf, OffsetOf;
    var once := sent + [twice];
    assert once + [twice] == (once + [twice])[..3] + [twice] && (once + [twice])[..3] == once;
    assert once[..2] == sent && sent[..1][..0] == [];
    assert Log(sent[..1]) == [] && Log(sent) == [];
  }

  lemma TwoRounds(frames: seq<Frame>, rate: nat)
    requires |frames| == 1 && NumFragments(|frames[0]|) == 1 && rate == 1
    ensures RoundsUpTo([], frames, rate, 1) == 0 && RoundsUpTo([(1, 0)], frames, rate, 1) == 1
    ensures RoundsUpTo([(1, 0), (1, 0)], frames, rate, 1) == 2
  {
    hide NumFragments;
    var log: seq<Key> := [(1, 0), (1, 0)];
    assert log[..1] == [(1, 0)];
    assert RoundsOf([], 1, 1) == Round(0, {});
    assert RoundsOf([(1, 0)], 1, 1) == Round(1, {});
    assert RoundsOf(log, 1, 1) == Round(2, {});
  }

  function SentBy(frame: Frame, tick: Tick): seq<Event>
    requires NumFragments(|frame|) == 1
  {
    [NewFrame(frame, OnePacket(frame), 0), Attempt(tick)]
  }

  /** Running `sent` acks nothing, and the delivery `once` acks the only frame. */
  ghost predicate Once(cfg: Config, start: System, sent: seq<Event>, frame: Frame, once: Event)
    requires |start.buffer| == BUFFER_SIZE
  {
    var r0, r1 := Run(cfg, start, sent), Run(cfg, start, sent + [once]);
    && r0.Some? && r0.value.acked == []
    && r1.Some? && |r1.value.acked| == 1 && r1.value.acked[0].seqNo == 1
    && r0.value.frames == r1.value.frames == [frame]
  }

  /** The delivery again acks and counts it again. */
  ghost predicate Twice(cfg: Config, start: System, sent: seq<Event>, frame: Frame, twice: Event)
    requires |start.buffer| == BUFFER_SIZE
  {
    var r2 := Run(cfg, start, sent + [twice] + [twice]);
    && Once(cfg, start, sent, frame, twice)
    && r2.Some? && |r2.value.acked| == 2 && r2.value.acked[1].seqNo == 1 && r2.value.frames == [frame]
    && r2.value.rx.recevied == 2 && r2.value.rx.lastSeq == 1
  }

  /** The delivery of the datagram of a frame of one fragment is acked. */
  lemma DeliveredOnce(cfg: Config, start: System, frame: Frame, tick: Tick, keep: bool, env: Env)
    returns (d: seq<byte>)
    requires NumFragments(|frame|) == 1 && |start.buffer| == BUFFER_SIZE && tick.accepts
    requires cfg.links == 2 && cfg.args.sampleRate == 1
    requires exists n, hasTx :: start == Start(0.0, n, true, PlainController(), start.buffer, hasTx)
    ensures |d| >= APP_HEADER_LENGTH && DatagramKey(d) == (1, 0)
    ensures Once(cfg, start, SentBy(frame, tick), frame, Deliver(d, keep, env))
    ensures var s := Run(cfg, start, SentBy(frame, tick) + [Deliver(d, keep, env)]).value;
            Inv(s) && (keep ==> d in s.net)
  {
    hide Step, NumFragments, Inv, SeqOf, OffsetOf, Receive, Initial;
    d := OneDatagramInFlight(cfg, start, frame, tick);
    var sent, once := SentBy(frame, tick), Deliver(d, keep, env);
    Delivery(cfg, start, sent, d, keep, env);
    TwoDeliveries(sent, once);
    TwoRounds([frame], 1);
    PlainIsInitial(start);
    hide Run, Log, RoundsUpTo;
    ReceivedAreRounds(cfg, start, sent);
    ReceivedAreRounds(cfg, start, sent + [once]);
    AckedNamesFrame(Run(cfg, start, sent + [once]).value, 0);
  }

  /** Every delivery of it is acked and counted. */
  lemma DeliveredTwice(cfg: Config, start: System, frame: Frame, tick: Tick, env: Env) returns (d: seq<byte>)
    requires NumFragments(|frame|) == 1 && |start.buffer| == BUFFER_SIZE && tick.accepts
    requires cfg.links == 2 && cfg.args.sampleRate == 1
    requires exists n, hasTx :: start == Start(0.0, n, true, PlainController(), start.buffer, hasTx)
    ensures Twice(cfg, start, SentBy(frame, tick), frame, Deliver(d, true, env))
  {
    hide Step, NumFragments, Inv, SeqOf, OffsetOf, Receive, Initial;
    d := DeliveredOnce(cfg, start, frame, tick, true, env);
    var sent, twice := SentBy(frame, tick), Deliver(d, true, env);
    Delivery(cfg, start, sent + [twice], d, true, env);
    TwoDeliveries(sent, twice);
    TwoRounds([frame], 1);
    PlainIsInitial(start);
    hide Run, Log, RoundsUpTo;
    ReceivedAreRounds(cfg, start, sent + [twice] + [twice]);
    AckedNamesFrame(Run(cfg, start, sent + [twice] + [twice]).value, 1);
  }

  lemma PlainIsInitial(start: System)
    requires |start.buffer| == BUFFER_SIZE
    requires exists n, hasTx :: start == Start(0.0, n, true, PlainController(), start.buffer, hasTx)
    ensures Initial(start)
  {
  }

  /** On a network that duplicates the loss count does underflow: a frame of one fragment is cut and sent,
      and its datagram arrives twice. */
  lemma {:induction false} DuplicateIsCountedTwice(frame: Frame, buffer: seq<byte>, windowSize: nat, hasTx: bool,
                                                   rxMode: bool, tick: Tick, env: Env)
    requires NumFragments(|frame|) == 1 && |buffer| == BUFFER_SIZE && tick.accepts
    ensures var cfg := Config(2, Args(1, rxMode));
            var start := Start(0.0, windowSize, true, PlainController(), buffer, hasTx);
            exists events :: Run(cfg, start, events).Some?
                             && var rx := Run(cfg, start, events).value.rx; rx.recevied == 2 > rx.lastSeq == 1
  {
    hide NumFragments, Run;
    var cfg, start := Config(2, Args(1, rxMode)), Start(0.0, windowSize, true, PlainController(), buffer, hasTx);
    var d := DeliveredTwice(cfg, start, frame, tick, env);
  }
}
