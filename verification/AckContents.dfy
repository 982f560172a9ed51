/** AckContents: what the acks of a run say, and what the receiver notes of them. */
module AckContents {
  import opened Packets
  import opened Throttle
  import opened Source
  import opened Record
  import opened Destination
  import opened Stuttering
  import opened EndToEnd

  /** A fragment's arrival over a link. */
  datatype Hop = Hop(link: nat, time: real)

  /** The time of the latest arrival over a link, and 0 without one. */
  function LatestOver(hops: seq<Hop>, link: nat): real {
    if hops == [] then 0.0
    else if hops[|hops| - 1].link == link then hops[|hops| - 1].time
    else LatestOver(hops[..|hops| - 1], link)
  }

  function HopOf(ev: Event): Hop
    requires ev.Deliver? && |ev.datagram| >= APP_HEADER_LENGTH
  {
    Hop(ChannelInfo(ev.datagram[8]), ev.env.recordTime)
  }

  predicate Brings(ev: Event, n: nat) {
    ev.Deliver? && |ev.datagram| >= APP_HEADER_LENGTH && SeqOf(ev.datagram) == n
  }

  /** The arrivals of fragments of frame `n` since it was last acked. */
  ghost function HopsOf(cfg: Config, start: System, events: seq<Event>, n: nat): seq<Hop>
    requires |start.buffer| == BUFFER_SIZE && Run(cfg, start, events).Some?
  {
    if events == [] then []
    else
      var before, ev := events[..|events| - 1], events[|events| - 1];
      if !Brings(ev, n) then HopsOf(cfg, start, before, n)
      else if Run(cfg, start, before).value.acked != Run(cfg, start, events).value.acked then []
      else HopsOf(cfg, start, before, n) + [HopOf(ev)]
  }

  /** The link times of the record of frame `n`. */
  ghost predicate TimesKept(r: Rec, hops: seq<Hop>) {
    r.firstTime.GetOr(0.0) == LatestOver(hops, 0) && r.secondTime.GetOr(0.0) == LatestOver(hops, 1)
  }

  lemma LatestSnoc(hops: seq<Hop>, hop: Hop, link: nat)
    ensures LatestOver(hops + [hop], link) == if hop.link == link then hop.time else LatestOver(hops, link)
  {
    assert (hops + [hop])[..|hops|] == hops;
  }

  /** Recording a datagram notes its time under the link its indicator names. */
  lemma RecordingKeepsTimes(s: System, d: seq<byte>, env: Env, hops: seq<Hop>)
    requires Inv(s) && d in s.net && |d| >= APP_HEADER_LENGTH && Recorded(s, d, env.recordTime).Some?
    requires TimesKept(Before(s.rx, SeqOf(d)), hops)
    ensures TimesKept(Recorded(s, d, env.recordTime).value, hops + [Hop(ChannelInfo(d[8]), env.recordTime)])
  {
    hide FromBuffer, Overlay, SeqOf, OffsetOf, LengthOf, QueuedOk, RecordOk, OutputOk, LatestOver, FragmentLength;
    hide RangeComplete, Before;
    assert DatagramOk(s.frames, s.accepted, d);
    ReadBack(s.buffer, d);
    var hop := Hop(ChannelInfo(d[8]), env.recordTime);
    LatestSnoc(hops, hop, 0);
    LatestSnoc(hops, hop, 1);
    IndicatorCodec(FirstLink, d[8]);
    IndicatorCodec(GetPacketType(d[8]).value, d[8]);
  }

  /** An ack names its frame and carries the encoding of the delay of the record. */
  ghost predicate Carries(out: Output, n: nat, env: Env, r: Rec) {
    && out.seqNo == n && out.time == env.ackTime
    && |out.ack| == BUFFER_SIZE && SeqOf(out.ack) == n && out.ack[19..27] == env.encode(DeltaOf(r))
  }

  lemma {:induction false} AckCarries(s: System, d: seq<byte>, keep: bool, env: Env, args: Args)
    requires Inv(s) && |s.buffer| == BUFFER_SIZE && args.sampleRate > 0 && d in s.net && |d| >= APP_HEADER_LENGTH
    requires Receive(s, d, keep, env, args).Some? && Recorded(s, d, env.recordTime).Some?
    ensures var s' := Receive(s, d, keep, env, args).value;
            s'.acked != s.acked ==>
              |s'.acked| == |s.acked| + 1
              && Carries(s'.acked[|s.acked|], SeqOf(d), env, Recorded(s, d, env.recordTime).value)
  {
    hide AfterHandleRtt, AfterRecord, FromBuffer, Overlay, Inv, SeqOf, OffsetOf, DeltaOf;
    ArrivalIsRecorded(s, d, env.recordTime);
    if Receive(s, d, keep, env, args).value.acked != s.acked {
      AckRoundTrip(s.rx, args, Overlay(s.buffer, d), env);
    }
  }

  lemma {:induction false} DeliverKeepsTimes(s: System, ev: Event, args: Args, hops: seq<Hop>, n: nat)
    requires Inv(s) && Enabled(s, ev) && ev.Deliver? && args.sampleRate > 0 && n % args.sampleRate == 0
    requires |s.buffer| == BUFFER_SIZE && TimesKept(Before(s.rx, n), hops)
    requires Receive(s, ev.datagram, ev.keep, ev.env, args).Some?
    ensures var s' := Receive(s, ev.datagram, ev.keep, ev.env, args).value;
            && TimesKept(Before(s'.rx, n), if !Brings(ev, n) then hops
                                           else if s.acked != s'.acked then [] else hops + [HopOf(ev)])
            && (Brings(ev, n) && s.acked != s'.acked ==>
                  exists r :: TimesKept(r, hops + [HopOf(ev)]) && Carries(s'.acked[|s.acked|], n, ev.env, r))
  {
    hide Inv, Receive, Recorded, SeqOf, OffsetOf, TimesKept, Carries, RecordOk;
    var d := ev.datagram;
    ReceiveEffect(s, d, ev.keep, ev.env, args);
    if Brings(ev, n) {
      RecordingKeepsTimes(s, d, ev.env, hops);
      AckCarries(s, d, ev.keep, ev.env, args);
      NoTimesYet();
    }
  }

  lemma NoTimesYet()
    ensures TimesKept(EMPTY_REC, [])
  {
  }

  lemma {:induction false} RunKeepsTimes(cfg: Config, start: System, events: seq<Event>, n: nat)
    requires Initial(start) && cfg.args.sampleRate > 0 && n % cfg.args.sampleRate == 0
    requires Run(cfg, start, events).Some?
    ensures TimesKept(Before(Run(cfg, start, events).value.rx, n), HopsOf(cfg, start, events, n))
  {
    hide TimesKept;
    if events == [] {
      NoTimesYet();
    } else {
      var before, ev := events[..|events| - 1], events[|events| - 1];
      RunKeepsTimes(cfg, start, before, n);
      InitialInv(start);
      RunKeepsInv(cfg, start, before);
      hide Inv, Receive, Initial, TrySend, Announce, IsFragmentation;
      var s := Run(cfg, start, before).value;
      if ev.Deliver? {
        DeliverKeepsTimes(s, ev, cfg.args, HopsOf(cfg, start, before, n), n);
      } else {
        OthersKeepReceiver(cfg, s, ev);
      }
    }
  }

  lemma OthersKeepReceiver(cfg: Config, s: System, ev: Event)
    requires |s.buffer| == BUFFER_SIZE && Enabled(s, ev) && !ev.Deliver? && Step(cfg, s, ev).Some?
    ensures Step(cfg, s, ev).value.rx == s.rx && Step(cfg, s, ev).value.acked == s.acked
  {
    hide Iterate, AfterPrepare, IsFragmentation;
  }

  /** What the ack that a delivery leads to says, given the arrivals of its frame before. */
  ghost predicate Says(out: Output, ev: Event, before: seq<Hop>)
    requires ev.Deliver? && |ev.datagram| >= APP_HEADER_LENGTH
  {
    var hops := before + [HopOf(ev)];
    && out.seqNo == SeqOf(ev.datagram) && out.time == ev.env.ackTime
    && |out.ack| == BUFFER_SIZE && SeqOf(out.ack) == out.seqNo
    && out.ack[19..27] == ev.env.encode(LatestOver(hops, 1) - LatestOver(hops, 0))
  }

  /** The reported delay: in every run, a delivery that completes a frame is acked under the frame's number,
      and the ack carries the encoding of the time from the frame's latest arrival over the first link to its
      latest over the second, counted since the frame was last acked; a link without arrivals counts as
      time 0. */
  lemma {:induction false} AckedDelay(cfg: Config, start: System, events: seq<Event>)
    requires Initial(start) && cfg.args.sampleRate > 0 && Run(cfg, start, events).Some? && events != []
    requires var before := Run(cfg, start, events[..|events| - 1]);
             before.Some? && before.value.acked != Run(cfg, start, events).value.acked
    ensures var ev, before := events[|events| - 1], events[..|events| - 1];
            && ev.Deliver? && |ev.datagram| >= APP_HEADER_LENGTH
            && var acked := Run(cfg, start, events).value.acked;
               && |acked| == |Run(cfg, start, before).value.acked| + 1
               && Says(acked[|acked| - 1], ev, HopsOf(cfg, start, before, SeqOf(ev.datagram)))
  {
    var before, ev := events[..|events| - 1], events[|events| - 1];
    InitialInv(start);
    RunKeepsInv(cfg, start, before);
    hide Inv, Step, Enabled, HopsOf, SeqOf, OffsetOf, TimesKept, Carries, Says;
    var s := Run(cfg, start, before).value;
    AckNeedsDelivery(cfg, s, ev);
    var hops := HopsOf(cfg, start, before, SeqOf(ev.datagram));
    RunKeepsTimes(cfg, start, before, SeqOf(ev.datagram));
    DelayOfStep(cfg, s, ev, hops);
  }

  lemma {:induction false} AckNeedsDelivery(cfg: Config, s: System, ev: Event)
    requires Inv(s) && cfg.args.sampleRate > 0 && |s.buffer| == BUFFER_SIZE
    requires Enabled(s, ev) && Step(cfg, s, ev).Some? && Step(cfg, s, ev).value.acked != s.acked
    ensures ev.Deliver? && |ev.datagram| >= APP_HEADER_LENGTH && SeqOf(ev.datagram) % cfg.args.sampleRate == 0
    ensures |Step(cfg, s, ev).value.acked| == |s.acked| + 1
  {
    hide Inv, Receive, SeqOf, OffsetOf, Recorded, TrySend, Announce, IsFragmentation, GatherUpTo;
    if ev.Deliver? {
      ReceiveEffect(s, ev.datagram, ev.keep, ev.env, cfg.args);
    } else {
      OthersKeepReceiver(cfg, s, ev);
    }
  }

  lemma {:induction false} DelayOfStep(cfg: Config, s: System, ev: Event, hops: seq<Hop>)
    requires Inv(s) && cfg.args.sampleRate > 0 && |s.buffer| == BUFFER_SIZE
    requires Enabled(s, ev) && Step(cfg, s, ev).Some? && Step(cfg, s, ev).value.acked != s.acked
    requires ev.Deliver? && |ev.datagram| >= APP_HEADER_LENGTH && SeqOf(ev.datagram) % cfg.args.sampleRate == 0
    requires TimesKept(Before(s.rx, SeqOf(ev.datagram)), hops)
    ensures var acked := Step(cfg, s, ev).value.acked;
            |acked| == |s.acked| + 1 && Says(acked[|acked| - 1], ev, hops)
  {
    hide Inv, Receive, SeqOf, OffsetOf, LatestOver, Before, Recorded;
    var n := SeqOf(ev.datagram);
    AckNeedsDelivery(cfg, s, ev);
    DeliverKeepsTimes(s, ev, cfg.args, hops, n);
    var r :| TimesKept(r, hops + [HopOf(ev)]) && Carries(Step(cfg, s, ev).value.acked[|s.acked|], n, ev.env, r);
  }

  /** The times of the acks. */
  function AckTimes(acked: seq<Output>): seq<real> {
    seq(|acked|, i requires 0 <= i < |acked| => acked[i].time)
  }

  lemma {:induction false} ReceiveNotesAck(s: System, d: seq<byte>, keep: bool, env: Env, args: Args)
    requires Inv(s) && |s.buffer| == BUFFER_SIZE && args.sampleRate > 0 && d in s.net && |d| >= APP_HEADER_LENGTH
    requires Receive(s, d, keep, env, args).Some?
    ensures var s' := Receive(s, d, keep, env, args).value;
            || (s'.acked == s.acked && s'.rx.stutter == s.rx.stutter)
            || (|s'.acked| == |s.acked| + 1 && s'.acked[..|s.acked|] == s.acked
                && s'.rx.stutter == AfterUpdate(s.rx.stutter, s'.acked[|s.acked|].time))
  {
    hide AfterHandleRtt, AfterRecord, FromBuffer, Overlay, Inv, SeqOf, OffsetOf, GatherUpTo, AfterUpdate;
    ArrivalIsRecorded(s, d, env.recordTime);
    HandlerOutcome(s.rx, args, Overlay(s.buffer, d), env, Recorded(s, d, env.recordTime).value);
  }

  lemma {:induction false} StepNotesAck(cfg: Config, s: System, ev: Event)
    requires Inv(s) && |s.buffer| == BUFFER_SIZE && cfg.args.sampleRate > 0
    requires Enabled(s, ev) && Step(cfg, s, ev).Some? && s.rx.stutter == AfterAcks(AckTimes(s.acked))
    ensures var s' := Step(cfg, s, ev).value; s'.rx.stutter == AfterAcks(AckTimes(s'.acked))
  {
    hide Inv, Receive, TrySend, Announce, IsFragmentation, AfterUpdate;
    var s' := Step(cfg, s, ev).value;
    if ev.Deliver? {
      ReceiveNotesAck(s, ev.datagram, ev.keep, ev.env, cfg.args);
      if s'.acked != s.acked {
        assert AckTimes(s'.acked)[..|s.acked|] == AckTimes(s.acked);
      }
    } else {
      OthersKeepReceiver(cfg, s, ev);
    }
  }

  /** The stuttering is measured on the acks: in every run the tracker is what the times of all acks, in
      order, make it. */
  lemma {:induction false} StutterFollowsAcks(cfg: Config, start: System, events: seq<Event>)
    requires Initial(start) && cfg.args.sampleRate > 0 && Run(cfg, start, events).Some?
    ensures var s := Run(cfg, start, events).value;
            s.rx.stutter == AfterAcks(AckTimes(s.acked))
  {
    if events == [] {
      assert AckTimes([]) == [];
    } else {
      var before := events[..|events| - 1];
      StutterFollowsAcks(cfg, start, before);
      InitialInv(start);
      RunKeepsInv(cfg, start, before);
      hide Inv, Step, Enabled, Initial, AfterAcks, AckTimes;
      StepNotesAck(cfg, Run(cfg, start, before).value, events[|events| - 1]);
    }
  }
}
