/** Epochs: what a send attempt decides from, and what a run of attempts keeps of the queue snapshots. */
module Epochs {
  import opened Wrappers
  import opened Packets
  import opened Policies
  import opened TxPartCtl
  import opened Source
  import opened Scheduling

  /** A monitored controller decides only on a snapshot that shows queues and links. */
  predicate Decides(isMon: bool, snap: Snapshot) {
    !isMon || (snap.queues != [] && snap.link != [])
  }

  /** The message a decision is made on: the packet's place in its frame, the block signals, and the counters
      and rates of the epoch. */
  lemma ScheduledMessage(c: Controller, p: PacketWithMeta, snap: Snapshot)
    ensures var (c', m) := ScheduleInfo(c, p, snap);
            && (m.Some? <==> Decides(c.isMon, snap))
            && (m.None? ==> c' == c)
            && (m.Some? ==>
                  && c' == c.(message := m)
                  && m.value.offset == p.packet.offset && m.value.num == p.num && m.value.seqNo == p.packet.seqNo
                  && m.value.arrivalTime == p.arrivalTime && m.value.blocked == c.blocked
                  && m.value.currentTime == snap.takenAt
                  && m.value.ac1Info == Counters(c, snap) && m.value.mcsValues == Rates(c, snap))
  {
  }

  lemma ChannelsAreLinks()
    ensures forall t :: ChannelInfo(ToIndicator(t)) == LinkOf(t) < 2
  {
  }

  /** A decision on the kept message: the policy's, counted if monitored. */
  lemma DecideEffect(c: Controller)
    ensures c.message.Some? ==>
              var m, t := c.message.value, PacketState(c.policy, c.message.value, c.params);
              && (Decide(c, m).None? <==> t.None? || (c.isMon && LinkOf(t.value) >= |m.ac1Info|))
              && (Decide(c, m).Some? ==>
                    && Decide(c, m).value.1 == t.value
                    && Decide(c, m).value.0
                       == if !c.isMon then c
                          else
                            var link := LinkOf(t.value);
                            c.(message := Some(m.(ac1Info := m.ac1Info[link := m.ac1Info[link] + 1]))))
  {
    hide PacketState;
  }

  /** What an attempt does to the controller: nothing when it is not scheduled; otherwise the message is kept,
      with the link that was tried counted if the controller is monitored, and a refused send latches that
      link's signal. */
  lemma {:induction false} AttemptEffect(c: Controller, p: PacketWithMeta, snap: Snapshot, links: nat, accepts: bool)
    requires SendCallback(c, p, snap, links, accepts).Some?
    ensures var (c', s) := SendCallback(c, p, snap, links, accepts).value;
            && (s.Unscheduled? <==> !Decides(c.isMon, snap))
            && (s.Unscheduled? ==> c' == c)
            && (!s.Unscheduled? ==>
                  && |LinkTried(s)| == 1 && LinkTried(s)[0] < 2 && LinkTried(s)[0] < links && s.Sent? == accepts
                  && c' == c.(message := c'.message,
                              blocked := if accepts then c.blocked else c.blocked[LinkTried(s)[0] := true])
                  && c'.message.Some?
                  && c'.message.value.currentTime == snap.takenAt
                  && c'.message.value.mcsValues == Rates(c, snap)
                  && var q, q', link := Counters(c, snap), c'.message.value.ac1Info, LinkTried(s)[0];
                     if c.isMon then link < |q| && q' == q[link := q[link] + 1] else q' == q)
  {
    ScheduledMessage(c, p, snap);
    ChannelsAreLinks();
    DecideEffect(ScheduleInfo(c, p, snap).0);
    hide PacketState, ScheduleInfo, Counters, Rates, ChannelInfo, ToIndicator, LinkOf;
  }

  /** When an attempt panics: when it is scheduled, and the policy panics, the chosen link has no socket or, if
      monitored, no counter, or the packet is longer than the payload. */
  lemma {:induction false} AttemptPanicsIff(c: Controller, p: PacketWithMeta, snap: Snapshot, links: nat, accepts: bool)
    ensures SendCallback(c, p, snap, links, accepts).None? <==>
            && Decides(c.isMon, snap)
            && var t := PacketState(c.policy, ScheduleInfo(c, p, snap).1.value, c.params);
               || t.None?
               || LinkOf(t.value) >= links || p.packet.length > MAX_PAYLOAD_LEN
               || (c.isMon && LinkOf(t.value) >= |Counters(c, snap)|)
  {
    ScheduledMessage(c, p, snap);
    DecideEffect(ScheduleInfo(c, p, snap).0);
    ChannelsAreLinks();
    hide PacketState, ScheduleInfo, Counters, Rates, ChannelInfo, ToIndicator, LinkOf;
  }

  /** An attempt that decides tries the link the policy chose. */
  lemma {:induction false} AttemptTries(c: Controller, p: PacketWithMeta, snap: Snapshot, links: nat, accepts: bool)
    requires Decides(c.isMon, snap) && SendCallback(c, p, snap, links, accepts).Some?
    ensures var (c1, m) := ScheduleInfo(c, p, snap);
            && m.Some? && PacketState(c.policy, m.value, c.params).Some?
            && LinkTried(SendCallback(c, p, snap, links, accepts).value.1)
               == [LinkOf(PacketState(c.policy, m.value, c.params).value)]
  {
    ScheduledMessage(c, p, snap);
    DecideEffect(ScheduleInfo(c, p, snap).0);
    ChannelsAreLinks();
    hide PacketState, ScheduleInfo, Counters, Rates, ChannelInfo, ToIndicator, LinkOf;
  }

  /** Which link a queue-aware attempt tries, from the counters, the rates and the thetas: the first exactly
      when its backlog with the new packet is the lighter load. `v` and `w` are what the backlogs are divided
      by. */
  lemma {:induction false} QueueAwareTries(c: Controller, p: PacketWithMeta, snap: Snapshot, links: nat, accepts: bool,
                                           v: real, w: real)
    requires c.policy.QueueAware? && Decides(c.isMon, snap)
    requires SendCallback(c, p, snap, links, accepts).Some?
    requires Rates(c, snap).Some? && |Rates(c, snap).value| >= 2 ==>
               && v == c.params.theta3 * Rates(c, snap).value[0] + 0.01
               && w == c.params.theta4 * Rates(c, snap).value[1] + 0.01
    ensures |Counters(c, snap)| >= 2 && Rates(c, snap).Some? && |Rates(c, snap).value| >= 2
    ensures var q := Counters(c, snap);
            LinkTried(SendCallback(c, p, snap, links, accepts).value.1)
            == [if Lighter(1 + q[0], v, 1 + q[1], w) then 0 else 1]
  {
    AttemptTries(c, p, snap, links, accepts);
    ScheduledMessage(c, p, snap);
    hide PacketState, ScheduleInfo, Counters, Rates, Lighter, SendCallback;
    QueueAwareIff(ScheduleInfo(c, p, snap).1.value, c.params);
  }

  /** And a simple queue-aware one, which adds the rest of the frame to both backlogs. */
  lemma {:induction false} SimpleQueueAwareTries(c: Controller, p: PacketWithMeta, snap: Snapshot, links: nat,
                                                 accepts: bool)
    requires c.policy.SimpleQueueAware? && Decides(c.isMon, snap)
    requires SendCallback(c, p, snap, links, accepts).Some?
    ensures |Counters(c, snap)| >= 2 && Rates(c, snap).Some? && |Rates(c, snap).value| >= 2
    ensures p.packet.offset <= p.num
    ensures var q, r, left := Counters(c, snap), Rates(c, snap).value, p.num - p.packet.offset;
            LinkTried(SendCallback(c, p, snap, links, accepts).value.1)
            == [if Lighter(left + q[0], c.params.theta3 * r[0], left + q[1], c.params.theta4 * r[1]) then 0 else 1]
  {
    AttemptTries(c, p, snap, links, accepts);
    ScheduledMessage(c, p, snap);
    SimpleQueueAwareIff(ScheduleInfo(c, p, snap).1.value, c.params);
    hide PacketState, ScheduleInfo, Counters, Rates, Lighter, SendCallback;
  }

  // ---------------------------------------------------------------------------------------------
  // Every run

  /** The epoch a run has got to: the snapshot it began with, and how many links had been tried before. */
  datatype Epoch = NoEpoch | Since(snap: Snapshot, before: nat)

  /** The attempts that decide, one link tried for each. */
  function Decisions(inputs: seq<Input>, isMon: bool): nat {
    if inputs == [] then 0
    else Decisions(inputs[..|inputs| - 1], isMon) + if Decides(isMon, inputs[|inputs| - 1].snap) then 1 else 0
  }

  /** A snapshot taken at another time than the current one begins a new epoch. */
  function EpochOf(inputs: seq<Input>, isMon: bool): Epoch {
    if inputs == [] then NoEpoch
    else
      var front, snap := inputs[..|inputs| - 1], inputs[|inputs| - 1].snap;
      var e := EpochOf(front, isMon);
      if !Decides(isMon, snap) || (e.Since? && e.snap.takenAt == snap.takenAt) then e
      else Since(snap, Decisions(front, isMon))
  }

  /** The kept message is that of the epoch: its time and rates are those of the snapshot the epoch began with,
      and a monitored controller has added to its counters the links tried since. */
  ghost predicate EpochKept(c: Controller, tried: seq<nat>, e: Epoch) {
    match e
    case NoEpoch => c.message.None?
    case Since(snap, before) =>
      && c.message.Some? && before <= |tried|
      && var m := c.message.value;
         && m.currentTime == snap.takenAt && m.mcsValues == CollectRates(snap.link)
         && |m.ac1Info| == |snap.queues|
         && forall l: nat :: l < |snap.queues| ==>
              m.ac1Info[l] == snap.queues[l] + if c.isMon then Uses(tried, l) - Uses(tried[..before], l) else 0
  }

  lemma UsesGrow(tried: seq<nat>, link: nat, before: nat)
    requires before <= |tried|
    ensures (tried + [link])[..before] == tried[..before]
    ensures forall l: nat :: Uses(tried + [link], l) == Uses(tried, l) + if link == l then 1 else 0
  {
    forall l: nat
      ensures Uses(tried + [link], l) == Uses(tried, l) + if link == l then 1 else 0
    {
      UsesSnoc(tried, link, l);
    }
  }

  lemma {:induction false} StepKeepsEpoch(c: Controller, tried: seq<nat>, e: Epoch, x: Input, links: nat)
    requires EpochKept(c, tried, e) && SendCallback(c, x.packet, x.snap, links, x.accepts).Some?
    ensures var (c', s) := SendCallback(c, x.packet, x.snap, links, x.accepts).value;
            && c'.isMon == c.isMon && |LinkTried(s)| == (if Decides(c.isMon, x.snap) then 1 else 0)
            && EpochKept(c', tried + LinkTried(s),
                         if !Decides(c.isMon, x.snap) || (e.Since? && e.snap.takenAt == x.snap.takenAt) then e
                         else Since(x.snap, |tried|))
  {
    AttemptEffect(c, x.packet, x.snap, links, x.accepts);
    hide SendCallback, CollectRates, Uses;
    var s := SendCallback(c, x.packet, x.snap, links, x.accepts).value.1;
    if Decides(c.isMon, x.snap) {
      var link := LinkTried(s)[0];
      assert LinkTried(s) == [link];
      UsesGrow(tried, link, if e.Since? then e.before else 0);
      assert (tried + [link])[..|tried|] == tried;
    } else {
      assert tried + [] == tried;
    }
  }

  /** The epochs of a run: after any attempts of a new controller, with snapshots changing at any time, the
      kept message has the time and the rates of the snapshot that began the current epoch, and its counters
      are that snapshot's backlogs and, if monitored, the links tried since: each attempt on an older snapshot
      is forgotten with it. */
  lemma {:induction false} CountersOfTheEpoch(policy: Policy, params: PolicyParameter, isMon: bool,
                                              inputs: seq<Input>, links: nat)
    requires Attempts(Controller(policy, params, [false, false], isMon, None), inputs, links).Some?
    ensures var (c, tried) := Attempts(Controller(policy, params, [false, false], isMon, None), inputs, links).value;
            && c.isMon == isMon && |tried| == Decisions(inputs, isMon)
            && EpochKept(c, tried, EpochOf(inputs, isMon))
  {
    hide SendCallback, EpochKept;
    var c := Controller(policy, params, [false, false], isMon, None);
    if inputs == [] {
      NothingKept(c);
    } else {
      var front, x := inputs[..|inputs| - 1], inputs[|inputs| - 1];
      CountersOfTheEpoch(policy, params, isMon, front, links);
      var r := Attempts(c, front, links).value;
      StepKeepsEpoch(r.0, r.1, EpochOf(front, isMon), x, links);
    }
  }

  lemma NothingKept(c: Controller)
    requires c.message.None?
    ensures EpochKept(c, [], NoEpoch)
  {
  }
}
