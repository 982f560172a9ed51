/** Source: cutting frames into fragments and working the queue off (tx/src/source.rs). */
module Source {
  import opened Wrappers
  import opened Packets
  import opened Policies
  import opened TxPartCtl
  import opened Throttle

  type Frame = seq<byte>

  /** How the threads split a frame's size into fragments. */
  function NumFragments(size: nat): nat {
    size / MAX_PAYLOAD_LEN + if size % MAX_PAYLOAD_LEN > 0 then 1 else 0
  }

  /** How many packets are made of it: the loop counter is 16 bits wide. */
  function PacketCount(size: nat): nat {
    NumFragments(size) % 0x1_0000
  }

  predicate IsLastIndex(size: nat, offset: nat) {
    NumFragments(size) > 0 && offset == (NumFragments(size) - 1) % 0x1_0000
  }

  function FragmentLength(size: nat, offset: nat): nat {
    if IsLastIndex(size, offset) then size % MAX_PAYLOAD_LEN else MAX_PAYLOAD_LEN
  }

  lemma FragmentFits(size: nat, offset: nat)
    requires offset < PacketCount(size)
    ensures offset * MAX_PAYLOAD_LEN + FragmentLength(size, offset) <= size
  {
    assert NumFragments(size) >= 1;
    if offset == NumFragments(size) - 1 {
      assert IsLastIndex(size, offset);
    } else {
      assert (offset + 1) * MAX_PAYLOAD_LEN <= size;
    }
  }

  /** The bytes of a frame that a fragment carries. */
  function FragmentBytes(frame: Frame, offset: nat): (b: seq<byte>)
    requires offset < PacketCount(|frame|)
    ensures |b| == FragmentLength(|frame|, offset) <= MAX_PAYLOAD_LEN
  {
    FragmentFits(|frame|, offset);
    var start := offset * MAX_PAYLOAD_LEN;
    seq(FragmentLength(|frame|, offset), i requires 0 <= i < FragmentLength(|frame|, offset) => frame[start + i])
  }

  /** A queued packet is the fragment of `frame` at its offset. */
  predicate IsFragment(frame: Frame, seqNo: nat, offset: nat, p: PacketWithMeta) {
    && offset < PacketCount(|frame|)
    && p.packet.seqNo == seqNo && p.packet.offset == offset && p.num == NumFragments(|frame|)
    && p.packet.length == FragmentLength(|frame|, offset)
    && p.packet.payload[..p.packet.length] == FragmentBytes(frame, offset)
    && p.lastOne == IsLastIndex(|frame|, offset)
  }

  /** The packets of a frame: one per offset, in order. */
  predicate IsFragmentation(frame: Frame, seqNo: nat, packets: seq<PacketWithMeta>) {
    && |packets| == PacketCount(|frame|)
    && forall i :: 0 <= i < |packets| ==> IsFragment(frame, seqNo, i, packets[i])
  }

  /** The packets made when there are no bytes to cut: only their headers differ, and every one carries the
      payload the template held. */
  predicate IsBlank(template: PacketWithMeta, remains: nat, packets: seq<PacketWithMeta>) {
    && |packets| == template.num % 0x1_0000
    && forall i :: 0 <= i < |packets| ==> IsBlankAt(template, remains, i, packets[i])
  }

  predicate IsBlankAt(template: PacketWithMeta, remains: nat, offset: nat, p: PacketWithMeta) {
    && p.packet.seqNo == template.packet.seqNo && p.packet.offset == offset && p.num == template.num
    && p.lastOne == (offset == (template.num - 1) % 0x1_0000)
    && p.packet.length == (if p.lastOne then remains % 0x1_0000 else MAX_PAYLOAD_LEN)
    && p.packet.payload == template.packet.payload
  }

  /** Cuts a frame, or without a frame makes the packets of the size the template was numbered for. The
      template carries the fragment count already. A slice outside the frame would be a panic, which the
      count and the remainder the threads compute exclude. */
  method GeneratePackets(remains: nat, template: PacketTemplate, buffer: Option<Frame>, now: real)
    returns (packets: seq<PacketWithMeta>)
    requires buffer.Some? ==> template.num == NumFragments(|buffer.value|)
    requires buffer.Some? ==> remains == |buffer.value| % MAX_PAYLOAD_LEN
    modifies template
    ensures buffer.Some? ==> IsFragmentation(buffer.value, old(template.packet.seqNo), packets)
    ensures buffer.None? ==> IsBlank(old(template.Clone()), remains, packets)
    ensures forall i :: 0 <= i < |packets| ==> packets[i].arrivalTime == now && packets[i].port == template.port
    ensures template.packet.seqNo == old(template.packet.seqNo) && template.num == old(template.num)
  {
    packets := [];
    template.arrivalTime := now;
    for offset := 0 to template.num % 0x1_0000
      invariant template.packet.seqNo == old(template.packet.seqNo) && template.num == old(template.num)
      invariant template.arrivalTime == now
      invariant |packets| == offset
      invariant buffer.None? ==> template.packet.payload == old(template.packet.payload)
      invariant buffer.None? ==>
                  forall i :: 0 <= i < |packets| ==> IsBlankAt(old(template.Clone()), remains, i, packets[i])
      invariant buffer.Some? ==>
                  forall i :: 0 <= i < |packets| ==>
                    IsFragment(buffer.value, old(template.packet.seqNo), i, packets[i])
      invariant forall i :: 0 <= i < |packets| ==> packets[i].arrivalTime == now && packets[i].port == template.port
    {
      var length := if offset == (template.num - 1) % 0x1_0000 then remains % 0x1_0000 else MAX_PAYLOAD_LEN;
      template.SetLength(length);
      template.SetOffset(offset);
      if buffer.Some? {
        var frame := buffer.value;
        FragmentFits(|frame|, offset);
        var bytes := frame[offset * MAX_PAYLOAD_LEN..offset * MAX_PAYLOAD_LEN + length];
        template.SetPayload(bytes);
        assert template.packet.payload[..length] == bytes == FragmentBytes(frame, offset);
      }
      packets := packets + [template.Clone()];
    }
  }

  /** The frame of a size alone: the payload over and over. */
  function BlankFrame(payload: Payload, size: nat): (f: Frame)
    ensures |f| == size
  {
    seq(size, i requires 0 <= i < size => payload[i % MAX_PAYLOAD_LEN])
  }

  /** Packets made without bytes are the fragments of the frame that repeats the template's payload, so
      whatever holds of frames holds of them. */
  lemma {:induction false} BlankIsFragmentation(template: PacketWithMeta, size: nat, packets: seq<PacketWithMeta>)
    requires template.num == NumFragments(size) && IsBlank(template, size % MAX_PAYLOAD_LEN, packets)
    ensures IsFragmentation(BlankFrame(template.packet.payload, size), template.packet.seqNo, packets)
  {
    var frame := BlankFrame(template.packet.payload, size);
    forall i | 0 <= i < |packets|
      ensures IsFragment(frame, template.packet.seqNo, i, packets[i])
    {
      assert IsBlankAt(template, size % MAX_PAYLOAD_LEN, i, packets[i]);
      BlankBytes(template.packet.payload, size, i);
    }
  }

  lemma BlankBytes(payload: Payload, size: nat, offset: nat)
    requires offset < PacketCount(size)
    ensures FragmentBytes(BlankFrame(payload, size), offset) == payload[..FragmentLength(size, offset)]
  {
    FragmentFits(size, offset);
    hide PacketCount, FragmentLength;
    forall i | 0 <= i < FragmentLength(size, offset)
      ensures FragmentBytes(BlankFrame(payload, size), offset)[i] == payload[i]
    {
      assert (offset * MAX_PAYLOAD_LEN + i) % MAX_PAYLOAD_LEN == i;
    }
  }

  /** A fragmentation marks at most one packet last, and exactly one when the frame is not empty and has
      fewer than 65536 fragments. */
  lemma {:induction false} FragmentationLastOnes(frame: Frame, seqNo: nat, packets: seq<PacketWithMeta>)
    requires IsFragmentation(frame, seqNo, packets)
    ensures LastOnes(packets) == (if packets == [] then 0 else 1)
  {
    var n := |packets|;
    if n > 0 {
      assert forall i :: 0 <= i < n ==> (packets[i].lastOne <==> i == n - 1) by {
        assert (NumFragments(|frame|) - 1) % 0x1_0000 == n - 1;
      }
      NoneLast(packets[..n - 1]);
      LastOnesConcat(packets[..n - 1], [packets[n - 1]]);
      assert packets == packets[..n - 1] + [packets[n - 1]];
    }
  }

  lemma {:induction false} NoneLast(q: seq<PacketWithMeta>)
    requires forall i :: 0 <= i < |q| ==> !q[i].lastOne
    ensures LastOnes(q) == 0
  {
    if q != [] {
      NoneLast(q[1..]);
    }
  }

  // ---------------------------------------------------------------------------------------------
  // Working the queue off

  datatype Sending = Unscheduled | Sent(packet: PacketWithMeta) | Blocked(channel: nat)

  /** The send callback: schedule, choose a link, stamp a copy of the packet and hand it to the socket of
      that link. `accepts` is the socket's answer. `None` is a panic: no socket for the link, or one
      inside the policy. */
  function SendCallback(c: Controller, p: PacketWithMeta, snap: Snapshot, links: nat, accepts: bool)
    : (r: Option<(Controller, Sending)>)
    ensures r.Some? && r.value.1.Sent? ==> p.packet.length <= MAX_PAYLOAD_LEN
  {
    var (c1, info) := ScheduleInfo(c, p, snap);
    if info.None? then Some((c1, Unscheduled))
    else
      var (c2, t) :- Decide(c1, info.value);
      var stamped := SetIndicator(p, t);
      if stamped.channel >= links || p.packet.length > MAX_PAYLOAD_LEN then None
      else if accepts then Some((c2, Sent(stamped)))
      else Some((c2.(blocked := c2.blocked[stamped.channel := true]), Blocked(stamped.channel)))
  }

  /** What leaves is the packet with only its indicator stamped, marked last exactly when it is the last of
      its frame, on a link that has a socket. */
  lemma SendCallbackStamps(c: Controller, p: PacketWithMeta, snap: Snapshot, links: nat, accepts: bool)
    requires SendCallback(c, p, snap, links, accepts).Some?
    requires SendCallback(c, p, snap, links, accepts).value.1.Sent?
    ensures exists t ::
              && SendCallback(c, p, snap, links, accepts).value.1.packet == SetIndicator(p, t)
              && LinkOf(t) < links && (MarksLast(t) <==> p.packet.offset == p.num - 1)
  {
    var (c1, info) := ScheduleInfo(c, p, snap);
    var t := Decide(c1, info.value).value.1;
    EveryPolicyMarksLast(c1.policy, info.value, c1.params);
    hide Decide, PacketState, ScheduleInfo;
    assert SendCallback(c, p, snap, links, accepts).value.1.packet == SetIndicator(p, t);
  }

  method RunSendCallback(ctl: TxPartCtler, p: PacketWithMeta, snap: Snapshot, links: nat, accepts: bool)
    returns (r: Sending)
    requires SendCallback(ctl.Model(), p, snap, links, accepts).Some?
    modifies ctl
    ensures (ctl.Model(), r) == SendCallback(old(ctl.Model()), p, snap, links, accepts).value
  {
    var info := ctl.DetermineScheduleInfo(p, snap);
    if info.None? {
      return Unscheduled;
    }
    var t := ctl.GetPacketState(info.value);
    var stamped := SetIndicator(p, t);
    if accepts {
      return Sent(stamped);
    }
    ctl.Block(stamped.channel);
    r := Blocked(stamped.channel);
  }

  /** What the world supplies to one iteration: clock readings, the latest snapshot, the socket's answer. */
  datatype Tick = Tick(t: Reads, snap: Snapshot, accepts: bool)

  datatype Sender = Sender(thr: Throttler, ctl: Controller)

  /** One iteration of the queue loop: the sender afterwards, the datagram put on the wire if any, and
      whether the queue was found empty. */
  datatype Iteration = Iteration(sender: Sender, wire: Option<seq<byte>>, idle: bool)

  function Iterate(s: Sender, tick: Tick, links: nat): (r: Option<Iteration>) {
    if s.thr.buffer == [] then Some(Iteration(s, None, true))
    else
      var p := s.thr.buffer[0];
      var (thr1, exceeded) := AfterExceedsWith(s.thr, p.packet.length, tick.t);
      if exceeded then Some(Iteration(Sender(thr1, s.ctl), None, false))
      else
        var (ctl1, sending) :- SendCallback(s.ctl, p, tick.snap, links, tick.accepts);
        var wire := if sending.Sent? then Some(Datagram(sending.packet.packet)) else None;
        Some(Iteration(Sender(AfterSettle(thr1, sending.Sent?, tick.t), ctl1), wire, false))
  }

  /** An iteration is one attempt of the throttler whose callback answers whether the datagram left; what
      leaves is the head packet with only its indicator stamped, and what stays is the head unchanged. */
  lemma IterateIsTryConsume(s: Sender, tick: Tick, links: nat)
    requires Iterate(s, tick, links).Some?
    ensures var i := Iterate(s, tick, links).value;
            && (i.sender.thr, if i.idle then Idle else if i.wire.Some? then Consumed(s.thr.buffer[0])
                              else AfterTryConsume(s.thr, tick.t, false).1)
               == AfterTryConsume(s.thr, tick.t, i.wire.Some?)
            && i.sender.thr.buffer == (if i.wire.Some? then s.thr.buffer[1..] else s.thr.buffer)
            && (i.wire.Some? ==> s.thr.buffer != [])
            && (i.wire.Some? ==> exists t :: IsDatagramOf(i.wire.value, s.thr.buffer[0], t))
  {
    if s.thr.buffer != [] {
      var p := s.thr.buffer[0];
      ExceedsWithFrame(s.thr, p.packet.length, tick.t);
      hide AfterExceedsWith, SendCallback;
      if Iterate(s, tick, links).value.wire.Some? {
        SendCallbackStamps(s.ctl, p, tick.snap, links, tick.accepts);
        var stamped := SendCallback(s.ctl, p, tick.snap, links, tick.accepts).value.1.packet;
        var t :| stamped == SetIndicator(p, t) && (MarksLast(t) <==> p.packet.offset == p.num - 1);
        assert IsDatagramOf(Iterate(s, tick, links).value.wire.value, p, t);
      }
    }
  }

  /** A datagram carries a queued packet with only its indicator stamped, marked last exactly when the
      packet is the last of its frame. */
  predicate IsDatagramOf(d: seq<byte>, p: PacketWithMeta, t: PacketType) {
    && p.packet.length <= MAX_PAYLOAD_LEN && d == Datagram(SetIndicator(p, t).packet)
    && (MarksLast(t) <==> p.packet.offset == p.num - 1)
  }

  /** The loop until the queue is found empty or the ticks (the time until the deadline) run out. */
  function Process(s: Sender, ticks: seq<Tick>, links: nat): Option<(Sender, seq<seq<byte>>)>
    decreases |ticks|
  {
    if ticks == [] then Some((s, []))
    else
      var i :- Iterate(s, ticks[0], links);
      if i.idle then Some((i.sender, []))
      else
        var (s1, rest) :- Process(i.sender, ticks[1..], links);
        Some((s1, (if i.wire.Some? then [i.wire.value] else []) + rest))
  }

  predicate InTickOrder(ticks: seq<Tick>, clock: nat) {
    ticks != [] ==>
      var t := ticks[0].t;
      clock <= t.eval <= t.push <= t.consume && InTickOrder(ticks[1..], t.consume)
  }

  lemma IterateKeepsTimely(s: Sender, tick: Tick, links: nat, clock: nat)
    requires Timely(s.thr, clock) && clock <= tick.t.eval <= tick.t.push <= tick.t.consume
    requires Iterate(s, tick, links).Some?
    ensures Timely(Iterate(s, tick, links).value.sender.thr, tick.t.consume)
  {
    if s.thr.buffer != [] {
      ExceedsWithKeepsTimely(s.thr, s.thr.buffer[0].packet.length, tick.t);
      hide AfterExceedsWith, SendCallback;
    }
  }

  /** One iteration of the queue loop. The closure the source passes to `try_consume` is written in
      line, since it changes the controller. */
  method IterateQueue(thr: RateThrottler, ctl: TxPartCtler, tick: Tick, links: nat, ghost clock: nat)
    returns (wire: Option<seq<byte>>, idle: bool)
    requires thr.Invariant() && Timely(thr.Model(), clock)
    requires clock <= tick.t.eval <= tick.t.push <= tick.t.consume
    requires Iterate(Sender(thr.Model(), ctl.Model()), tick, links).Some?
    modifies thr, thr.window, thr.buffer, ctl
    ensures thr.Invariant() && Timely(thr.Model(), tick.t.consume)
    ensures Iteration(Sender(thr.Model(), ctl.Model()), wire, idle)
            == Iterate(Sender(old(thr.Model()), old(ctl.Model())), tick, links).value
  {
    IterateKeepsTimely(Sender(thr.Model(), ctl.Model()), tick, links, clock);
    hide Valid, AfterExceedsWith, AfterSettle, SendCallback, Timely;
    if thr.buffer.fifo == [] {
      return None, true;
    }
    var p := thr.buffer.fifo[0];
    ExceedsWithFrame(thr.Model(), p.packet.length, tick.t);
    var exceeded := thr.ExceedsWith(p.packet.length, tick.t);
    if exceeded {
      return None, false;
    }
    var sending := RunSendCallback(ctl, p, tick.snap, links, tick.accepts);
    thr.Settle(p, sending.Sent?, tick.t);
    wire := if sending.Sent? then Some(Datagram(sending.packet.packet)) else None;
    idle := false;
  }

  /** The queue loop. */
  method ProcessQueue(thr: RateThrottler, ctl: TxPartCtler, ticks: seq<Tick>, links: nat, ghost clock: nat)
    returns (wire: seq<seq<byte>>)
    requires thr.Invariant() && Timely(thr.Model(), clock) && InTickOrder(ticks, clock)
    requires Process(Sender(thr.Model(), ctl.Model()), ticks, links).Some?
    modifies thr, thr.window, thr.buffer, ctl
    ensures thr.Invariant()
    ensures (Sender(thr.Model(), ctl.Model()), wire)
            == Process(Sender(old(thr.Model()), old(ctl.Model())), ticks, links).value
  {
    hide Iterate, Valid, Timely;
    wire := [];
    ghost var start := Sender(thr.Model(), ctl.Model());
    ghost var now := clock;
    var n := 0;
    assert ticks[0..] == ticks;
    assert wire + Process(start, ticks, links).value.1 == Process(start, ticks, links).value.1;
    while n < |ticks|
      invariant n <= |ticks|
      invariant thr.Invariant() && Timely(thr.Model(), now) && InTickOrder(ticks[n..], now)
      invariant Continues(start, ticks, links, wire, Sender(thr.Model(), ctl.Model()), ticks[n..])
    {
      var tick := ticks[n];
      assert ticks[n..][0] == tick && ticks[n..][1..] == ticks[n + 1..];
      var sent, idle := IterateQueue(thr, ctl, tick, links, now);
      if idle {
        assert wire + [] == wire;
        return;
      }
      if sent.Some? {
        ghost var rest := Process(Sender(thr.Model(), ctl.Model()), ticks[n + 1..], links).value.1;
        assert (wire + [sent.value]) + rest == wire + ([sent.value] + rest);
        wire := wire + [sent.value];
      } else {
        ghost var rest := Process(Sender(thr.Model(), ctl.Model()), ticks[n + 1..], links).value.1;
        assert [] + rest == rest;
      }
      now := tick.t.consume;
      n := n + 1;
    }
    assert wire + [] == wire;
  }

  /** The whole loop is what was sent so far and the loop over the remaining ticks. */
  ghost predicate Continues(start: Sender, ticks: seq<Tick>, links: nat, wire: seq<seq<byte>>,
                            s: Sender, rest: seq<Tick>)
  {
    var r := Process(s, rest, links);
    r.Some? && Process(start, ticks, links) == Some((r.value.0, wire + r.value.1))
  }
}
