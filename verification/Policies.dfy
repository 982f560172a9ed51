/** Policies: the four link-choice policies and the message they decide on (tx/src/policies). */
module Policies {
  import opened Wrappers
  import opened Packets

  datatype Policy = QueueAware | SimpleQueueAware | ConditionalRR | HardThreshold

  datatype PolicyParameter = PolicyParameter(theta1: real, theta2: real, theta3: real, theta4: real)

  /** One latched block signal for each of the two links. */
  type Signals = s: seq<bool> | |s| == 2 witness [false, false]

  datatype SchedulingMessage = SchedulingMessage(
    seqNo: nat, offset: nat, num: nat, arrivalTime: real, currentTime: nat,
    blocked: Signals, ac1Info: seq<nat>, mcsValues: Option<seq<real>>)

  /** The message of a new snapshot. */
  function NewMessage(p: PacketWithMeta, now: nat, blocked: Signals, ac1: seq<nat>,
                      mcs: Option<seq<real>>): SchedulingMessage
  {
    SchedulingMessage(p.packet.seqNo, p.packet.offset, p.num, p.arrivalTime, now, blocked, ac1, mcs)
  }

  /** The message of a snapshot already in use: its counters and rates stay. */
  function Update(m: SchedulingMessage, p: PacketWithMeta, blocked: Signals): SchedulingMessage {
    m.(seqNo := p.packet.seqNo, arrivalTime := p.arrivalTime, offset := p.packet.offset, num := p.num,
       blocked := blocked)
  }

  /** Counts one more packet on the chosen link; `None` is the out-of-range index panic. */
  function UpdateSendedCounter(m: SchedulingMessage, t: PacketType): Option<SchedulingMessage> {
    var link := LinkOf(t);
    if link < |m.ac1Info| then Some(m.(ac1Info := m.ac1Info[link := m.ac1Info[link] + 1])) else None
  }

  /** A floating-point quotient of a positive number: a zero divisor gives infinity. */
  datatype Ratio = Finite(value: real) | Infinite

  function Divide(n: nat, d: real): Ratio {
    if d == 0.0 then Infinite else Finite(n as real / d)
  }

  predicate Below(a: Ratio, b: Ratio) {
    match (a, b)
    case (Finite(x), Finite(y)) => x < y
    case (Finite(_), Infinite) => true
    case (Infinite, _) => false
  }

  /** The packet type for a link, marked when the packet is the last of its frame. */
  function Marked(first: bool, isLast: bool): PacketType {
    if first then (if isLast then LastPacketInFirstLink else FirstLink)
    else (if isLast then LastPacketInSecondLink else SecondLink)
  }

  function ConditionalRRState(m: SchedulingMessage): Option<PacketType> {
    if m.num == 0 then None
    else Some(Marked(!(m.blocked[0] && !m.blocked[1]), m.offset == m.num - 1))
  }

  function HardThresholdState(m: SchedulingMessage, pp: PolicyParameter): Option<PacketType> {
    if m.num == 0 then None
    else Some(Marked(!(m.offset as real >= pp.theta1 * m.num as real), m.offset == m.num - 1))
  }

  /** The weight a link's backlog is divided by under `QueueAware`. */
  function Weight(theta: real, mcs: real): real {
    theta * mcs + 0.01
  }

  function QueueAwareState(m: SchedulingMessage, pp: PolicyParameter): Option<PacketType> {
    var mcs :- m.mcsValues;
    if m.num == 0 || |m.ac1Info| < 2 || |mcs| < 2 then None
    else
      var first := Below(Divide(1 + m.ac1Info[0], Weight(pp.theta3, mcs[0])),
                         Divide(1 + m.ac1Info[1], Weight(pp.theta4, mcs[1])));
      Some(Marked(first, m.offset == m.num - 1))
  }

  /** The weight under `SimpleQueueAware`. */
  function PlainWeight(theta: real, mcs: real): real {
    theta * mcs
  }

  function SimpleQueueAwareState(m: SchedulingMessage, pp: PolicyParameter): Option<PacketType> {
    var mcs :- m.mcsValues;
    if m.num == 0 || m.num < m.offset || |m.ac1Info| < 2 || |mcs| < 2 then None
    else
      var left := m.num - m.offset;
      var first := Below(Divide(left + m.ac1Info[0], PlainWeight(pp.theta3, mcs[0])),
                         Divide(left + m.ac1Info[1], PlainWeight(pp.theta4, mcs[1])));
      Some(Marked(first, m.offset == m.num - 1))
  }

  /** The decision of a policy; `None` is a panic (missing rates, missing counters, underflow). */
  function PacketState(policy: Policy, m: SchedulingMessage, pp: PolicyParameter): Option<PacketType> {
    match policy
    case QueueAware => QueueAwareState(m, pp)
    case ConditionalRR => ConditionalRRState(m)
    case HardThreshold => HardThresholdState(m, pp)
    case SimpleQueueAware => SimpleQueueAwareState(m, pp)
  }

  /** Whatever the policy, its parameters, the block signals and the counters, the last fragment of a
      frame and no other is marked, and the receiver decodes the mark it was given. */
  lemma EveryPolicyMarksLast(policy: Policy, m: SchedulingMessage, pp: PolicyParameter)
    requires PacketState(policy, m, pp).Some?
    ensures var t := PacketState(policy, m, pp).value;
            && (MarksLast(t) <==> m.offset == m.num - 1)
            && GetPacketType(ToIndicator(t)) == Some(t)
            && ChannelInfo(ToIndicator(t)) == LinkOf(t) < 2
  {
  }

  /** The offset from which a hard threshold sends a frame of `num` fragments over the second link. */
  function Cut(theta: real, num: nat): int {
    -((-(theta * num as real)).Floor)
  }

  /** Under a hard threshold a frame is cut once: the fragments before the cut go to the first link and
      all others to the second. */
  lemma HardThresholdCuts(m: SchedulingMessage, pp: PolicyParameter)
    requires m.num > 0
    ensures LinkOf(PacketState(HardThreshold, m, pp).value) == (if m.offset < Cut(pp.theta1, m.num) then 0 else 1)
  {
    var t := pp.theta1 * m.num as real;
    assert (-t).Floor as real <= -t < (-t).Floor as real + 1.0;
  }

  /** `a` packets over the weight `v` are a smaller load than `b` packets over the weight `w`, by cross
      multiplication: a weight of zero makes the load infinite, and opposite signs turn the order round. */
  predicate Lighter(a: nat, v: real, b: nat, w: real) {
    v != 0.0
    && (w == 0.0
        || if (v > 0.0) == (w > 0.0) then a as real * w < b as real * v else a as real * w > b as real * v)
  }

  lemma BelowIsLighter(a: nat, v: real, b: nat, w: real)
    ensures Below(Divide(a, v), Divide(b, w)) <==> Lighter(a, v, b, w)
  {
    if v != 0.0 && w != 0.0 {
      var x, y := a as real / v, b as real / w;
      assert a as real == x * v && b as real == y * w;
      assert a as real * w == x * (v * w) && b as real * v == y * (v * w);
      Scaled(v, w);
      ScaleOrder(x, y, v * w);
    }
  }

  lemma Scaled(v: real, w: real)
    requires v != 0.0 && w != 0.0
    ensures (v > 0.0) == (w > 0.0) <==> v * w > 0.0
    ensures v * w != 0.0
  {
  }

  lemma ScaleOrder(x: real, y: real, k: real)
    requires k != 0.0
    ensures x < y <==> if k > 0.0 then x * k < y * k else x * k > y * k
  {
    assert (y - x) * k == y * k - x * k;
  }

  /** The queue-aware decision from the thetas, the counters and the rates: the first link exactly when its
      backlog with one more packet, over its rate times its theta and 0.01, is smaller. */
  lemma {:induction false} QueueAwareIff(m: SchedulingMessage, pp: PolicyParameter)
    requires PacketState(QueueAware, m, pp).Some?
    ensures m.num > 0 && |m.ac1Info| >= 2 && m.mcsValues.Some? && |m.mcsValues.value| >= 2
    ensures LinkOf(PacketState(QueueAware, m, pp).value) == 0 <==>
            Lighter(1 + m.ac1Info[0], pp.theta3 * m.mcsValues.value[0] + 0.01,
                    1 + m.ac1Info[1], pp.theta4 * m.mcsValues.value[1] + 0.01)
  {
    var w0, w1 := Weight(pp.theta3, m.mcsValues.value[0]), Weight(pp.theta4, m.mcsValues.value[1]);
    BelowIsLighter(1 + m.ac1Info[0], w0, 1 + m.ac1Info[1], w1);
    assert w0 == pp.theta3 * m.mcsValues.value[0] + 0.01;
    assert w1 == pp.theta4 * m.mcsValues.value[1] + 0.01;
  }

  /** The simple one: with the rest of the frame in place of one more packet, and without the 0.01. */
  lemma {:induction false} SimpleQueueAwareIff(m: SchedulingMessage, pp: PolicyParameter)
    requires PacketState(SimpleQueueAware, m, pp).Some?
    ensures m.num >= m.offset && |m.ac1Info| >= 2 && m.mcsValues.Some? && |m.mcsValues.value| >= 2
    ensures LinkOf(PacketState(SimpleQueueAware, m, pp).value) == 0 <==>
            Lighter(m.num - m.offset + m.ac1Info[0], pp.theta3 * m.mcsValues.value[0],
                    m.num - m.offset + m.ac1Info[1], pp.theta4 * m.mcsValues.value[1])
  {
    var w0, w1 := PlainWeight(pp.theta3, m.mcsValues.value[0]), PlainWeight(pp.theta4, m.mcsValues.value[1]);
    BelowIsLighter(m.num - m.offset + m.ac1Info[0], w0, m.num - m.offset + m.ac1Info[1], w1);
    assert w0 == pp.theta3 * m.mcsValues.value[0];
    assert w1 == pp.theta4 * m.mcsValues.value[1];
  }

  /** When a policy panics: on a message without packets; the two queue-aware ones also without the rates of
      all links or with fewer than two links, and the simple one on an offset beyond the packets. */
  lemma PolicyPanicsIff(policy: Policy, m: SchedulingMessage, pp: PolicyParameter)
    ensures PacketState(policy, m, pp).None? <==>
            || m.num == 0
            || ((policy.QueueAware? || policy.SimpleQueueAware?) &&
                (m.mcsValues.None? || |m.mcsValues.value| < 2 || |m.ac1Info| < 2))
            || (policy.SimpleQueueAware? && m.num < m.offset)
  {
  }
}
