/** Scheduling: what a run of send attempts does with the two links, under the queue-aware and the
    failover policy. */
module Scheduling {
  import opened Arithmetic
  import opened Wrappers
  import opened Packets
  import opened Policies
  import opened TxPartCtl
  import opened Source

  datatype Input = Input(packet: PacketWithMeta, snap: Snapshot, accepts: bool)

  /** The link an attempt tried, if it got as far as choosing one. */
  function LinkTried(s: Sending): seq<nat> {
    match s
    case Unscheduled => []
    case Sent(p) => [p.channel]
    case Blocked(channel) => [channel]
  }

  /** A run of attempts, and the links it tried in order. */
  function Attempts(c: Controller, inputs: seq<Input>, links: nat): Option<(Controller, seq<nat>)> {
    if inputs == [] then Some((c, []))
    else
      var n := |inputs| - 1;
      var (c1, tried) :- Attempts(c, inputs[..n], links);
      var (c2, sending) :- SendCallback(c1, inputs[n].packet, inputs[n].snap, links, inputs[n].accepts);
      Some((c2, tried + LinkTried(sending)))
  }

  // ---------------------------------------------------------------------------------------------
  // Failover

  /** First the first link, then the second, then the first again, each stretch possibly empty. */
  predicate FirstSecondFirst(tried: seq<nat>, i: nat, j: nat) {
    && i <= j <= |tried|
    && forall k :: 0 <= k < |tried| ==> tried[k] == if i <= k < j then 1 else 0
  }

  /** What the block signals say about the links tried so far. */
  ghost predicate FailoverInv(c: Controller, tried: seq<nat>, i: nat, j: nat) {
    && c.policy.ConditionalRR?
    && FirstSecondFirst(tried, i, j)
    && (c.blocked[1] ==> c.blocked[0])
    && (!c.blocked[0] ==> i == |tried|)
    && (!c.blocked[1] ==> j == |tried|)
  }

  /** One attempt of a failover controller: the second link exactly when only the first is blocked, and a
      refused send latches the signal of the link it tried. */
  lemma FailoverDecision(c: Controller, x: Input, links: nat)
    requires c.policy.ConditionalRR? && SendCallback(c, x.packet, x.snap, links, x.accepts).Some?
    ensures var (c', s) := SendCallback(c, x.packet, x.snap, links, x.accepts).value;
            var link := if c.blocked[0] && !c.blocked[1] then 1 else 0;
            && c'.policy == c.policy
            && (LinkTried(s) == [] ==> c'.blocked == c.blocked)
            && (LinkTried(s) != [] ==>
                  LinkTried(s) == [link] && c'.blocked == if x.accepts then c.blocked else c.blocked[link := true])
  {
  }

  lemma FailoverStep(c: Controller, tried: seq<nat>, i: nat, j: nat, x: Input, links: nat)
    requires FailoverInv(c, tried, i, j)
    requires SendCallback(c, x.packet, x.snap, links, x.accepts).Some?
    ensures var (c', s) := SendCallback(c, x.packet, x.snap, links, x.accepts).value;
            var tried' := tried + LinkTried(s);
            FailoverInv(c', tried', if c.blocked[0] then i else |tried'|, if c.blocked[1] then j else |tried'|)
  {
    FailoverDecision(c, x, links);
    hide SendCallback;
  }

  lemma {:induction false} FailoverRun(c: Controller, inputs: seq<Input>, links: nat) returns (i: nat, j: nat)
    requires c.policy.ConditionalRR? && c.blocked == [false, false]
    requires Attempts(c, inputs, links).Some?
    ensures var r := Attempts(c, inputs, links).value; FailoverInv(r.0, r.1, i, j)
  {
    hide SendCallback;
    if inputs == [] {
      i, j := 0, 0;
    } else {
      var n := |inputs| - 1;
      i, j := FailoverRun(c, inputs[..n], links);
      hide FailoverInv;
      var r, r' := Attempts(c, inputs[..n], links).value, Attempts(c, inputs, links).value;
      FailoverStep(r.0, r.1, i, j, inputs[n], links);
      i := if r.0.blocked[0] then i else |r'.1|;
      j := if r.0.blocked[1] then j else |r'.1|;
    }
  }

  /** Failover history: whatever is sent, whichever sends are blocked and however the queue snapshots
      change, a controller under the failover policy uses the first link, then the second, then the first
      for good: at most two switches. The signals never say that only the second link is blocked. */
  lemma FailoverHistory(params: PolicyParameter, isMon: bool, inputs: seq<Input>, links: nat)
    requires Attempts(Controller(ConditionalRR, params, [false, false], isMon, None), inputs, links).Some?
    ensures var r := Attempts(Controller(ConditionalRR, params, [false, false], isMon, None), inputs, links).value;
            && (exists i, j :: FirstSecondFirst(r.1, i, j))
            && (r.0.blocked[1] ==> r.0.blocked[0])
  {
    var i, j := FailoverRun(Controller(ConditionalRR, params, [false, false], isMon, None), inputs, links);
  }

  // ---------------------------------------------------------------------------------------------
  // Queue-aware balancing

  function Load(q: int, w: real): real
    requires w > 0.0
  {
    q as real / w
  }

  lemma LoadMonotone(p: int, q: int, w: real)
    requires w > 0.0 && p <= q
    ensures Load(p, w) <= Load(q, w)
  {
    assert (q - p) as real / w >= 0.0;
    assert Load(q, w) == Load(p, w) + (q - p) as real / w;
  }

  /** The load of one packet. */
  function Unit(w: real): real
    requires w > 0.0
  {
    1.0 / w
  }

  lemma LoadSucc(q: int, w: real)
    requires w > 0.0
    ensures Load(q + 1, w) == Load(1 + q, w) == Load(q, w) + Unit(w) && Unit(w) > 0.0
  {
    assert (q + 1) as real == q as real + 1.0;
  }

  /** The counters and the rates the next decision on `snap` starts from. */
  function Counters(c: Controller, snap: Snapshot): seq<nat> {
    if SameEpoch(c, snap) then c.message.value.ac1Info else snap.queues
  }

  function Rates(c: Controller, snap: Snapshot): Option<seq<real>> {
    if SameEpoch(c, snap) then c.message.value.mcsValues else CollectRates(snap.link)
  }

  /** A monitored queue-aware controller with positive weights `w0` and `w1` for the two links. */
  ghost predicate Weighted(c: Controller, snap: Snapshot, w0: real, w1: real) {
    && c.policy.QueueAware? && c.isMon
    && snap.queues != [] && snap.link != []
    && |Counters(c, snap)| >= 2
    && Rates(c, snap).Some? && |Rates(c, snap).value| >= 2
    && w0 == Weight(c.params.theta3, Rates(c, snap).value[0]) > 0.0
    && w1 == Weight(c.params.theta4, Rates(c, snap).value[1]) > 0.0
  }

  /** Every input falls in the epoch of `snap`. */
  predicate InEpoch(inputs: seq<Input>, snap: Snapshot) {
    forall i :: 0 <= i < |inputs| ==> inputs[i].snap == snap
  }

  /** One decision goes to the link whose load, counting the new packet, is smaller, the second link on a
      tie; exactly that link's counter grows, whether or not the send then succeeds. */
  lemma DecisionStep(c: Controller, p: PacketWithMeta, snap: Snapshot, links: nat, accepts: bool, w0: real, w1: real)
    requires Weighted(c, snap, w0, w1)
    requires SendCallback(c, p, snap, links, accepts).Some?
    ensures var (c', s) := SendCallback(c, p, snap, links, accepts).value;
            var q, q' := Counters(c, snap), Counters(c', snap);
            && Weighted(c', snap, w0, w1)
            && (LinkTried(s) == [0] || LinkTried(s) == [1])
            && (LinkTried(s) == [0] ==> Load(1 + q[0], w0) < Load(1 + q[1], w1) && q'[0] == q[0] + 1 && q'[1] == q[1])
            && (LinkTried(s) == [1] ==> Load(1 + q[0], w0) >= Load(1 + q[1], w1) && q'[0] == q[0] && q'[1] == q[1] + 1)
  {
  }

  /** What a run of decisions keeps about the packets `a0` and `a1` it placed on starting counters `q0`
      and `q1`: neither link got a packet it could have left to the other. */
  ghost predicate Greedy(q0: int, q1: int, a0: int, a1: int, w0: real, w1: real)
    requires w0 > 0.0 && w1 > 0.0
  {
    && a0 >= 0 && a1 >= 0
    && (a1 > 0 ==> Load(q1 + a1, w1) <= Load(q0 + a0 + 1, w0))
    && (a0 > 0 ==> Load(q0 + a0, w0) <= Load(q1 + a1 + 1, w1))
  }

  lemma GreedyStep(q0: int, q1: int, a0: int, a1: int, w0: real, w1: real, first: bool)
    requires w0 > 0.0 && w1 > 0.0 && Greedy(q0, q1, a0, a1, w0, w1)
    requires first <==> Load(1 + q0 + a0, w0) < Load(1 + q1 + a1, w1)
    ensures if first then Greedy(q0, q1, a0 + 1, a1, w0, w1) else Greedy(q0, q1, a0, a1 + 1, w0, w1)
  {
    LoadMonotone(q0 + a0 + 1, q0 + a0 + 2, w0);
    LoadMonotone(q1 + a1 + 1, q1 + a1 + 2, w1);
    hide Load;
  }

  /** How many packets a run placed on a link since the counters were `q`. */
  function Placed(q: seq<nat>, q': seq<nat>, link: nat): int
    requires link < |q| && link < |q'|
  {
    q'[link] as int - q[link] as int
  }

  lemma {:induction false} EpochRun(c: Controller, inputs: seq<Input>, snap: Snapshot, links: nat, w0: real, w1: real)
    requires Weighted(c, snap, w0, w1) && InEpoch(inputs, snap)
    requires Attempts(c, inputs, links).Some?
    ensures var (c', tried) := Attempts(c, inputs, links).value;
            var q, q' := Counters(c, snap), Counters(c', snap);
            && Weighted(c', snap, w0, w1)
            && |tried| == |inputs| == Placed(q, q', 0) + Placed(q, q', 1)
            && Greedy(q[0], q[1], Placed(q, q', 0), Placed(q, q', 1), w0, w1)
  {
    hide SendCallback, Load, Counters;
    if inputs != [] {
      var n := |inputs| - 1;
      EpochRun(c, inputs[..n], snap, links, w0, w1);
      var r := Attempts(c, inputs[..n], links).value;
      DecisionStep(r.0, inputs[n].packet, snap, links, inputs[n].accepts, w0, w1);
      hide Weighted, Greedy;
      var (c2, s) := SendCallback(r.0, inputs[n].packet, snap, links, inputs[n].accepts).value;
      var q, q1 := Counters(c, snap), Counters(r.0, snap);
      GreedyStep(q[0], q[1], Placed(q, q1, 0), Placed(q, q1, 1), w0, w1, LinkTried(s) == [0]);
    }
  }

  lemma GreedyBeats(q0: int, q1: int, a0: int, a1: int, b0: int, b1: int, w0: real, w1: real)
    requires w0 > 0.0 && w1 > 0.0 && Greedy(q0, q1, a0, a1, w0, w1)
    requires b0 >= 0 && b1 >= 0 && a0 + a1 == b0 + b1
    ensures Max(Load(q0 + a0, w0), Load(q1 + a1, w1)) <= Max(Load(q0 + b0, w0), Load(q1 + b1, w1))
  {
    if b0 > a0 {
      LoadMonotone(q0 + a0 + 1, q0 + b0, w0);
      LoadMonotone(q0 + a0, q0 + b0, w0);
    } else if b1 > a1 {
      LoadMonotone(q1 + a1 + 1, q1 + b1, w1);
      LoadMonotone(q1 + a1, q1 + b1, w1);
    }
    hide Load;
  }

  lemma EpochHasCounters(c: Controller, snap: Snapshot, w0: real, w1: real)
    requires Weighted(c, snap, w0, w1)
    ensures |Counters(c, snap)| >= 2 && w0 > 0.0 && w1 > 0.0
  {
  }

  /** Greedy optimality: in one monitored snapshot epoch with positive weights, after any number of
      queue-aware decisions the larger load is no larger than under any other way of splitting the same
      number of packets over the two links from the same counters. */
  lemma GreedyIsOptimal(c: Controller, inputs: seq<Input>, snap: Snapshot, links: nat, w0: real, w1: real,
                        b0: nat, b1: nat)
    requires Weighted(c, snap, w0, w1) && InEpoch(inputs, snap)
    requires Attempts(c, inputs, links).Some?
    requires b0 + b1 == |inputs|
    ensures var q, q' := Counters(c, snap), Counters(Attempts(c, inputs, links).value.0, snap);
            && |q| >= 2 && |q'| >= 2
            && Max(Load(q'[0], w0), Load(q'[1], w1)) <= Max(Load(q[0] + b0, w0), Load(q[1] + b1, w1))
  {
    hide Load, Attempts, Weighted, Greedy, Counters, Max, Rates, CollectRates;
    EpochRun(c, inputs, snap, links, w0, w1);
    EpochHasCounters(c, snap, w0, w1);
    EpochHasCounters(Attempts(c, inputs, links).value.0, snap, w0, w1);
    var q, q' := Counters(c, snap), Counters(Attempts(c, inputs, links).value.0, snap);
    GreedyBeats(q[0], q[1], Placed(q, q', 0), Placed(q, q', 1), b0, b1, w0, w1);
  }

  /** The difference of the two loads that the next decision starts from. */
  function Imbalance(c: Controller, snap: Snapshot, w0: real, w1: real): real
    requires w0 > 0.0 && w1 > 0.0 && |Counters(c, snap)| >= 2
  {
    Load(Counters(c, snap)[0], w0) - Load(Counters(c, snap)[1], w1)
  }

  /** Balance: within a monitored epoch with positive weights the difference of the two loads never
      leaves the interval spanned by where it started and one packet on either link; so once within one
      packet of balance it stays there. */
  lemma {:induction false} BalanceIsKept(c: Controller, inputs: seq<Input>, snap: Snapshot, links: nat,
                                         w0: real, w1: real)
    requires Weighted(c, snap, w0, w1) && InEpoch(inputs, snap)
    requires Attempts(c, inputs, links).Some?
    ensures var c' := Attempts(c, inputs, links).value.0;
            && Weighted(c', snap, w0, w1)
            && Min(Imbalance(c, snap, w0, w1), -Unit(w0)) <= Imbalance(c', snap, w0, w1)
               <= Max(Imbalance(c, snap, w0, w1), Unit(w1))
  {
    hide SendCallback, Load, Unit, Counters;
    if inputs != [] {
      var n := |inputs| - 1;
      BalanceIsKept(c, inputs[..n], snap, links, w0, w1);
      var r := Attempts(c, inputs[..n], links).value;
      DecisionStep(r.0, inputs[n].packet, snap, links, inputs[n].accepts, w0, w1);
      hide Weighted;
      var q := Counters(r.0, snap);
      LoadSucc(q[0], w0);
      LoadSucc(q[1], w1);
    }
  }

  // ---------------------------------------------------------------------------------------------
  // Simple queue-aware balancing

  /** A monitored simple queue-aware controller with positive weights `w0` and `w1` for the two links. */
  ghost predicate PlainWeighted(c: Controller, snap: Snapshot, w0: real, w1: real) {
    && c.policy.SimpleQueueAware? && c.isMon
    && snap.queues != [] && snap.link != []
    && |Counters(c, snap)| >= 2
    && Rates(c, snap).Some? && |Rates(c, snap).value| >= 2
    && w0 == PlainWeight(c.params.theta3, Rates(c, snap).value[0]) > 0.0
    && w1 == PlainWeight(c.params.theta4, Rates(c, snap).value[1]) > 0.0
  }

  /** How far the first link's load exceeds the second's for a decision with `left` packets of the frame
      to go, all of which the policy adds to either link. */
  function Lead(c: Controller, snap: Snapshot, left: nat, w0: real, w1: real): real
    requires w0 > 0.0 && w1 > 0.0 && |Counters(c, snap)| >= 2
  {
    Load(left + Counters(c, snap)[0], w0) - Load(left + Counters(c, snap)[1], w1)
  }

  /** One decision goes to the first link exactly when it is behind. The chosen link's counter grows, and
      so does the lead if it was negative; a packet that is sent changes the load of the other link by
      leaving the frame, a refused one the load of the chosen link by being counted. */
  lemma PlainDecisionStep(c: Controller, p: PacketWithMeta, snap: Snapshot, links: nat, accepts: bool,
                          w0: real, w1: real)
    requires PlainWeighted(c, snap, w0, w1) && p.packet.offset < p.num
    requires SendCallback(c, p, snap, links, accepts).Some?
    ensures var (c', s) := SendCallback(c, p, snap, links, accepts).value;
            var q, q' := Counters(c, snap), Counters(c', snap);
            var left := p.num - p.packet.offset;
            var first := Lead(c, snap, left, w0, w1) < 0.0;
            && PlainWeighted(c', snap, w0, w1) && s.Sent? == accepts
            && LinkTried(s) == [if first then 0 else 1]
            && q'[0] == q[0] + (if first then 1 else 0) && q'[1] == q[1] + (if first then 0 else 1)
  {
  }

  /** The offset the attempts have reached: a sent packet leaves the queue, a refused one stays its head. */
  function Reached(inputs: seq<Input>, offset: nat): nat {
    if inputs == [] then offset
    else Reached(inputs[..|inputs| - 1], offset) + if inputs[|inputs| - 1].accepts then 1 else 0
  }

  /** Attempts on one frame of `num` packets, from `offset` on. */
  predicate OnOneFrame(inputs: seq<Input>, num: nat, offset: nat) {
    inputs != [] ==>
      var n := |inputs| - 1;
      && OnOneFrame(inputs[..n], num, offset)
      && inputs[n].packet.num == num
      && inputs[n].packet.packet.offset == Reached(inputs[..n], offset) < num
  }

  predicate AllAccepted(inputs: seq<Input>) {
    forall i :: 0 <= i < |inputs| ==> inputs[i].accepts
  }

  lemma {:induction false} ReachedIsWithin(inputs: seq<Input>, num: nat, offset: nat)
    requires OnOneFrame(inputs, num, offset) && offset <= num
    ensures offset <= Reached(inputs, offset) <= num
  {
    if inputs != [] {
      ReachedIsWithin(inputs[..|inputs| - 1], num, offset);
    }
  }

  /** How often a link was tried. */
  function Uses(tried: seq<nat>, link: nat): nat {
    if tried == [] then 0
    else Uses(tried[..|tried| - 1], link) + if tried[|tried| - 1] == link then 1 else 0
  }

  /** The lead `lead'` after `a0` and `a1` packets of a frame went over the links, from `lead` before. */
  predicate LeadBounded(lead: real, lead': real, a0: nat, a1: nat, accepted: bool, w0: real, w1: real)
    requires w0 > 0.0 && w1 > 0.0
  {
    var most := Max(Unit(w0), Unit(w1));
    && Min(lead, -most) <= lead' <= Max(lead, most)
    && (accepted ==>
          && Min(lead, -Unit(w0)) <= lead' <= Max(lead, Unit(w1))
          && lead' - lead == Load(a0, w1) - Load(a1, w0))
  }

  /** How one decision moves the lead. */
  function Move(first: bool, sent: bool, w0: real, w1: real): real
    requires w0 > 0.0 && w1 > 0.0
  {
    if first then (if sent then Unit(w1) else Unit(w0)) else -(if sent then Unit(w0) else Unit(w1))
  }

  lemma MoveKeepsBounded(lead: real, lead1: real, a0: nat, a1: nat, accepted: bool, first: bool, sent: bool,
                         w0: real, w1: real)
    requires w0 > 0.0 && w1 > 0.0 && LeadBounded(lead, lead1, a0, a1, accepted, w0, w1)
    requires first <==> lead1 < 0.0
    ensures LeadBounded(lead, lead1 + Move(first, sent, w0, w1), a0 + (if first then 1 else 0),
                        a1 + (if first then 0 else 1), accepted && sent, w0, w1)
  {
    hide Load, Unit;
    LoadSucc(a0, w1);
    LoadSucc(a1, w0);
  }

  /** What a run on one frame keeps about the lead, the links and the counters. */
  ghost predicate LeadInv(c: Controller, c': Controller, tried: seq<nat>, snap: Snapshot, left: nat, left': nat,
                          accepted: bool, w0: real, w1: real)
  {
    && PlainWeighted(c, snap, w0, w1) && PlainWeighted(c', snap, w0, w1)
    && Placed(Counters(c, snap), Counters(c', snap), 0) == Uses(tried, 0)
    && Placed(Counters(c, snap), Counters(c', snap), 1) == Uses(tried, 1)
    && LeadBounded(Lead(c, snap, left, w0, w1), Lead(c', snap, left', w0, w1), Uses(tried, 0), Uses(tried, 1),
                   accepted, w0, w1)
  }

  lemma LeadMoves(c: Controller, c': Controller, snap: Snapshot, left: nat, first: bool, sent: bool,
                  w0: real, w1: real)
    requires PlainWeighted(c, snap, w0, w1) && PlainWeighted(c', snap, w0, w1) && left > 0
    requires Placed(Counters(c, snap), Counters(c', snap), 0) == (if first then 1 else 0)
    requires Placed(Counters(c, snap), Counters(c', snap), 1) == (if first then 0 else 1)
    ensures Lead(c', snap, left - (if sent then 1 else 0), w0, w1)
            == Lead(c, snap, left, w0, w1) + Move(first, sent, w0, w1)
  {
    hide Load, Unit, Counters, Rates, PlainWeight;
    var q := Counters(c, snap);
    LoadSucc(left - 1 + q[0], w0);
    LoadSucc(left - 1 + q[1], w1);
    LoadSucc(left + q[0], w0);
    LoadSucc(left + q[1], w1);
  }

  lemma UsesSnoc(tried: seq<nat>, link: nat, l: nat)
    ensures Uses(tried + [link], l) == Uses(tried, l) + if link == l then 1 else 0
  {
    assert (tried + [link])[..|tried|] == tried;
  }

  lemma LeadCounted(c: Controller, c1: Controller, c2: Controller, tried: seq<nat>, snap: Snapshot, left: nat,
                    left1: nat, accepted: bool, first: bool, sent: bool, w0: real, w1: real)
    requires LeadInv(c, c1, tried, snap, left, left1, accepted, w0, w1) && left1 > 0
    requires PlainWeighted(c2, snap, w0, w1) && (first <==> Lead(c1, snap, left1, w0, w1) < 0.0)
    requires Placed(Counters(c1, snap), Counters(c2, snap), 0) == (if first then 1 else 0)
    requires Placed(Counters(c1, snap), Counters(c2, snap), 1) == (if first then 0 else 1)
    ensures LeadInv(c, c2, tried + [if first then 0 else 1], snap, left, left1 - (if sent then 1 else 0),
                    accepted && sent, w0, w1)
  {
    hide Counters, Rates, PlainWeight, LeadBounded, Uses, Lead, Move;
    UsesSnoc(tried, if first then 0 else 1, 0);
    UsesSnoc(tried, if first then 0 else 1, 1);
    LeadMoves(c1, c2, snap, left1, first, sent, w0, w1);
    MoveKeepsBounded(Lead(c, snap, left, w0, w1), Lead(c1, snap, left1, w0, w1), Uses(tried, 0), Uses(tried, 1),
                     accepted, first, sent, w0, w1);
  }

  lemma LeadStep(c: Controller, c1: Controller, tried: seq<nat>, snap: Snapshot, left: nat, accepted: bool,
                 x: Input, links: nat, w0: real, w1: real)
    requires x.packet.packet.offset < x.packet.num && x.snap == snap
    requires LeadInv(c, c1, tried, snap, left, x.packet.num - x.packet.packet.offset, accepted, w0, w1)
    requires SendCallback(c1, x.packet, snap, links, x.accepts).Some?
    ensures var (c2, s) := SendCallback(c1, x.packet, snap, links, x.accepts).value;
            LeadInv(c, c2, tried + LinkTried(s), snap, left,
                    x.packet.num - x.packet.packet.offset - (if x.accepts then 1 else 0),
                    accepted && x.accepts, w0, w1)
  {
    var left1 := x.packet.num - x.packet.packet.offset;
    PlainDecisionStep(c1, x.packet, snap, links, x.accepts, w0, w1);
    var c2 := SendCallback(c1, x.packet, snap, links, x.accepts).value.0;
    var first := Lead(c1, snap, left1, w0, w1) < 0.0;
    hide SendCallback, Counters, Rates, PlainWeight, LeadBounded, Uses, Lead;
    LeadCounted(c, c1, c2, tried, snap, left, left1, accepted, first, x.accepts, w0, w1);
  }

  lemma {:induction false} LeadRun(c: Controller, inputs: seq<Input>, snap: Snapshot, links: nat, num: nat,
                                   offset: nat, w0: real, w1: real)
    requires PlainWeighted(c, snap, w0, w1) && InEpoch(inputs, snap)
    requires offset <= num && OnOneFrame(inputs, num, offset)
    requires Attempts(c, inputs, links).Some?
    ensures Reached(inputs, offset) <= num
    ensures LeadInv(c, Attempts(c, inputs, links).value.0, Attempts(c, inputs, links).value.1, snap,
                    num - offset, num - Reached(inputs, offset), AllAccepted(inputs), w0, w1)
  {
    hide SendCallback, LeadInv;
    ReachedIsWithin(inputs, num, offset);
    if inputs == [] {
      LeadStarts(c, snap, num - offset, w0, w1);
    } else {
      var n := |inputs| - 1;
      LeadRun(c, inputs[..n], snap, links, num, offset, w0, w1);
      var r := Attempts(c, inputs[..n], links).value;
      LeadStep(c, r.0, r.1, snap, num - offset, AllAccepted(inputs[..n]), inputs[n], links, w0, w1);
    }
  }

  lemma LeadStarts(c: Controller, snap: Snapshot, left: nat, w0: real, w1: real)
    requires PlainWeighted(c, snap, w0, w1)
    ensures LeadInv(c, c, [], snap, left, left, true, w0, w1)
  {
  }

  /** Simple queue-aware balance: over any attempts on one frame in one monitored epoch with positive
      weights, sent or refused, the lead of the first link stays within where it started and the larger of
      the two packet loads on either side; with no send refused, within one packet of the second link
      above and of the first link below. The policy adds the rest of the frame to both loads, so what moves
      the lead is the other link's weight: the packets placed on the links are in inverse proportion to
      their weights, up to that bound. */
  lemma {:induction false} SimpleBalanceIsKept(c: Controller, inputs: seq<Input>, snap: Snapshot, links: nat,
                                               num: nat, offset: nat, w0: real, w1: real)
    requires PlainWeighted(c, snap, w0, w1) && InEpoch(inputs, snap)
    requires offset <= num && OnOneFrame(inputs, num, offset)
    requires Attempts(c, inputs, links).Some?
    ensures var (c', tried) := Attempts(c, inputs, links).value;
            && offset <= Reached(inputs, offset) <= num && PlainWeighted(c', snap, w0, w1)
            && var lead, lead' := Lead(c, snap, num - offset, w0, w1),
                                  Lead(c', snap, num - Reached(inputs, offset), w0, w1);
               var most := Max(Unit(w0), Unit(w1));
               && Min(lead, -most) <= lead' <= Max(lead, most)
               && (AllAccepted(inputs) ==>
                     && Min(lead, -Unit(w0)) <= lead' <= Max(lead, Unit(w1))
                     && Load(Uses(tried, 0), w1) - Load(Uses(tried, 1), w0) == lead' - lead)
  {
    hide Load, Unit, Counters, Attempts, PlainWeighted, AllAccepted;
    ReachedIsWithin(inputs, num, offset);
    LeadRun(c, inputs, snap, links, num, offset, w0, w1);
  }
}
