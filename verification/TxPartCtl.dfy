/** TxPartCtl: the controller that keeps the scheduling message of the current queue snapshot
    and the block signals (tx/src/tx_part_ctl.rs). */
module TxPartCtl {
  import opened Wrappers
  import opened Packets
  import opened Policies

  /** A published queue snapshot: the access-category-1 backlog and the transmit rate of each link. */
  datatype Snapshot = Snapshot(takenAt: nat, queues: seq<nat>, link: seq<Option<real>>)

  /** All rates, or nothing if one of them is unknown. */
  function CollectRates(link: seq<Option<real>>): (r: Option<seq<real>>)
    ensures r.Some? <==> forall i :: 0 <= i < |link| ==> link[i].Some?
    ensures r.Some? ==> |r.value| == |link| && forall i :: 0 <= i < |link| ==> link[i] == Some(r.value[i])
  {
    if link == [] then Some([])
    else
      var head :- link[0];
      var tail :- CollectRates(link[1..]);
      Some([head] + tail)
  }

  datatype Controller = Controller(policy: Policy, params: PolicyParameter, blocked: Signals, isMon: bool,
                                   message: Option<SchedulingMessage>)

  /** The snapshot of the message is still the latest one. */
  predicate SameEpoch(c: Controller, snap: Snapshot) {
    c.message.Some? && c.message.value.currentTime == snap.takenAt
  }

  function ScheduleInfo(c: Controller, p: PacketWithMeta, snap: Snapshot)
    : (Controller, Option<SchedulingMessage>)
  {
    if c.isMon && (snap.queues == [] || snap.link == []) then (c, None)
    else
      var m := if SameEpoch(c, snap) then Update(c.message.value, p, c.blocked)
               else NewMessage(p, snap.takenAt, c.blocked, snap.queues, CollectRates(snap.link));
      (c.(message := Some(m)), Some(m))
  }

  /** Decides on `m` and, when monitoring, counts the decision in the kept message. */
  function Decide(c: Controller, m: SchedulingMessage): Option<(Controller, PacketType)> {
    var t :- PacketState(c.policy, m, c.params);
    if c.message.Some? && c.isMon then
      var counted :- UpdateSendedCounter(c.message.value, t);
      Some((c.(message := Some(counted)), t))
    else
      Some((c, t))
  }

  class TxPartCtler {
    const policy: Policy
    const isMon: bool
    var blockedSignals: Signals
    var policyParameters: PolicyParameter
    var scheduleMessage: Option<SchedulingMessage>

    constructor (policy: Policy, parameters: PolicyParameter, isMon: bool)
      ensures Model() == Controller(policy, parameters, [false, false], isMon, None)
    {
      this.policy, this.isMon := policy, isMon;
      blockedSignals, policyParameters, scheduleMessage := [false, false], parameters, None;
    }

    ghost function Model(): Controller
      reads this
    {
      Controller(policy, policyParameters, blockedSignals, isMon, scheduleMessage)
    }

    method DetermineScheduleInfo(p: PacketWithMeta, snap: Snapshot) returns (info: Option<SchedulingMessage>)
      modifies this`scheduleMessage
      ensures (Model(), info) == ScheduleInfo(old(Model()), p, snap)
    {
      if isMon && (snap.queues == [] || snap.link == []) {
        return None;
      }
      match scheduleMessage {
        case Some(sm) =>
          if sm.currentTime == snap.takenAt {
            scheduleMessage := Some(Update(sm, p, blockedSignals));
          } else {
            scheduleMessage := Some(NewMessage(p, snap.takenAt, blockedSignals, snap.queues, CollectRates(snap.link)));
          }
        case None =>
          scheduleMessage := Some(NewMessage(p, snap.takenAt, blockedSignals, snap.queues, CollectRates(snap.link)));
      }
      info := scheduleMessage;
    }

    method GetPacketState(m: SchedulingMessage) returns (t: PacketType)
      requires Decide(Model(), m).Some?
      modifies this`scheduleMessage
      ensures (Model(), t) == Decide(old(Model()), m).value
    {
      t := PacketState(policy, m, policyParameters).value;
      if scheduleMessage.Some? && isMon {
        scheduleMessage := UpdateSendedCounter(scheduleMessage.value, t);
      }
    }

    /** A send that failed on `channel` latches its block signal. */
    method Block(channel: nat)
      requires channel < 2
      modifies this`blockedSignals
      ensures Model() == old(Model()).(blocked := old(blockedSignals)[channel := true])
    {
      blockedSignals := blockedSignals[channel := true];
    }

    method SetPolicyParameters(parameters: PolicyParameter)
      modifies this`policyParameters
      ensures Model() == old(Model()).(params := parameters)
    {
      policyParameters := parameters;
    }
  }
}
