/** RttRecords: the ring of round-trip entries and its outage accounting (tx/src/statistic/rtt_records.rs). */
module RttRecords {
  import opened Arithmetic
  import opened Wrappers

  datatype RTTEntry = RTTEntry(seqNo: nat, arrivalTime: real, lastOutageTime: real, pongTime: Option<real>, delta: real)

  type Slots = seq<Option<RTTEntry>>

  function NewEntry(seqNo: nat, arrival: real, target: real): RTTEntry {
    RTTEntry(seqNo, arrival, arrival + target, None, 0.0)
  }

  function AfterArrival(slots: Slots, seqNo: nat, arrival: real, target: real): Slots
    requires |slots| > 0
  {
    slots[Remainder(seqNo, |slots|) := Some(NewEntry(seqNo, arrival, target))]
  }

  /** The slots and the round-trip time; `None` is the explicit panic on an empty slot or another frame's. */
  function AfterUpdate(slots: Slots, seqNo: nat, pong: real, delta: real): Option<(Slots, real)>
    requires |slots| > 0
  {
    var i := Remainder(seqNo, |slots|);
    var e :- slots[i];
    if e.seqNo != seqNo then None
    else Some((slots[i := Some(e.(pongTime := Some(pong), delta := delta))], pong - e.arrivalTime))
  }

  /** What one call of `statistic` adds to the outages for an entry: the time past its deadline that has
      not been charged yet, up to its pong or, without one, up to now. */
  function Charge(e: RTTEntry, now: real): real {
    Max(e.pongTime.GetOr(now) - e.lastOutageTime, 0.0)
  }

  /** An acked entry is dropped, another one remembers up to when it was charged. */
  function AfterCollect(slot: Option<RTTEntry>, now: real): Option<RTTEntry> {
    match slot
    case None => None
    case Some(e) => if e.pongTime.Some? then None else Some(e.(lastOutageTime := Max(e.lastOutageTime, now)))
  }

  /** The outages, the round-trip times and the number of pongs of the first `n` slots. */
  datatype Sums = Sums(outages: real, rtts: real, count: nat)

  function SumsOf(slots: Slots, n: nat, now: real): Sums
    requires n <= |slots|
  {
    if n == 0 then Sums(0.0, 0.0, 0)
    else
      var s := SumsOf(slots, n - 1, now);
      match slots[n - 1]
      case None => s
      case Some(e) =>
        var charged := s.(outages := s.outages + Charge(e, now));
        if e.pongTime.None? then charged
        else charged.(rtts := s.rtts + (e.pongTime.value - e.arrivalTime), count := s.count + 1)
  }

  function Collected(slots: Slots, now: real): Slots {
    seq(|slots|, i requires 0 <= i < |slots| => AfterCollect(slots[i], now))
  }

  /** A floating-point quotient of a number that is not negative: by zero it is infinite or not a number. */
  datatype OutageRate = Finite(value: real) | Infinite | NotANumber

  function RateOfOutages(outages: real, target: real): OutageRate {
    if target != 0.0 then Finite(outages / target) else if outages == 0.0 then NotANumber else Infinite
  }

  function AverageOf(s: Sums): real {
    if s.count == 0 then 0.0 else s.rtts / s.count as real
  }

  /** What one call of `statistic` returns: the average round-trip time of the pongs it collects, and the
      outages relative to the target. */
  function Report(slots: Slots, now: real, target: real): (real, OutageRate) {
    var s := SumsOf(slots, |slots|, now);
    (AverageOf(s), RateOfOutages(s.outages, target))
  }

  class RttRecords {
    const queue: array<Option<RTTEntry>>
    const targetRtt: real

    constructor (maxLength: nat, targetRtt: real)
      ensures queue[..] == seq(maxLength, _ => None) && this.targetRtt == targetRtt && fresh(queue)
    {
      queue := new Option<RTTEntry>[maxLength](_ => None);
      this.targetRtt := targetRtt;
      new;
      assert queue[..] == seq(maxLength, _ => None);
    }

    /** The slot index is a remainder by the length, which is 200 in the program. */
    method UpdateArrival(seqNo: nat, arrivalTime: real)
      requires queue.Length > 0
      modifies queue
      ensures queue[..] == AfterArrival(old(queue[..]), seqNo, arrivalTime, targetRtt)
    {
      queue[seqNo % queue.Length] := Some(NewEntry(seqNo, arrivalTime, targetRtt));
    }

    /** `None` is the panic; nothing is changed then. */
    method Update(seqNo: nat, rtt: real, delta: real) returns (r: Option<real>)
      requires queue.Length > 0
      modifies queue
      ensures match AfterUpdate(old(queue[..]), seqNo, rtt, delta)
              case None => r == None && queue[..] == old(queue[..])
              case Some((slots, value)) => r == Some(value) && queue[..] == slots
    {
      var index := seqNo % queue.Length;
      match queue[index] {
        case None => return None;
        case Some(entry) =>
          if entry.seqNo != seqNo {
            return None;
          }
          queue[index] := Some(entry.(pongTime := Some(rtt), delta := delta));
          r := Some(rtt - entry.arrivalTime);
      }
    }

    method Statistic(now: real) returns (rttAvg: real, outageRate: OutageRate)
      modifies queue
      ensures queue[..] == Collected(old(queue[..]), now)
      ensures (rttAvg, outageRate) == Report(old(queue[..]), now, targetRtt)
    {
      var outages, rtts, count := 0.0, 0.0, 0;
      ghost var before := queue[..];
      for i := 0 to queue.Length
        invariant forall k :: 0 <= k < i ==> queue[k] == AfterCollect(before[k], now)
        invariant forall k :: i <= k < queue.Length ==> queue[k] == before[k]
        invariant SumsOf(before, i, now) == Sums(outages, rtts, count)
      {
        match queue[i] {
          case None =>
          case Some(entry) =>
            match entry.pongTime {
              case Some(pongTime) =>
                rtts := rtts + (pongTime - entry.arrivalTime);
                count := count + 1;
                if pongTime > entry.lastOutageTime {
                  outages := outages + (pongTime - entry.lastOutageTime);
                }
                queue[i] := None;
              case None =>
                if now > entry.lastOutageTime {
                  outages := outages + (now - entry.lastOutageTime);
                  queue[i] := Some(entry.(lastOutageTime := now));
                }
            }
        }
      }
      rttAvg := if count == 0 then 0.0 else rtts / count as real;
      outageRate := RateOfOutages(outages, targetRtt);
    }
  }
}
