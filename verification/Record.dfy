/** Record: reassembly of one frame from fragments arriving in any order (rx/src/record.rs). */
module Record {
  import opened Wrappers
  import opened Packets

  datatype Rec = Rec(packets: map<nat, PacketStruct>, lastId: Option<nat>,
                     firstTime: Option<real>, secondTime: Option<real>, complete: bool)

  const EMPTY_REC := Rec(map[], None, None, None, false)

  /** Every offset up to the one marked last is there. */
  predicate RangeComplete(packets: map<nat, PacketStruct>, lastId: Option<nat>) {
    lastId.Some? && forall i :: 0 <= i <= lastId.value ==> i in packets
  }

  /** Recording a packet; `None` is the panic on an unknown indicator. */
  function AfterRecord(r: Rec, p: PacketStruct, now: real): Option<Rec> {
    var t :- GetPacketType(p.indicators);
    var lastId := if MarksLast(t) then Some(p.offset) else r.lastId;
    var packets := r.packets[p.offset := p];
    Some(Rec(packets, lastId, if LinkOf(t) == 0 then Some(now) else r.firstTime,
             if LinkOf(t) == 1 then Some(now) else r.secondTime, RangeComplete(packets, lastId)))
  }

  /** The delay between the links: the time of the second less that of the first, a missing one being 0. */
  function DeltaOf(r: Rec): real {
    r.secondTime.GetOr(0.0) - r.firstTime.GetOr(0.0)
  }

  /** The payloads of offsets 0 to `n - 1`; `None` is the panic on a missing offset or a length beyond
      the payload. */
  function GatherUpTo(packets: map<nat, PacketStruct>, n: nat): Option<seq<byte>> {
    if n == 0 then Some([])
    else
      var before :- GatherUpTo(packets, n - 1);
      if n - 1 in packets && packets[n - 1].length <= MAX_PAYLOAD_LEN then
        Some(before + packets[n - 1].payload[..packets[n - 1].length])
      else None
  }

  lemma {:induction false} GatherStops(packets: map<nat, PacketStruct>, i: nat, n: nat)
    requires i <= n && GatherUpTo(packets, i).None?
    ensures GatherUpTo(packets, n).None?
  {
    if i < n {
      GatherStops(packets, i, n - 1);
    }
  }

  class RecvRecord {
    var packets: map<nat, PacketStruct>
    var lastPacketId: Option<nat>
    var firstLinkRxTime: Option<real>
    var secondLinkRxTime: Option<real>
    var isComplete: bool

    constructor ()
      ensures Model() == EMPTY_REC
    {
      packets, lastPacketId := map[], None;
      firstLinkRxTime, secondLinkRxTime, isComplete := None, None, false;
    }

    ghost function Model(): Rec
      reads this
    {
      Rec(packets, lastPacketId, firstLinkRxTime, secondLinkRxTime, isComplete)
    }

    /** `data` is the whole receive buffer. */
    method Record(data: array<byte>, now: real)
      requires data.Length >= UDP_MAX_LENGTH
      requires AfterRecord(Model(), FromBuffer(data[..]), now).Some?
      modifies this
      ensures Model() == AfterRecord(old(Model()), FromBuffer(data[..]), now).value
    {
      var packet := FromBuffer(data[..]);
      match GetPacketType(packet.indicators).value {
        case FirstLink => firstLinkRxTime := Some(now);
        case SecondLink => secondLinkRxTime := Some(now);
        case LastPacketInFirstLink =>
          lastPacketId := Some(packet.offset);
          firstLinkRxTime := Some(now);
        case LastPacketInSecondLink =>
          lastPacketId := Some(packet.offset);
          secondLinkRxTime := Some(now);
      }
      packets := packets[packet.offset := packet];
      isComplete := DetermineComplete();
    }

    function Delta(): (d: real)
      reads this
      ensures d == DeltaOf(Model())
    {
      secondLinkRxTime.GetOr(0.0) - firstLinkRxTime.GetOr(0.0)
    }

    method DetermineComplete() returns (complete: bool)
      ensures complete == RangeComplete(packets, lastPacketId)
    {
      if lastPacketId.None? {
        return false;
      }
      var i := 0;
      while i <= lastPacketId.value
        invariant 0 <= i <= lastPacketId.value + 1
        invariant forall k :: 0 <= k < i ==> k in packets
      {
        if i !in packets {
          return false;
        }
        i := i + 1;
      }
      complete := true;
    }

    /** `None` is the panic of the lookup or of the slice. */
    method Gather() returns (data: Option<seq<byte>>)
      ensures data == GatherUpTo(packets, |packets|)
    {
      var bytes := [];
      for i := 0 to |packets|
        invariant GatherUpTo(packets, i) == Some(bytes)
      {
        if i !in packets || packets[i].length > MAX_PAYLOAD_LEN {
          GatherStops(packets, i + 1, |packets|);
          return None;
        }
        bytes := bytes + packets[i].payload[..packets[i].length];
      }
      data := Some(bytes);
    }
  }
}
