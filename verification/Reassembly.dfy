/** Reassembly: a frame cut by Source and recorded by Record comes back whole, in any arrival order,
    exactly when its size allows it. */
module Reassembly {
  import opened Wrappers
  import opened Packets
  import opened Source
  import opened Record

  /** What a gathered frame consists of: a frame whose size is a positive multiple of the payload size
      loses its last fragment, whose length is sent as zero. */
  function Reassembled(frame: Frame): Frame {
    if |frame| > 0 && |frame| % MAX_PAYLOAD_LEN == 0 then frame[..|frame| - MAX_PAYLOAD_LEN] else frame
  }

  /** A packet read off the receive buffer is the fragment of `frame` at its offset, marked last exactly
      at the last fragment index, which no offset reaches when the frame has 65536 fragments or more. */
  predicate IsReceived(frame: Frame, p: PacketStruct) {
    && p.offset < PacketCount(|frame|)
    && p.length == FragmentLength(|frame|, p.offset)
    && p.payload[..p.length] == FragmentBytes(frame, p.offset)
    && GetPacketType(p.indicators).Some?
    && (MarksLast(GetPacketType(p.indicators).value) <==> p.offset == NumFragments(|frame|) - 1)
  }

  /** A record holds fragments of `frame` only, each at its offset, and knows the last one if it has it. */
  ghost predicate RecInv(frame: Frame, r: Rec) {
    && (forall o :: o in r.packets ==> r.packets[o].offset == o && IsReceived(frame, r.packets[o]))
    && (r.lastId.Some? ==> r.lastId.value == NumFragments(|frame|) - 1 && r.lastId.value in r.packets)
    && (NumFragments(|frame|) - 1 in r.packets ==> r.lastId.Some?)
    && r.complete == RangeComplete(r.packets, r.lastId)
  }

  lemma EmptyRecInv(frame: Frame)
    ensures RecInv(frame, EMPTY_REC)
  {
  }

  lemma RecordKeepsInv(frame: Frame, r: Rec, p: PacketStruct, now: real)
    requires RecInv(frame, r) && IsReceived(frame, p)
    ensures AfterRecord(r, p, now).Some? && RecInv(frame, AfterRecord(r, p, now).value)
    ensures AfterRecord(r, p, now).value.packets.Keys == r.packets.Keys + {p.offset}
  {
    hide FragmentLength, FragmentBytes, NumFragments, PacketCount;
  }

  /** The offsets below `n`. */
  function Below(n: nat): (s: set<nat>)
    ensures forall i :: i in s <==> 0 <= i < n
  {
    if n == 0 then {} else Below(n - 1) + {n - 1}
  }

  lemma {:induction false} BelowSize(n: nat)
    ensures |Below(n)| == n
  {
    if n > 0 {
      BelowSize(n - 1);
    }
  }

  /** The end of the bytes that the first `k` fragments of a complete frame carry. */
  function CoveredUpTo(size: nat, k: nat): nat {
    if k < NumFragments(size) then k * MAX_PAYLOAD_LEN
    else if size > 0 && size % MAX_PAYLOAD_LEN == 0 then size - MAX_PAYLOAD_LEN
    else size
  }

  lemma CoversNothingYet(size: nat)
    ensures CoveredUpTo(size, 0) == 0
  {
  }

  /** Gathering the first `k` fragments gives the prefix of the frame they carry. */
  lemma {:induction false} GatherPrefix(frame: Frame, packets: map<nat, PacketStruct>, k: nat)
    requires k <= NumFragments(|frame|) == PacketCount(|frame|)
    requires forall o :: 0 <= o < k ==> o in packets && packets[o].offset == o && IsReceived(frame, packets[o])
    ensures CoveredUpTo(|frame|, k) <= |frame|
    ensures GatherUpTo(packets, k) == Some(frame[..CoveredUpTo(|frame|, k)])
  {
    hide FragmentLength, FragmentBytes, PacketCount, NumFragments, CoveredUpTo;
    if k == 0 {
      CoversNothingYet(|frame|);
    } else {
      GatherPrefix(frame, packets, k - 1);
      PrefixGrows(frame, k);
    }
  }

  lemma PrefixGrows(frame: Frame, k: nat)
    requires 0 < k <= NumFragments(|frame|) == PacketCount(|frame|)
    ensures CoveredUpTo(|frame|, k - 1) <= CoveredUpTo(|frame|, k) <= |frame|
    ensures frame[..CoveredUpTo(|frame|, k - 1)] + FragmentBytes(frame, k - 1) == frame[..CoveredUpTo(|frame|, k)]
  {
    FragmentFits(|frame|, k - 1);
    FragmentBounds(|frame|, k);
    hide FragmentLength, PacketCount, NumFragments, CoveredUpTo;
  }

  lemma FragmentBounds(size: nat, k: nat)
    requires 0 < k <= NumFragments(size) == PacketCount(size)
    ensures CoveredUpTo(size, k - 1) == (k - 1) * MAX_PAYLOAD_LEN
    ensures CoveredUpTo(size, k) == (k - 1) * MAX_PAYLOAD_LEN + FragmentLength(size, k - 1)
  {
  }

  /** A record is complete exactly when it has every fragment of a frame of fewer than 65536 fragments. */
  lemma CompleteIff(frame: Frame, r: Rec)
    requires RecInv(frame, r)
    ensures r.complete <==>
            0 < NumFragments(|frame|) < 0x1_0000 && forall o :: 0 <= o < NumFragments(|frame|) ==> o in r.packets
  {
    hide FragmentLength, FragmentBytes;
    var n := NumFragments(|frame|);
    if r.complete {
      assert n - 1 in r.packets && n - 1 < PacketCount(|frame|);
    }
    if 0 < n < 0x1_0000 && forall o :: 0 <= o < n ==> o in r.packets {
      assert n - 1 in r.packets;
    }
  }

  lemma CompleteKeys(frame: Frame, r: Rec)
    requires RecInv(frame, r) && r.complete
    ensures |r.packets| == NumFragments(|frame|) == PacketCount(|frame|)
    ensures forall o :: 0 <= o < NumFragments(|frame|) ==> o in r.packets
  {
    CompleteIff(frame, r);
    hide FragmentLength, FragmentBytes, RangeComplete;
    var n := NumFragments(|frame|);
    assert forall o :: o in r.packets ==> IsReceived(frame, r.packets[o]) && o < PacketCount(|frame|);
    assert n == PacketCount(|frame|);
    hide NumFragments, PacketCount, RecInv, IsReceived;
    assert r.packets.Keys == Below(n);
    BelowSize(n);
    assert |r.packets| == |r.packets.Keys|;
  }

  lemma CoversReassembled(frame: Frame)
    ensures CoveredUpTo(|frame|, NumFragments(|frame|)) <= |frame|
    ensures frame[..CoveredUpTo(|frame|, NumFragments(|frame|))] == Reassembled(frame)
  {
    assert frame[..|frame|] == frame;
  }

  /** Gathering a complete record panics nowhere and gives the frame, or the frame without its last
      fragment when its size is a multiple of the payload size. */
  lemma GatherComplete(frame: Frame, r: Rec)
    requires RecInv(frame, r) && r.complete
    ensures |r.packets| == NumFragments(|frame|)
    ensures GatherUpTo(r.packets, |r.packets|) == Some(Reassembled(frame))
  {
    CompleteKeys(frame, r);
    CoversReassembled(frame);
    hide IsReceived, NumFragments, PacketCount, CoveredUpTo, Reassembled, RangeComplete;
    GatherPrefix(frame, r.packets, NumFragments(|frame|));
  }

  // ---------------------------------------------------------------------------------------------
  // Any arrival order

  datatype Arrival = Arrival(packet: PacketStruct, time: real)

  /** Recording a sequence of arrivals, repeats included. */
  function RecordAll(arrivals: seq<Arrival>): Option<Rec> {
    if arrivals == [] then Some(EMPTY_REC)
    else
      var n := |arrivals| - 1;
      var r :- RecordAll(arrivals[..n]);
      AfterRecord(r, arrivals[n].packet, arrivals[n].time)
  }

  ghost predicate AllOf(frame: Frame, arrivals: seq<Arrival>) {
    forall i :: 0 <= i < |arrivals| ==> IsReceived(frame, arrivals[i].packet)
  }

  ghost predicate Arrived(arrivals: seq<Arrival>, offset: nat) {
    exists i :: 0 <= i < |arrivals| && arrivals[i].packet.offset == offset
  }

  lemma {:induction false} RecordAllKeepsInv(frame: Frame, arrivals: seq<Arrival>)
    requires AllOf(frame, arrivals)
    ensures RecordAll(arrivals).Some? && RecInv(frame, RecordAll(arrivals).value)
    ensures forall o :: o in RecordAll(arrivals).value.packets <==> Arrived(arrivals, o)
  {
    hide IsReceived, RecInv, AfterRecord;
    if arrivals == [] {
      EmptyRecInv(frame);
    } else {
      var n := |arrivals| - 1;
      var front := arrivals[..n];
      RecordAllKeepsInv(frame, front);
      var r, last := RecordAll(front).value, arrivals[n];
      RecordKeepsInv(frame, r, last.packet, last.time);
      forall o
        ensures Arrived(arrivals, o) <==> Arrived(front, o) || o == last.packet.offset
      {
        if Arrived(front, o) {
          var i :| 0 <= i < |front| && front[i].packet.offset == o;
          assert arrivals[i].packet.offset == o;
        }
        if o == last.packet.offset {
          assert arrivals[n].packet.offset == o;
        }
      }
    }
  }

  /** Order independence: for any sequence of fragments of one frame, in any order and with repeats, the
      record never panics; it is complete exactly when every fragment has arrived, whatever the order; and
      what it then gathers depends on the frame alone. */
  lemma OrderIndependent(frame: Frame, arrivals: seq<Arrival>)
    requires AllOf(frame, arrivals)
    ensures RecordAll(arrivals).Some?
    ensures var r := RecordAll(arrivals).value;
            && (r.complete <==> 0 < NumFragments(|frame|) < 0x1_0000
                                && forall o :: 0 <= o < NumFragments(|frame|) ==> Arrived(arrivals, o))
            && (r.complete ==> GatherUpTo(r.packets, |r.packets|) == Some(Reassembled(frame)))
  {
    RecordAllKeepsInv(frame, arrivals);
    var r := RecordAll(arrivals).value;
    CompleteIff(frame, r);
    if r.complete {
      GatherComplete(frame, r);
    }
  }

  /** A complete record stays complete when more fragments of its frame arrive. */
  lemma CompletenessLatches(frame: Frame, arrivals: seq<Arrival>, more: seq<Arrival>)
    requires AllOf(frame, arrivals + more)
    requires AllOf(frame, arrivals) && RecordAll(arrivals).Some? && RecordAll(arrivals).value.complete
    ensures RecordAll(arrivals + more).Some? && RecordAll(arrivals + more).value.complete
  {
    OrderIndependent(frame, arrivals);
    OrderIndependent(frame, arrivals + more);
    forall o | Arrived(arrivals, o)
      ensures Arrived(arrivals + more, o)
    {
      var i :| 0 <= i < |arrivals| && arrivals[i].packet.offset == o;
      assert (arrivals + more)[i].packet.offset == o;
    }
  }

  /** An arrival over the given link. */
  predicate Over(a: Arrival, link: nat) {
    GetPacketType(a.packet.indicators).Some? && LinkOf(GetPacketType(a.packet.indicators).value) == link
  }

  /** `time` is when the latest arrival over the link came, if one did. */
  ghost predicate IsLatest(arrivals: seq<Arrival>, link: nat, time: Option<real>) {
    match time
    case None => forall i :: 0 <= i < |arrivals| ==> !Over(arrivals[i], link)
    case Some(t) =>
      exists i :: 0 <= i < |arrivals| && Over(arrivals[i], link) && arrivals[i].time == t
        && forall j :: i < j < |arrivals| ==> !Over(arrivals[j], link)
  }

  /** The link times of a record are those of the latest arrival over each link, whatever arrived; the delay
      the receiver reports is the difference of the two. */
  lemma {:induction false} LinkTimesAreLatest(arrivals: seq<Arrival>)
    requires RecordAll(arrivals).Some?
    ensures IsLatest(arrivals, 0, RecordAll(arrivals).value.firstTime)
    ensures IsLatest(arrivals, 1, RecordAll(arrivals).value.secondTime)
  {
    hide RangeComplete;
    if arrivals != [] {
      var n := |arrivals| - 1;
      LinkTimesAreLatest(arrivals[..n]);
      var r := RecordAll(arrivals[..n]).value;
      LatestGoesOn(arrivals, 0, r.firstTime);
      LatestGoesOn(arrivals, 1, r.secondTime);
    }
  }

  lemma LatestGoesOn(arrivals: seq<Arrival>, link: nat, time: Option<real>)
    requires arrivals != [] && IsLatest(arrivals[..|arrivals| - 1], link, time)
    ensures var last := arrivals[|arrivals| - 1];
            IsLatest(arrivals, link, if Over(last, link) then Some(last.time) else time)
  {
    hide Over;
    var n := |arrivals| - 1;
    if !Over(arrivals[n], link) && time.Some? {
      var i :| 0 <= i < n && Over(arrivals[..n][i], link) && arrivals[..n][i].time == time.value
            && forall j :: i < j < n ==> !Over(arrivals[..n][j], link);
      assert forall j :: i < j < n ==> arrivals[j] == arrivals[..n][j];
      assert Over(arrivals[i], link);
    } else if !Over(arrivals[n], link) {
      assert forall j :: 0 <= j < n ==> arrivals[j] == arrivals[..n][j];
    }
  }

  // ---------------------------------------------------------------------------------------------
  // Exactly which frames survive

  function ReceivedFragment(frame: Frame, seqNo: u32, o: nat): PacketStruct
    requires o < PacketCount(|frame|)
  {
    var b := FragmentBytes(frame, o);
    var last := o == NumFragments(|frame|) - 1;
    PacketStruct(seqNo, o, |b|, if last then 2 else 0, b + seq(MAX_PAYLOAD_LEN - |b|, _ => 0))
  }

  /** A frame can come back unchanged exactly when its size is no multiple of the payload size and it has
      fewer than 65536 fragments. */
  lemma SurvivesIff(frame: Frame)
    ensures (exists arrivals ::
               AllOf(frame, arrivals) && RecordAll(arrivals).Some? && RecordAll(arrivals).value.complete
               && var r := RecordAll(arrivals).value; GatherUpTo(r.packets, |r.packets|) == Some(frame))
            <==> |frame| % MAX_PAYLOAD_LEN != 0 && NumFragments(|frame|) < 0x1_0000
  {
    hide AllOf, RecordAll;
    forall arrivals | AllOf(frame, arrivals)
      ensures RecordAll(arrivals).Some?
      ensures var r := RecordAll(arrivals).value;
              r.complete && GatherUpTo(r.packets, |r.packets|) == Some(frame)
              ==> |frame| % MAX_PAYLOAD_LEN != 0 && NumFragments(|frame|) < 0x1_0000
    {
      OrderIndependent(frame, arrivals);
    }
    if |frame| % MAX_PAYLOAD_LEN != 0 && NumFragments(|frame|) < 0x1_0000 {
      var arrivals := InOrderDelivery(frame);
    }
  }

  lemma InOrderDelivery(frame: Frame) returns (arrivals: seq<Arrival>)
    requires |frame| % MAX_PAYLOAD_LEN != 0 && NumFragments(|frame|) < 0x1_0000
    ensures AllOf(frame, arrivals) && RecordAll(arrivals).Some? && RecordAll(arrivals).value.complete
    ensures var r := RecordAll(arrivals).value; GatherUpTo(r.packets, |r.packets|) == Some(frame)
  {
    var n := NumFragments(|frame|);
    arrivals := seq(n, i requires 0 <= i < n => Arrival(ReceivedFragment(frame, 1, i), 0.0));
    forall i | 0 <= i < n
      ensures IsReceived(frame, arrivals[i].packet) && Arrived(arrivals, i)
    {
      assert arrivals[i].packet.offset == i;
    }
    OrderIndependent(frame, arrivals);
  }
}
