/** Threads: one frame through a sender thread, in the order its loop prescribes (tx/src/source.rs). */
module Threads {
  import opened Wrappers
  import opened Packets
  import opened TxPartCtl
  import opened Throttle
  import opened Source
  import opened RttRecords

  /** Cuts a frame under the next sequence number, queues it, registers its arrival in the ring, and only
      then works the queue off. This is one `NewFrame` step of the protocol with the arrival on the ring,
      followed by its attempts. */
  method ServeFrame(template: PacketTemplate, thr: RateThrottler, ctl: TxPartCtler, ring: RttRecords,
                    frame: Frame, prepareTime: nat, arrival: real, ticks: seq<Tick>, links: nat)
    returns (packets: seq<PacketWithMeta>, wire: seq<seq<byte>>)
    requires template.packet.seqNo < 0xFFFF_FFFF && ring.queue.Length > 0
    requires thr.Invariant() && Timely(thr.Model(), prepareTime) && InTickOrder(ticks, prepareTime)
    requires forall q :: IsFragmentation(frame, template.packet.seqNo + 1, q) ==>
                           Process(Sender(AfterPrepare(thr.Model(), q, prepareTime), ctl.Model()), ticks, links).Some?
    modifies template, thr, thr.window, thr.buffer, ctl, ring.queue
    ensures thr.Invariant() && template.packet.seqNo == old(template.packet.seqNo) + 1
    ensures IsFragmentation(frame, template.packet.seqNo, packets)
    ensures (Sender(thr.Model(), ctl.Model()), wire)
            == Process(Sender(AfterPrepare(old(thr.Model()), packets, prepareTime), old(ctl.Model())),
                       ticks, links).value
    ensures ring.queue[..] == AfterArrival(old(ring.queue[..]), template.packet.seqNo, arrival, ring.targetRtt)
  {
    hide Process, IsFragmentation, AfterPrepare, Valid, AfterArrival;
    template.NextSeq(NumFragments(|frame|));
    packets := GeneratePackets(|frame| % MAX_PAYLOAD_LEN, template, Some(frame), arrival);
    FragmentationLastOnes(frame, template.packet.seqNo, packets);
    PrepareKeepsTimely(thr.Model(), packets, prepareTime);
    thr.Prepare(packets, prepareTime);
    ring.UpdateArrival(template.packet.seqNo, arrival);
    wire := ProcessQueue(thr, ctl, ticks, links, prepareTime);
  }

  lemma PrepareKeepsTimely(s: Throttler, packets: seq<PacketWithMeta>, now: nat)
    requires Timely(s, now)
    ensures Timely(AfterPrepare(s, packets, now), now)
  {
  }
}
