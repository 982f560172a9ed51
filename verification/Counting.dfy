/** Counting: on a network that does not duplicate, every fragment reaches the receiver at most once, and
    the receiver's counters are exact. */
module Counting {
  import opened Arithmetic
  import opened Packets
  import opened Source
  import opened Throttle
  import opened Record
  import opened Reassembly
  import opened Destination
  import opened EndToEnd

  /** A fragment's identity: the sequence number and the offset. */
  type Key = (nat, nat)

  function PacketKey(p: PacketWithMeta): Key {
    (p.packet.seqNo, p.packet.offset)
  }

  function DatagramKey(d: seq<byte>): Key
    requires |d| >= APP_HEADER_LENGTH
  {
    (SeqOf(d), OffsetOf(d))
  }

  /** The network does not duplicate. */
  predicate NoDuplicates(events: seq<Event>) {
    forall i :: 0 <= i < |events| && events[i].Deliver? ==> !events[i].keep
  }

  predicate AllDistinct(q: seq<PacketWithMeta>) {
    forall i, j :: 0 <= i < j < |q| ==> PacketKey(q[i]) != PacketKey(q[j])
  }

  /** A fragment is in the queue, or in flight once, or delivered, and in one of them only. */
  ghost predicate Once(q: seq<PacketWithMeta>, net: multiset<seq<byte>>, delivered: set<Key>) {
    && AllDistinct(q)
    && (forall d :: d in net ==> |d| >= APP_HEADER_LENGTH && net[d] == 1)
    && (forall d, e :: d in net && e in net && d != e ==> DatagramKey(d) != DatagramKey(e))
    && (forall d, p :: d in net && p in q ==> DatagramKey(d) != PacketKey(p))
    && (forall d :: d in net ==> DatagramKey(d) !in delivered)
    && (forall p :: p in q ==> PacketKey(p) !in delivered)
  }

  ghost predicate OnceIn(s: System) {
    && Once(s.sender.thr.buffer, s.net, s.delivered)
    && forall k :: k in s.delivered ==> Accounts(s.frames, s.accepted, k.0, k.1)
  }

  /** Everything on the way or delivered belongs to a frame before number `n`. */
  ghost predicate Earlier(q: seq<PacketWithMeta>, net: multiset<seq<byte>>, delivered: set<Key>, n: nat) {
    && (forall p :: p in q ==> p.packet.seqNo < n)
    && (forall d :: d in net ==> |d| >= APP_HEADER_LENGTH && SeqOf(d) < n)
    && (forall k :: k in delivered ==> k.0 < n)
  }

  lemma AppendKeepsOnce(q: seq<PacketWithMeta>, net: multiset<seq<byte>>, delivered: set<Key>,
                        packets: seq<PacketWithMeta>, n: nat)
    requires Once(q, net, delivered) && Earlier(q, net, delivered, n)
    requires forall i :: 0 <= i < |packets| ==> PacketKey(packets[i]) == (n, i)
    ensures Once(q + packets, net, delivered)
  {
    hide SeqOf, OffsetOf;
    var all := q + packets;
    assert forall p :: p in packets ==> PacketKey(p).0 == n;
    assert forall p :: p in all ==> p in q || p in packets;
    forall i, j | 0 <= i < j < |all|
      ensures PacketKey(all[i]) != PacketKey(all[j])
    {
      if j < |q| {
        assert PacketKey(q[i]) != PacketKey(q[j]);
      } else if i < |q| {
        assert q[i] in q;
      }
    }
  }

  /** Moving the head of the queue to the network keeps every fragment in one place. */
  lemma HeadLeaves(q: seq<PacketWithMeta>, net: multiset<seq<byte>>, delivered: set<Key>, d: seq<byte>)
    requires Once(q, net, delivered) && q != [] && |d| >= APP_HEADER_LENGTH && DatagramKey(d) == PacketKey(q[0])
    ensures Once(q[1..], net + multiset{d}, delivered)
  {
    hide SeqOf, OffsetOf;
    assert d !in net;
    assert forall p :: p in q[1..] ==> p in q && PacketKey(p) != PacketKey(q[0]);
  }

  /** Taking a datagram off the network, delivered or lost. */
  lemma DatagramLeaves(q: seq<PacketWithMeta>, net: multiset<seq<byte>>, delivered: set<Key>, d: seq<byte>)
    requires Once(q, net, delivered) && d in net && |d| >= APP_HEADER_LENGTH
    ensures Once(q, net - multiset{d}, delivered + {DatagramKey(d)})
    ensures Once(q, net - multiset{d}, delivered)
    ensures DatagramKey(d) !in delivered
  {
    hide SeqOf, OffsetOf;
    assert forall e :: e in net - multiset{d} ==> e in net && e != d;
  }

  lemma {:induction false} AnnounceKeepsOnce(s: System, frame: Frame, packets: seq<PacketWithMeta>, now: nat)
    requires Inv(s) && OnceIn(s) && Enabled(s, NewFrame(frame, packets, now))
    ensures OnceIn(Announce(s, frame, packets, now))
  {
    hide SeqOf, OffsetOf, PacketCount, FragmentLength, FragmentBytes, NumFragments, DatagramCarries, RecordOk, OutputOk;
    hide Once, CurrentRate;
    var k, n := Accepted(s.sender.thr, |packets|), |s.frames| + 1;
    assert Earlier(s.sender.thr.buffer, s.net, s.delivered, n) by {
      forall p | p in s.sender.thr.buffer ensures p.packet.seqNo < n {
        assert QueuedOk(s.frames, s.accepted, p);
      }
      forall d | d in s.net ensures |d| >= APP_HEADER_LENGTH && SeqOf(d) < n {
        assert DatagramOk(s.frames, s.accepted, d);
      }
    }
    forall i | 0 <= i < k
      ensures PacketKey(packets[..k][i]) == (n, i)
    {
      assert IsFragment(frame, n, i, packets[i]);
    }
    hide QueuedOk, DatagramOk, IsFragment, Inv;
    AppendKeepsOnce(s.sender.thr.buffer, s.net, s.delivered, packets[..k], n);
    PrepareAppends(s.sender.thr, packets, now);
  }

  lemma PrepareAppends(thr: Throttler, packets: seq<PacketWithMeta>, now: nat)
    ensures AfterPrepare(thr, packets, now).buffer == thr.buffer + packets[..Accepted(thr, |packets|)]
  {
  }

  lemma {:induction false} TrySendKeepsOnce(s: System, tick: Tick, links: nat)
    requires Inv(s) && OnceIn(s) && TrySend(s, tick, links).Some?
    ensures OnceIn(TrySend(s, tick, links).value)
  {
    hide Iterate, AfterTryConsume, QueuedOk, DatagramOk, RecordOk, OutputOk, PacketCount, SeqOf, OffsetOf, Once;
    IterateIsTryConsume(s.sender, tick, links);
    var i := Iterate(s.sender, tick, links).value;
    if i.wire.Some? {
      var head := s.sender.thr.buffer[0];
      var t :| IsDatagramOf(i.wire.value, head, t);
      StampedIsOk(s.frames, s.accepted, head, t, i.wire.value);
      assert |i.wire.value| >= APP_HEADER_LENGTH;
      HeadLeaves(s.sender.thr.buffer, s.net, s.delivered, i.wire.value);
    } else {
      assert s.net + multiset{} == s.net;
    }
  }

  // ---------------------------------------------------------------------------------------------
  // The receiver's counters

  function AckedSeqs(acked: seq<Output>): set<nat> {
    set i | 0 <= i < |acked| :: acked[i].seqNo
  }

  lemma AckedSnoc(acked: seq<Output>, out: Output)
    ensures AckedSeqs(acked + [out]) == AckedSeqs(acked) + {out.seqNo}
  {
    var all := acked + [out];
    assert all[|acked|] == out;
    forall n | n in AckedSeqs(acked)
      ensures n in AckedSeqs(all)
    {
      var i :| 0 <= i < |acked| && acked[i].seqNo == n;
      assert all[i].seqNo == n;
    }
  }

  /** The sampled sequence numbers up to `last`; numbering starts at 1. */
  predicate Sampled(n: nat, rate: nat, last: nat)
    requires rate > 0
  {
    1 <= n <= last && n % rate == 0
  }

  /** The records hold exactly what was delivered of their frames, an acked frame was delivered whole, and
      every sampled frame seen is either recorded or acked. */
  ghost predicate Tallied(acked: set<nat>, records: map<nat, Rec>, delivered: set<Key>, frames: seq<Frame>,
                          last: nat, rate: nat)
    requires rate > 0
  {
    && acked !! records.Keys && last <= |frames|
    && (forall n :: n in records || n in acked ==> Sampled(n, rate, last))
    && (forall n, o :: n in records ==> (o in records[n].packets <==> (n, o) in delivered))
    && (forall n :: n in records ==> records[n].packets != map[] && !records[n].complete)
    && (forall n, o :: n in acked && 0 <= o < NumFragments(|frames[n - 1]|) ==> (n, o) in delivered)
    && (forall k :: k in delivered && k.0 % rate == 0 ==> k.0 in records || k.0 in acked)
  }

  ghost predicate Counted(s: System, rate: nat)
    requires rate > 0
  {
    && s.rx.recevied == |s.acked| == |AckedSeqs(s.acked)|
    && Tallied(AckedSeqs(s.acked), s.rx.records, s.delivered, s.frames, s.rx.lastSeq, rate)
  }

  lemma AnnounceKeepsCounted(s: System, frame: Frame, packets: seq<PacketWithMeta>, now: nat, rate: nat)
    requires rate > 0 && Counted(s, rate)
    ensures Counted(Announce(s, frame, packets, now), rate)
  {
    hide NumFragments, AckedSeqs, AfterPrepare;
  }

  /** Every fragment of an acked frame that the queue had accepted was delivered. */
  lemma AckedWasDelivered(s: System, n: nat, o: nat, rate: nat)
    requires Inv(s) && rate > 0 && Counted(s, rate) && Accounts(s.frames, s.accepted, n, o)
    ensures n in AckedSeqs(s.acked) ==> (n, o) in s.delivered
  {
    hide QueuedOk, DatagramOk, RecordOk, PacketCount, NumFragments;
    if n in AckedSeqs(s.acked) {
      var i :| 0 <= i < |s.acked| && s.acked[i].seqNo == n;
      assert OutputOk(s.frames, s.accepted, s.acked[i]);
    }
  }

  lemma TallyLater(acked: set<nat>, records: map<nat, Rec>, delivered: set<Key>, frames: seq<Frame>,
                   last: nat, rate: nat, n: nat)
    requires rate > 0 && Tallied(acked, records, delivered, frames, last, rate) && n <= |frames|
    ensures Tallied(acked, records, delivered, frames, if n > last then n else last, rate)
  {
    hide NumFragments;
  }

  lemma TallySkip(acked: set<nat>, records: map<nat, Rec>, delivered: set<Key>, frames: seq<Frame>,
                  last: nat, rate: nat, n: nat, o: nat)
    requires rate > 0 && Tallied(acked, records, delivered, frames, last, rate) && n % rate != 0
    ensures Tallied(acked, records, delivered + {(n, o)}, frames, last, rate)
  {
    hide NumFragments;
  }

  /** A fresh fragment goes to a record that then holds exactly the delivered fragments of its frame. */
  ghost predicate FreshFor(acked: set<nat>, records: map<nat, Rec>, delivered: set<Key>, n: nat, o: nat, r: Rec) {
    && n !in acked && (n, o) !in delivered
    && r.packets.Keys == (if n in records then records[n].packets.Keys else {}) + {o}
  }

  lemma TallyStore(acked: set<nat>, records: map<nat, Rec>, delivered: set<Key>, frames: seq<Frame>,
                   last: nat, rate: nat, n: nat, o: nat, r: Rec)
    requires rate > 0 && Tallied(acked, records, delivered, frames, last, rate)
    requires Sampled(n, rate, last) && FreshFor(acked, records, delivered, n, o, r) && !r.complete
    ensures Tallied(acked, records[n := r], delivered + {(n, o)}, frames, last, rate)
  {
    hide NumFragments;
    assert o in r.packets.Keys;
    forall o'
      ensures o' in r.packets <==> (n, o') in delivered + {(n, o)}
    {
      assert o' in r.packets <==> o' in r.packets.Keys;
    }
  }

  lemma TallyComplete(acked: set<nat>, records: map<nat, Rec>, delivered: set<Key>, frames: seq<Frame>,
                      last: nat, rate: nat, n: nat, o: nat, r: Rec)
    requires rate > 0 && Tallied(acked, records, delivered, frames, last, rate)
    requires Sampled(n, rate, last) && FreshFor(acked, records, delivered, n, o, r) && n <= |frames|
    requires forall o' :: 0 <= o' < NumFragments(|frames[n - 1]|) ==> o' in r.packets
    ensures Tallied(acked + {n}, records - {n}, delivered + {(n, o)}, frames, last, rate)
  {
    hide NumFragments;
    var incomplete := r.(complete := false);
    TallyStore(acked, records, delivered, frames, last, rate, n, o, incomplete);
    var stored := records[n := incomplete];
    assert records - {n} == stored - {n};
    assert forall o' :: o' in stored[n].packets <==> (n, o') in delivered + {(n, o)};
  }

  lemma {:induction false} RecordIsFresh(s: System, n: nat, o: nat, rate: nat, r: Rec)
    requires Inv(s) && rate > 0 && Counted(s, rate) && Accounts(s.frames, s.accepted, n, o)
    requires (n, o) !in s.delivered && r.packets.Keys == Before(s.rx, n).packets.Keys + {o}
    ensures FreshFor(AckedSeqs(s.acked), s.rx.records, s.delivered, n, o, r)
  {
    hide Inv, Tallied, AckedSeqs;
    AckedWasDelivered(s, n, o, rate);
  }

  lemma {:induction false} CompletingKeepsCounted(s: System, n: nat, o: nat, args: Args, r: Rec, s': System)
    requires args.sampleRate > 0 && Counted(s, args.sampleRate) && n % args.sampleRate == 0 && r.complete
    requires RecordOk(s.frames, s.accepted, n, r)
    requires FreshFor(AckedSeqs(s.acked), s.rx.records, s.delivered, n, o, r)
    requires Received(s, n, o, args, r, s')
    ensures Counted(s', args.sampleRate)
  {
    hide Tallied, AckedSeqs, GatherUpTo, RecInv, NumFragments;
    var rate, acked := args.sampleRate, AckedSeqs(s.acked);
    CompleteIff(s.frames[n - 1], r);
    TallyLater(acked, s.rx.records, s.delivered, s.frames, s.rx.lastSeq, rate, n);
    TallyComplete(acked, s.rx.records, s.delivered, s.frames, s'.rx.lastSeq, rate, n, o, r);
    AckedSnoc(s.acked, s'.acked[|s.acked|]);
  }

  lemma {:induction false} ReceiveKeepsCounted(s: System, n: nat, o: nat, args: Args, r: Rec, s': System)
    requires Inv(s) && args.sampleRate > 0 && Counted(s, args.sampleRate)
    requires Accounts(s.frames, s.accepted, n, o) && (n, o) !in s.delivered
    requires RecordOk(s.frames, s.accepted, n, r) && r.packets.Keys == Before(s.rx, n).packets.Keys + {o}
    requires Received(s, n, o, args, r, s')
    ensures Counted(s', args.sampleRate)
  {
    hide Inv, Tallied, AckedSeqs, GatherUpTo, RecordOk, Before, FreshFor;
    var rate, acked := args.sampleRate, AckedSeqs(s.acked);
    RecordIsFresh(s, n, o, rate, r);
    if n % rate == 0 && r.complete {
      CompletingKeepsCounted(s, n, o, args, r, s');
    } else {
      TallyLater(acked, s.rx.records, s.delivered, s.frames, s.rx.lastSeq, rate, n);
      if n % rate != 0 {
        TallySkip(acked, s.rx.records, s.delivered, s.frames, s'.rx.lastSeq, rate, n, o);
      } else {
        TallyStore(acked, s.rx.records, s.delivered, s.frames, s'.rx.lastSeq, rate, n, o, r);
      }
    }
  }

  ghost predicate Exact(s: System, rate: nat)
    requires rate > 0
  {
    |s.buffer| == BUFFER_SIZE && Inv(s) && OnceIn(s) && Counted(s, rate)
  }

  lemma {:induction false} DeliverKeepsExact(cfg: Config, s: System, ev: Event)
    requires cfg.args.sampleRate > 0 && Exact(s, cfg.args.sampleRate)
    requires Enabled(s, ev) && ev.Deliver? && !ev.keep
    ensures Step(cfg, s, ev).Some? && Exact(Step(cfg, s, ev).value, cfg.args.sampleRate)
    ensures DatagramKey(ev.datagram) !in s.delivered
  {
    hide Inv, Once, Counted, Tallied, SeqOf, OffsetOf, Recorded, AckedSeqs, RecordOk, GatherUpTo;
    var d := ev.datagram;
    InFlightIsAccounted(s, d);
    ReceiveKeepsInv(s, d, false, ev.env, cfg.args);
    ArrivalIsRecorded(s, d, ev.env.recordTime);
    ReceiveEffect(s, d, false, ev.env, cfg.args);
    DatagramLeaves(s.sender.thr.buffer, s.net, s.delivered, d);
    ReceiveTakes(s, d, ev.env, cfg.args);
    var s' := Step(cfg, s, ev).value;
    hide Receive;
    ReceiveKeepsCounted(s, SeqOf(d), OffsetOf(d), cfg.args, Recorded(s, d, ev.env.recordTime).value, s');
  }

  lemma ReceiveTakes(s: System, d: seq<byte>, env: Env, args: Args)
    requires |s.buffer| == BUFFER_SIZE && |d| >= APP_HEADER_LENGTH
    requires Receive(s, d, false, env, args).Some?
    ensures Receive(s, d, false, env, args).value.net == s.net - multiset{d}
  {
    hide AfterHandleRtt, Overlay, SeqOf, OffsetOf;
  }

  lemma InFlightIsAccounted(s: System, d: seq<byte>)
    requires Inv(s) && d in s.net
    ensures |d| >= APP_HEADER_LENGTH && Accounts(s.frames, s.accepted, SeqOf(d), OffsetOf(d))
  {
    assert DatagramOk(s.frames, s.accepted, d);
  }

  lemma {:induction false} OthersKeepExact(cfg: Config, s: System, ev: Event)
    requires cfg.args.sampleRate > 0 && Exact(s, cfg.args.sampleRate)
    requires Enabled(s, ev) && !ev.Deliver? && Step(cfg, s, ev).Some?
    ensures Exact(Step(cfg, s, ev).value, cfg.args.sampleRate)
  {
    hide Inv, Once, Tallied, AckedSeqs, SeqOf, OffsetOf, IsFragmentation;
    var rate := cfg.args.sampleRate;
    StepKeepsInv(cfg, s, ev);
    match ev
    case NewFrame(frame, packets, now) =>
      AnnounceKeepsOnce(s, frame, packets, now);
      AnnounceKeepsCounted(s, frame, packets, now, rate);
    case Attempt(tick) =>
      TrySendKeepsOnce(s, tick, cfg.links);
      hide Iterate;
    case Lose(d) =>
      InFlightIsAccounted(s, d);
      DatagramLeaves(s.sender.thr.buffer, s.net, s.delivered, d);
    case _ =>
  }

  lemma {:induction false} RunKeepsExact(cfg: Config, start: System, events: seq<Event>)
    requires Initial(start) && cfg.args.sampleRate > 0 && NoDuplicates(events)
    requires Run(cfg, start, events).Some?
    ensures Exact(Run(cfg, start, events).value, cfg.args.sampleRate)
  {
    hide Step, Enabled, Exact;
    if events == [] {
      InitialExact(start, cfg.args.sampleRate);
    } else {
      var n := |events| - 1;
      RunKeepsExact(cfg, start, events[..n]);
      if events[n].Deliver? {
        DeliverKeepsExact(cfg, Run(cfg, start, events[..n]).value, events[n]);
      } else {
        OthersKeepExact(cfg, Run(cfg, start, events[..n]).value, events[n]);
      }
    }
  }

  lemma InitialExact(s: System, rate: nat)
    requires Initial(s) && rate > 0
    ensures Exact(s, rate)
  {
    InitialInv(s);
    hide Inv;
    assert AckedSeqs([]) == {};
  }

  /** The sampled sequence numbers up to `last`. */
  function SampledUpTo(last: nat, rate: nat): (s: set<nat>)
    requires rate > 0
    ensures forall n :: n in s <==> 1 <= n <= last && Remainder(n, rate) == 0
  {
    if last == 0 then {} else SampledUpTo(last - 1, rate) + if Remainder(last, rate) == 0 then {last} else {}
  }

  lemma {:induction false} SampledUpToSize(last: nat, rate: nat)
    requires rate > 0
    ensures Times(|SampledUpTo(last, rate)|, rate) + Remainder(last, rate) == last
  {
    hide Times, Remainder;
    if last == 0 {
      TimesFacts(0, rate);
      RemainderOfZero(rate);
    } else {
      SampledUpToSize(last - 1, rate);
      SampledStep(last, rate);
      hide SampledUpTo;
      ModStep(last, rate);
      TimesFacts(|SampledUpTo(last - 1, rate)|, rate);
    }
  }

  lemma SampledStep(last: nat, rate: nat)
    requires rate > 0 && last > 0
    ensures |SampledUpTo(last, rate)| == |SampledUpTo(last - 1, rate)| + if Remainder(last, rate) == 0 then 1 else 0
  {
    hide Remainder;
    assert last !in SampledUpTo(last - 1, rate);
  }

  lemma {:induction false} SubsetSize<T>(a: set<T>, b: set<T>)
    requires a <= b
    ensures |a| <= |b|
  {
    if a != {} {
      var x :| x in a;
      SubsetSize(a - {x}, b - {x});
    }
  }

  /** The sampled frames of which something was delivered. */
  function Seen(s: System, rate: nat): set<nat>
    requires rate > 0
  {
    set k | k in s.delivered && k.0 % rate == 0 :: k.0
  }

  /** Receiver counting: on a network that loses and reorders but does not duplicate, every frame is acked
      at most once; the frames counted as received and those still recorded are together exactly the
      sampled frames of which a fragment arrived; and they are at most the sampled numbers up to the
      newest one seen, so the loss count `last_seq - recevied` never underflows. */
  lemma {:induction false} ReceiverCounts(cfg: Config, start: System, events: seq<Event>)
    requires Initial(start) && cfg.args.sampleRate > 0 && NoDuplicates(events)
    requires Run(cfg, start, events).Some?
    ensures var s, rate := Run(cfg, start, events).value, cfg.args.sampleRate;
            && (forall i, j :: 0 <= i < j < |s.acked| ==> s.acked[i].seqNo != s.acked[j].seqNo)
            && |Seen(s, rate)| == s.rx.recevied + |s.rx.records|
            && s.rx.recevied == |s.acked|
            && Times(|Seen(s, rate)|, rate) <= s.rx.lastSeq
            && s.rx.recevied <= s.rx.lastSeq <= |s.frames|
  {
    InitialInv(start);
    hide Run, Initial, Inv, Once, Seen, AckedSeqs, Sampled, SampledUpTo, Times;
    RunKeepsExact(cfg, start, events);
    var s, rate := Run(cfg, start, events).value, cfg.args.sampleRate;
    AckedOnce(s.acked);
    SeenIsCounted(s, rate);
    SeenAreFew(s, rate);
  }

  lemma {:induction false} SeenAreFew(s: System, rate: nat)
    requires rate > 0 && Seen(s, rate) <= SampledUpTo(s.rx.lastSeq, rate)
    ensures |Seen(s, rate)| <= Times(|Seen(s, rate)|, rate) <= s.rx.lastSeq
  {
    hide Seen, SampledUpTo, Remainder, Times;
    SampledUpToSize(s.rx.lastSeq, rate);
    SubsetSize(Seen(s, rate), SampledUpTo(s.rx.lastSeq, rate));
    TimesMonotone(|Seen(s, rate)|, |SampledUpTo(s.rx.lastSeq, rate)|, rate);
  }

  lemma {:induction false} AckedOnce(acked: seq<Output>)
    ensures |AckedSeqs(acked)| <= |acked|
    ensures |AckedSeqs(acked)| == |acked| ==> forall i, j :: 0 <= i < j < |acked| ==> acked[i].seqNo != acked[j].seqNo
  {
    if acked != [] {
      var front, last := acked[..|acked| - 1], acked[|acked| - 1];
      AckedOnce(front);
      AckedSnoc(front, last);
      assert front + [last] == acked;
      if |AckedSeqs(acked)| == |acked| {
        assert last.seqNo !in AckedSeqs(front);
        assert forall i :: 0 <= i < |front| ==> front[i].seqNo in AckedSeqs(front);
      }
    }
  }

  lemma SeenIsCounted(s: System, rate: nat)
    requires rate > 0 && Counted(s, rate) && Inv(s)
    ensures |Seen(s, rate)| == s.rx.recevied + |s.rx.records|
    ensures Seen(s, rate) <= SampledUpTo(s.rx.lastSeq, rate)
  {
    hide Inv, NumFragments, AckedSeqs, SampledUpTo;
    var acked, keys := AckedSeqs(s.acked), s.rx.records.Keys;
    forall n | n in keys
      ensures n in Seen(s, rate)
    {
      var o :| o in s.rx.records[n].packets;
      assert (n, o) in s.delivered;
    }
    forall n | n in acked
      ensures n in Seen(s, rate)
    {
      AckedHasFragments(s, n);
      assert (n, 0) in s.delivered;
    }
    assert Seen(s, rate) == acked + keys;
    assert |keys| == |s.rx.records|;
  }

  lemma AckedHasFragments(s: System, n: nat)
    requires Inv(s) && n in AckedSeqs(s.acked)
    ensures 1 <= n <= |s.frames| && NumFragments(|s.frames[n - 1]|) > 0
  {
    hide QueuedOk, DatagramOk, RecordOk, NumFragments;
    var i :| 0 <= i < |s.acked| && s.acked[i].seqNo == n;
    assert OutputOk(s.frames, s.accepted, s.acked[i]);
  }
}
