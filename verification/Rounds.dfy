/** Rounds: how often the receiver counts a frame, on a network that may also duplicate. */
module Rounds {
  import opened Arithmetic
  import opened Packets
  import opened Source
  import opened Throttle
  import opened Record
  import opened Reassembly
  import opened Destination
  import opened EndToEnd
  import opened Counting

  /** The fragments delivered in a run, in order, repeats included. */
  function Log(events: seq<Event>): seq<Key> {
    if events == [] then []
    else
      var front, last := Log(events[..|events| - 1]), events[|events| - 1];
      if last.Deliver? && |last.datagram| >= APP_HEADER_LENGTH then front + [DatagramKey(last.datagram)] else front
  }

  /** How often the deliveries covered a frame, and the offsets seen since they last did. */
  datatype Round = Round(done: nat, seen: set<nat>)

  predicate Covers(seen: set<nat>, size: nat) {
    forall o :: 0 <= o < size ==> o in seen
  }

  function Take(r: Round, k: Key, n: nat, size: nat): Round {
    if k.0 != n then r
    else if Covers(r.seen + {k.1}, size) then Round(r.done + 1, {})
    else Round(r.done, r.seen + {k.1})
  }

  /** The rounds of frame `n` of `size` fragments, counted greedily. */
  function RoundsOf(log: seq<Key>, n: nat, size: nat): Round {
    if log == [] then Round(0, {}) else Take(RoundsOf(log[..|log| - 1], n, size), log[|log| - 1], n, size)
  }

  // ---------------------------------------------------------------------------------------------
  // Greedy counting is counting the disjoint full deliveries

  predicate DeliveredFrom(log: seq<Key>, i: nat, k: Key) {
    exists x :: i <= x < |log| && log[x] == k
  }

  /** From position `i` on, every fragment of the frame is delivered. */
  predicate WholeFrom(log: seq<Key>, i: nat, n: nat, size: nat) {
    forall o :: 0 <= o < size ==> DeliveredFrom(log, i, (n, o))
  }

  /** The deliveries can be cut into `m` consecutive stretches, each of which delivers the whole frame. */
  ghost predicate Splits(log: seq<Key>, n: nat, size: nat, m: nat)
    decreases m
  {
    m == 0 || exists i :: 0 <= i <= |log| && WholeFrom(log, i, n, size) && Splits(log[..i], n, size, m - 1)
  }

  lemma DeliveredSnoc(log: seq<Key>, i: nat, k: Key)
    requires log != []
    ensures DeliveredFrom(log, i, k) <==>
            DeliveredFrom(log[..|log| - 1], i, k) || (i < |log| && log[|log| - 1] == k)
  {
    var front := log[..|log| - 1];
    if DeliveredFrom(front, i, k) {
      var x :| i <= x < |front| && front[x] == k;
      assert log[x] == k;
    }
    if DeliveredFrom(log, i, k) {
      var x :| i <= x < |log| && log[x] == k;
      if x < |front| {
        assert front[x] == k;
      }
    }
  }

  /** Rounds only grow, and what was delivered since is either counted or still seen. */
  lemma {:induction false} RoundsGrow(log: seq<Key>, i: nat, n: nat, size: nat)
    requires size > 0 && i <= |log|
    ensures var r0, r := RoundsOf(log[..i], n, size), RoundsOf(log, n, size);
            && r0.done <= r.done && !Covers(r.seen, size)
            && (r0.done == r.done ==> forall o: nat :: DeliveredFrom(log, i, (n, o)) ==> o in r.seen)
  {
    hide DeliveredFrom, Covers;
    if i < |log| {
      var front := log[..|log| - 1];
      RoundsGrow(front, i, n, size);
      assert front[..i] == log[..i];
      forall o: nat
        ensures DeliveredFrom(log, i, (n, o)) <==>
                DeliveredFrom(front, i, (n, o)) || log[|log| - 1] == (n, o)
      {
        DeliveredSnoc(log, i, (n, o));
      }
      NothingCovers(size);
    } else {
      assert log[..i] == log;
      NothingSince(log, n);
      if log != [] {
        RoundsGrow(log[..|log| - 1], |log| - 1, n, size);
      }
      NothingCovers(size);
    }
  }

  lemma NothingCovers(size: nat)
    requires size > 0
    ensures !Covers({}, size)
  {
    var none: set<nat> := {};
    assert 0 !in none && 0 <= 0 < size;
  }

  lemma NothingSince(log: seq<Key>, n: nat)
    ensures forall o: nat :: !DeliveredFrom(log, |log|, (n, o))
  {
  }

  /** What is seen was delivered after the last round closed. */
  lemma {:induction false} OpenSince(log: seq<Key>, n: nat, size: nat) returns (i: nat)
    ensures i <= |log| && RoundsOf(log[..i], n, size).done == RoundsOf(log, n, size).done
    ensures forall o :: o in RoundsOf(log, n, size).seen ==> DeliveredFrom(log, i, (n, o))
  {
    hide DeliveredFrom, Covers;
    if log == [] {
      i := 0;
    } else {
      var front, k := log[..|log| - 1], log[|log| - 1];
      i := OpenSince(front, n, size);
      if k.0 == n && Covers(RoundsOf(front, n, size).seen + {k.1}, size) {
        i := |log|;
        assert log[..i] == log;
      } else {
        assert front[..i] == log[..i];
        forall o | o in RoundsOf(log, n, size).seen
          ensures DeliveredFrom(log, i, (n, o))
        {
          DeliveredSnoc(log, i, (n, o));
        }
      }
    }
  }

  /** Where the last round began. */
  lemma {:induction false} LastRound(log: seq<Key>, n: nat, size: nat) returns (i: nat)
    requires RoundsOf(log, n, size).done > 0
    ensures i <= |log| && RoundsOf(log[..i], n, size).done == RoundsOf(log, n, size).done - 1
    ensures WholeFrom(log, i, n, size)
  {
    hide DeliveredFrom;
    var front, k := log[..|log| - 1], log[|log| - 1];
    var closes := k.0 == n && Covers(RoundsOf(front, n, size).seen + {k.1}, size);
    if closes {
      i := OpenSince(front, n, size);
    } else {
      i := LastRound(front, n, size);
    }
    assert front[..i] == log[..i];
    forall o | 0 <= o < size
      ensures DeliveredFrom(log, i, (n, o))
    {
      DeliveredSnoc(log, i, (n, o));
      assert closes ==> o in RoundsOf(front, n, size).seen + {k.1};
    }
  }

  /** Greedy counting is optimal: a frame has at least `m` rounds exactly when its deliveries can be cut
      into `m` consecutive stretches that each deliver it whole. */
  lemma {:induction false} RoundsAreSplits(log: seq<Key>, n: nat, size: nat, m: nat)
    requires size > 0
    ensures RoundsOf(log, n, size).done >= m <==> Splits(log, n, size, m)
    decreases m
  {
    hide RoundsOf, WholeFrom, DeliveredFrom;
    if m > 0 {
      if RoundsOf(log, n, size).done >= m {
        var i := LastRound(log, n, size);
        RoundsAreSplits(log[..i], n, size, m - 1);
      }
      if Splits(log, n, size, m) {
        var i :| 0 <= i <= |log| && WholeFrom(log, i, n, size) && Splits(log[..i], n, size, m - 1);
        RoundsAreSplits(log[..i], n, size, m - 1);
        WholeIsARound(log, i, n, size);
      }
    }
  }

  lemma WholeIsARound(log: seq<Key>, i: nat, n: nat, size: nat)
    requires size > 0 && i <= |log| && WholeFrom(log, i, n, size)
    ensures RoundsOf(log, n, size).done > RoundsOf(log[..i], n, size).done
  {
    hide RoundsOf, DeliveredFrom;
    RoundsGrow(log, i, n, size);
  }

  // ---------------------------------------------------------------------------------------------
  // The receiver counts rounds

  /** The acks of frame `n`. */
  function Acks(acked: seq<Output>, n: nat): nat {
    if acked == [] then 0
    else Acks(acked[..|acked| - 1], n) + if acked[|acked| - 1].seqNo == n then 1 else 0
  }

  lemma AcksSnoc(acked: seq<Output>, out: Output, n: nat)
    ensures Acks(acked + [out], n) == Acks(acked, n) + if out.seqNo == n then 1 else 0
  {
    assert (acked + [out])[..|acked|] == acked;
  }

  function FragmentsOf(frames: seq<Frame>, n: nat): nat {
    if 1 <= n <= |frames| then NumFragments(|frames[n - 1]|) else 0
  }

  /** The record and the acks of frame `n` are its rounds; nothing of a frame arrives before it is cut. */
  ghost predicate RoundsKept(s: System, log: seq<Key>, n: nat) {
    var r := RoundsOf(log, n, FragmentsOf(s.frames, n));
    && Acks(s.acked, n) == r.done
    && Before(s.rx, n).packets.Keys == r.seen
    && (n > |s.frames| ==> Untouched(log, n))
  }

  predicate Untouched(log: seq<Key>, n: nat) {
    forall i :: 0 <= i < |log| ==> log[i].0 != n
  }

  lemma {:induction false} UntouchedHasNoRounds(log: seq<Key>, n: nat, size: nat)
    requires Untouched(log, n)
    ensures RoundsOf(log, n, size) == Round(0, {})
  {
    if log != [] {
      UntouchedHasNoRounds(log[..|log| - 1], n, size);
    }
  }

  lemma {:induction false} AnnounceKeepsRounds(s: System, frame: Frame, packets: seq<PacketWithMeta>, now: nat,
                                               log: seq<Key>, n: nat)
    requires RoundsKept(s, log, n)
    ensures RoundsKept(Announce(s, frame, packets, now), log, n)
  {
    hide NumFragments, RoundsOf, Acks, AfterPrepare;
    if n > |s.frames| {
      UntouchedHasNoRounds(log, n, FragmentsOf(s.frames, n));
      UntouchedHasNoRounds(log, n, FragmentsOf(s.frames + [frame], n));
    }
  }

  lemma RoundsSnoc(log: seq<Key>, k: Key, n: nat, size: nat)
    ensures RoundsOf(log + [k], n, size) == Take(RoundsOf(log, n, size), k, n, size)
  {
    assert (log + [k])[..|log|] == log;
  }

  /** The record that a datagram leaves is complete exactly when it covers the frame. */
  lemma CompleteCovers(s: System, n: nat, r: Rec)
    requires Inv(s) && RecordOk(s.frames, s.accepted, n, r) && r.packets != map[]
    ensures r.complete <==> Covers(r.packets.Keys, FragmentsOf(s.frames, n))
  {
    hide QueuedOk, DatagramOk, OutputOk, RecInv;
    var size := FragmentsOf(s.frames, n);
    CompleteIff(s.frames[n - 1], r);
    assert forall o :: o in r.packets ==> o < PacketCount(|s.frames[n - 1]|);
    var o :| o in r.packets;
    if size >= 0x1_0000 {
      assert size - 1 !in r.packets;
    }
    assert forall o :: o in r.packets <==> o in r.packets.Keys;
  }

  lemma {:induction false} ReceiveKeepsRounds(s: System, k: Key, args: Args, r: Rec, s': System,
                                              log: seq<Key>, n: nat)
    requires Inv(s) && args.sampleRate > 0 && n % args.sampleRate == 0 && RoundsKept(s, log, n)
    requires RecordOk(s.frames, s.accepted, k.0, r) && r.packets.Keys == Before(s.rx, k.0).packets.Keys + {k.1}
    requires Received(s, k.0, k.1, args, r, s')
    ensures RoundsKept(s', log + [k], n)
  {
    hide Inv, RecordOk, Acks, RoundsOf, Covers, GatherUpTo;
    RoundsSnoc(log, k, n, FragmentsOf(s.frames, n));
    if s'.acked != s.acked {
      AcksSnoc(s.acked, s'.acked[|s.acked|], n);
    }
    if k.0 == n {
      assert k.1 in r.packets.Keys;
      CompleteCovers(s, n, r);
      RecordNamesFrame(s, n, r);
    }
  }

  lemma RecordNamesFrame(s: System, n: nat, r: Rec)
    requires RecordOk(s.frames, s.accepted, n, r)
    ensures 1 <= n <= |s.frames|
  {
  }

  lemma {:induction false} DeliverKeepsRounds(cfg: Config, s: System, ev: Event, log: seq<Key>, n: nat)
    requires Inv(s) && cfg.args.sampleRate > 0 && n % cfg.args.sampleRate == 0 && RoundsKept(s, log, n)
    requires |s.buffer| == BUFFER_SIZE && Enabled(s, ev) && ev.Deliver?
    ensures Step(cfg, s, ev).Some? && RoundsKept(Step(cfg, s, ev).value, log + [DatagramKey(ev.datagram)], n)
  {
    hide Inv, RoundsKept, SeqOf, OffsetOf, Recorded, RecordOk, GatherUpTo, OutputOk;
    var d := ev.datagram;
    ArrivalIsRecorded(s, d, ev.env.recordTime);
    ReceiveEffect(s, d, ev.keep, ev.env, cfg.args);
    hide Receive;
    ReceiveKeepsRounds(s, DatagramKey(d), cfg.args, Recorded(s, d, ev.env.recordTime).value,
                       Step(cfg, s, ev).value, log, n);
  }

  lemma {:induction false} OthersKeepRounds(cfg: Config, s: System, ev: Event, log: seq<Key>, n: nat)
    requires RoundsKept(s, log, n) && |s.buffer| == BUFFER_SIZE
    requires Enabled(s, ev) && !ev.Deliver? && Step(cfg, s, ev).Some?
    ensures RoundsKept(Step(cfg, s, ev).value, log, n)
  {
    hide RoundsOf, Acks, IsFragmentation, Iterate, NumFragments;
    match ev
    case NewFrame(frame, packets, now) => AnnounceKeepsRounds(s, frame, packets, now, log, n);
    case _ =>
  }

  lemma {:induction false} RunKeepsRounds(cfg: Config, start: System, events: seq<Event>, n: nat)
    requires Initial(start) && cfg.args.sampleRate > 0 && n % cfg.args.sampleRate == 0
    requires Run(cfg, start, events).Some?
    ensures Inv(Run(cfg, start, events).value) && RoundsKept(Run(cfg, start, events).value, Log(events), n)
  {
    InitialInv(start);
    RunKeepsInv(cfg, start, events);
    if events == [] {
      assert RoundsKept(start, [], n);
    } else {
      var before, ev := events[..|events| - 1], events[|events| - 1];
      RunKeepsRounds(cfg, start, before, n);
      hide Step, Enabled, Inv, RoundsKept, Initial;
      var s := Run(cfg, start, before).value;
      EnabledHasHeader(s, ev);
      if ev.Deliver? {
        DeliverKeepsRounds(cfg, s, ev, Log(before), n);
      } else {
        OthersKeepRounds(cfg, s, ev, Log(before), n);
      }
    }
  }

  lemma EnabledHasHeader(s: System, ev: Event)
    requires Enabled(s, ev)
    ensures ev.Deliver? ==> |ev.datagram| >= APP_HEADER_LENGTH
  {
  }

  /** The receiver counts rounds: in every run, duplicated datagrams included, a sampled frame is acked and
      counted once for every stretch of deliveries that brought all its fragments, and its record holds
      exactly the fragments that came since the last of them. It is counted `m` times or more exactly when
      the deliveries can be cut into `m` stretches that each bring it whole. */
  lemma {:induction false} CountedPerRound(cfg: Config, start: System, events: seq<Event>, n: nat)
    requires Initial(start) && cfg.args.sampleRate > 0 && n % cfg.args.sampleRate == 0
    requires Run(cfg, start, events).Some?
    ensures var s, log := Run(cfg, start, events).value, Log(events);
            var size := FragmentsOf(s.frames, n);
            && Acks(s.acked, n) == RoundsOf(log, n, size).done
            && (if n in s.rx.records then s.rx.records[n].packets.Keys else {}) == RoundsOf(log, n, size).seen
            && (size > 0 ==> forall m: nat :: Acks(s.acked, n) >= m <==> Splits(log, n, size, m))
  {
    hide Run, Inv, RoundsOf, Splits, Acks, NumFragments;
    RunKeepsRounds(cfg, start, events, n);
    var s, log := Run(cfg, start, events).value, Log(events);
    var size := FragmentsOf(s.frames, n);
    if size > 0 {
      forall m: nat
        ensures RoundsOf(log, n, size).done >= m <==> Splits(log, n, size, m)
      {
        RoundsAreSplits(log, n, size, m);
      }
    }
  }

  // ---------------------------------------------------------------------------------------------
  // When a frame is counted once

  /** After a delivery of the whole frame, the whole frame is delivered again. */
  predicate ArrivesAgain(log: seq<Key>, n: nat, size: nat) {
    exists i :: 0 <= i <= |log| && WholeFrom(log[..i], 0, n, size) && WholeFrom(log, i, n, size)
  }

  lemma WholeFromEarlier(log: seq<Key>, i: nat, n: nat, size: nat)
    requires WholeFrom(log, i, n, size)
    ensures WholeFrom(log, 0, n, size)
  {
    forall o | 0 <= o < size
      ensures DeliveredFrom(log, 0, (n, o))
    {
      assert DeliveredFrom(log, i, (n, o));
    }
  }

  lemma {:induction false} AgainIsTwoStretches(log: seq<Key>, n: nat, size: nat)
    ensures ArrivesAgain(log, n, size) <==> Splits(log, n, size, 2)
  {
    hide WholeFrom;
    if Splits(log, n, size, 2) {
      var i :| 0 <= i <= |log| && WholeFrom(log, i, n, size) && Splits(log[..i], n, size, 1);
      var j :| 0 <= j <= i && WholeFrom(log[..i], j, n, size);
      WholeFromEarlier(log[..i], j, n, size);
    }
    if ArrivesAgain(log, n, size) {
      var i :| 0 <= i <= |log| && WholeFrom(log[..i], 0, n, size) && WholeFrom(log, i, n, size);
      assert Splits(log[..i][..0], n, size, 0);
      assert Splits(log[..i], n, size, 1);
    }
  }

  /** Acks of one frame are as many as there are positions with its number. */
  lemma {:induction false} TwoAcks(acked: seq<Output>, n: nat)
    ensures Acks(acked, n) >= 1 <==> exists i :: 0 <= i < |acked| && acked[i].seqNo == n
    ensures Acks(acked, n) >= 2 <==> exists i, j :: 0 <= i < j < |acked| && acked[i].seqNo == acked[j].seqNo == n
  {
    if acked != [] {
      var front, last := acked[..|acked| - 1], |acked| - 1;
      TwoAcks(front, n);
      assert forall i :: 0 <= i < last ==> front[i] == acked[i];
      if Acks(front, n) >= 1 {
        var i :| 0 <= i < last && front[i].seqNo == n;
        assert acked[i].seqNo == n;
      }
      if Acks(front, n) >= 2 {
        var i, j :| 0 <= i < j < last && front[i].seqNo == front[j].seqNo == n;
        assert acked[i].seqNo == acked[j].seqNo == n;
      }
    }
  }

  /** What the counters of the receiver say about its acks and about the deliveries. */
  ghost predicate Tally(s: System, log: seq<Key>, rate: nat)
    requires rate > 0
  {
    && s.rx.recevied == |s.acked|
    && s.rx.lastSeq == Newest(log) <= |s.frames|
    && (forall i :: 0 <= i < |s.acked| ==> s.acked[i].seqNo % rate == 0 && s.acked[i].seqNo <= s.rx.lastSeq)
  }

  /** The newest sequence number delivered. */
  function Newest(log: seq<Key>): nat {
    if log == [] then 0
    else
      var before, n := Newest(log[..|log| - 1]), log[|log| - 1].0;
      if n > before then n else before
  }

  lemma {:induction false} ReceiveKeepsTally(s: System, k: Key, args: Args, r: Rec, s': System, log: seq<Key>)
    requires args.sampleRate > 0 && Tally(s, log, args.sampleRate) && Received(s, k.0, k.1, args, r, s')
    requires k.0 <= |s.frames|
    ensures Tally(s', log + [k], args.sampleRate)
  {
    hide GatherUpTo;
    assert (log + [k])[..|log|] == log;
  }

  lemma {:induction false} StepKeepsTally(cfg: Config, s: System, ev: Event, log: seq<Key>)
    requires Inv(s) && |s.buffer| == BUFFER_SIZE && cfg.args.sampleRate > 0 && Tally(s, log, cfg.args.sampleRate)
    requires Enabled(s, ev) && Step(cfg, s, ev).Some?
    ensures ev.Deliver? ==> |ev.datagram| >= APP_HEADER_LENGTH
    ensures Tally(Step(cfg, s, ev).value, if ev.Deliver? then log + [DatagramKey(ev.datagram)] else log,
                  cfg.args.sampleRate)
  {
    hide Inv, SeqOf, OffsetOf, Recorded, RecordOk, Received, IsFragmentation, Iterate, AfterPrepare, Newest;
    if ev.Deliver? {
      var d := ev.datagram;
      ReceiveEffect(s, d, ev.keep, ev.env, cfg.args);
      InFlightIsAccounted(s, d);
      hide Receive, Tally;
      ReceiveKeepsTally(s, DatagramKey(d), cfg.args, Recorded(s, d, ev.env.recordTime).value,
                        Step(cfg, s, ev).value, log);
    } else {
      hide Receive;
    }
  }

  lemma {:induction false} RunKeepsTally(cfg: Config, start: System, events: seq<Event>)
    requires Initial(start) && cfg.args.sampleRate > 0 && Run(cfg, start, events).Some?
    ensures Inv(Run(cfg, start, events).value)
    ensures Tally(Run(cfg, start, events).value, Log(events), cfg.args.sampleRate)
  {
    InitialInv(start);
    RunKeepsInv(cfg, start, events);
    if events != [] {
      var before, ev := events[..|events| - 1], events[|events| - 1];
      RunKeepsTally(cfg, start, before);
      hide Step, Enabled, Inv, Tally, Initial;
      var s := Run(cfg, start, before).value;
      InitialInv(start);
      RunKeepsInv(cfg, start, before);
      StepKeepsTally(cfg, s, ev, Log(before));
    }
  }

  /** Single counting, exactly: in every run, all acks are of different frames if and only if no sampled
      frame is delivered whole again after having been delivered whole. */
  lemma {:induction false} CountedOnceIff(cfg: Config, start: System, events: seq<Event>)
    requires Initial(start) && cfg.args.sampleRate > 0 && Run(cfg, start, events).Some?
    ensures var s, log := Run(cfg, start, events).value, Log(events);
            (forall i, j :: 0 <= i < j < |s.acked| ==> s.acked[i].seqNo != s.acked[j].seqNo)
            <==> forall n :: 1 <= n <= |s.frames| && n % cfg.args.sampleRate == 0 && FragmentsOf(s.frames, n) > 0 ==>
                   !ArrivesAgain(log, n, FragmentsOf(s.frames, n))
  {
    hide Run, RoundsOf, Splits, ArrivesAgain, Acks, NumFragments, Log;
    RunKeepsTally(cfg, start, events);
    var s, log := Run(cfg, start, events).value, Log(events);
    forall n: nat | 1 <= n <= |s.frames| && n % cfg.args.sampleRate == 0 && FragmentsOf(s.frames, n) > 0
      ensures ArrivesAgain(log, n, FragmentsOf(s.frames, n)) <==> Acks(s.acked, n) >= 2
    {
      CountedPerRound(cfg, start, events, n);
      AgainIsTwoStretches(log, n, FragmentsOf(s.frames, n));
    }
    hide Inv;
    forall n: nat
      ensures Acks(s.acked, n) >= 2 <==>
              exists i, j :: 0 <= i < j < |s.acked| && s.acked[i].seqNo == s.acked[j].seqNo == n
    {
      TwoAcks(s.acked, n);
    }
    forall i | 0 <= i < |s.acked|
      ensures var n := s.acked[i].seqNo; 1 <= n <= |s.frames| && FragmentsOf(s.frames, n) > 0
    {
      AckedNamesFrame(s, i);
    }
  }

  lemma AckedNamesFrame(s: System, i: nat)
    requires Inv(s) && i < |s.acked|
    ensures 1 <= s.acked[i].seqNo <= |s.frames| && FragmentsOf(s.frames, s.acked[i].seqNo) > 0
  {
    hide QueuedOk, DatagramOk, RecordOk, NumFragments;
    assert OutputOk(s.frames, s.accepted, s.acked[i]);
  }

  // ---------------------------------------------------------------------------------------------
  // When a frame is counted at all

  /** The log and the set of what was delivered agree. */
  lemma {:induction false} LogIsDelivered(cfg: Config, start: System, events: seq<Event>, k: Key)
    requires Initial(start) && Run(cfg, start, events).Some?
    ensures DeliveredFrom(Log(events), 0, k) <==> k in Run(cfg, start, events).value.delivered
  {
    hide DeliveredFrom, SeqOf, OffsetOf, Step, Enabled;
    if events == [] {
      NothingInEmpty(k);
      StartsEmpty(start);
    } else {
      var before, ev := events[..|events| - 1], events[|events| - 1];
      LogIsDelivered(cfg, start, before, k);
      StepNotes(cfg, Run(cfg, start, before).value, ev);
      if ev.Deliver? {
        DeliveredSnoc(Log(events), 0, k);
        assert Log(events)[..|Log(before)|] == Log(before);
      }
    }
  }

  lemma StartsEmpty(s: System)
    requires Initial(s)
    ensures s.delivered == {} && s.frames == [] && s.accepted == []
  {
  }

  lemma NothingInEmpty(k: Key)
    ensures !DeliveredFrom([], 0, k)
  {
  }

  /** Delivery is acked exactly: in every run a sampled frame has been acked if and only if it has fragments
      and all of them have been delivered. */
  lemma {:induction false} AckedIffDelivered(cfg: Config, start: System, events: seq<Event>, n: nat)
    requires Initial(start) && cfg.args.sampleRate > 0 && Run(cfg, start, events).Some?
    requires 1 <= n <= |Run(cfg, start, events).value.frames| && n % cfg.args.sampleRate == 0
    ensures var s := Run(cfg, start, events).value;
            var size := NumFragments(|s.frames[n - 1]|);
            n in AckedSeqs(s.acked) <==> size > 0 && forall o :: 0 <= o < size ==> (n, o) in s.delivered
  {
    hide Run, RoundsOf, Splits, Acks, Log, DeliveredFrom, NumFragments, Inv, AckedSeqs, WholeFrom;
    var s, log := Run(cfg, start, events).value, Log(events);
    var size := FragmentsOf(s.frames, n);
    CountedPerRound(cfg, start, events, n);
    OneStretch(log, n, size);
    AckedHasAcks(s.acked, n);
    WholeIsDelivered(cfg, start, events, n, size);
    InitialInv(start);
    RunKeepsInv(cfg, start, events);
    if n in AckedSeqs(s.acked) {
      AckedHasFragments(s, n);
    }
  }

  lemma AckedHasAcks(acked: seq<Output>, n: nat)
    ensures n in AckedSeqs(acked) <==> Acks(acked, n) >= 1
  {
    TwoAcks(acked, n);
    hide Acks;
  }

  lemma WholeIsDelivered(cfg: Config, start: System, events: seq<Event>, n: nat, size: nat)
    requires Initial(start) && Run(cfg, start, events).Some?
    ensures WholeFrom(Log(events), 0, n, size)
            <==> forall o :: 0 <= o < size ==> (n, o) in Run(cfg, start, events).value.delivered
  {
    hide Run, Log, DeliveredFrom;
    forall o: nat
      ensures DeliveredFrom(Log(events), 0, (n, o)) <==> (n, o) in Run(cfg, start, events).value.delivered
    {
      LogIsDelivered(cfg, start, events, (n, o));
    }
  }

  lemma {:induction false} OneStretch(log: seq<Key>, n: nat, size: nat)
    ensures Splits(log, n, size, 1) <==> WholeFrom(log, 0, n, size)
  {
    hide WholeFrom;
    if Splits(log, n, size, 1) {
      var i :| 0 <= i <= |log| && WholeFrom(log, i, n, size) && Splits(log[..i], n, size, 0);
      WholeFromEarlier(log, i, n, size);
    }
    if WholeFrom(log, 0, n, size) {
      assert Splits(log[..0], n, size, 0);
    }
  }

  // ---------------------------------------------------------------------------------------------
  // The loss count

  /** The rounds of all sampled frames up to number `n`. */
  function RoundsUpTo(log: seq<Key>, frames: seq<Frame>, rate: nat, n: nat): nat
    requires rate > 0
  {
    if n == 0 then 0
    else
      RoundsUpTo(log, frames, rate, n - 1)
      + if n % rate == 0 then RoundsOf(log, n, FragmentsOf(frames, n)).done else 0
  }

  function AcksUpTo(acked: seq<Output>, n: nat): nat {
    if n == 0 then 0 else AcksUpTo(acked, n - 1) + Acks(acked, n)
  }

  lemma {:induction false} AcksUpToSnoc(acked: seq<Output>, out: Output, n: nat)
    ensures AcksUpTo(acked + [out], n) == AcksUpTo(acked, n) + if 1 <= out.seqNo <= n then 1 else 0
  {
    if n > 0 {
      AcksUpToSnoc(acked, out, n - 1);
      AcksSnoc(acked, out, n);
    }
  }

  lemma {:induction false} AllAcksAreUpTo(acked: seq<Output>, n: nat)
    requires forall i :: 0 <= i < |acked| ==> 1 <= acked[i].seqNo <= n
    ensures AcksUpTo(acked, n) == |acked|
  {
    if acked == [] {
      NoAcks(n);
    } else {
      var front, last := acked[..|acked| - 1], acked[|acked| - 1];
      AllAcksAreUpTo(front, n);
      AcksUpToSnoc(front, last, n);
      assert front + [last] == acked;
    }
  }

  lemma {:induction false} NoAcks(n: nat)
    ensures AcksUpTo([], n) == 0
  {
    if n > 0 {
      NoAcks(n - 1);
    }
  }

  lemma {:induction false} AcksAreRounds(cfg: Config, start: System, events: seq<Event>, n: nat)
    requires Initial(start) && cfg.args.sampleRate > 0 && Run(cfg, start, events).Some?
    ensures var s := Run(cfg, start, events).value;
            AcksUpTo(s.acked, n) == RoundsUpTo(Log(events), s.frames, cfg.args.sampleRate, n)
  {
    hide Run, Inv, RoundsOf, Acks, NumFragments, Log;
    var s := Run(cfg, start, events).value;
    if n > 0 {
      AcksAreRounds(cfg, start, events, n - 1);
      if n % cfg.args.sampleRate == 0 {
        RunKeepsRounds(cfg, start, events, n);
      } else {
        RunKeepsTally(cfg, start, events);
        TwoAcks(s.acked, n);
      }
    }
  }

  /** The loss count is exact: the frames counted as received are the rounds of all sampled frames, and
      the last sequence number is the newest one delivered, so `last_seq - recevied` underflows exactly
      when there were more rounds than numbers. */
  lemma {:induction false} ReceivedAreRounds(cfg: Config, start: System, events: seq<Event>)
    requires Initial(start) && cfg.args.sampleRate > 0 && Run(cfg, start, events).Some?
    ensures var s, log := Run(cfg, start, events).value, Log(events);
            && s.rx.recevied == |s.acked| == RoundsUpTo(log, s.frames, cfg.args.sampleRate, |s.frames|)
            && s.rx.lastSeq == Newest(log) <= |s.frames|
  {
    hide Run, Log, Acks, RoundsUpTo, FragmentsOf;
    RunKeepsTally(cfg, start, events);
    var s := Run(cfg, start, events).value;
    AcksAreRounds(cfg, start, events, |s.frames|);
    hide Inv;
    forall i | 0 <= i < |s.acked|
      ensures 1 <= s.acked[i].seqNo <= |s.frames|
    {
      AckedNamesFrame(s, i);
    }
    AllAcksAreUpTo(s.acked, |s.frames|);
  }

  lemma {:induction false} DistinctAcks(acked: seq<Output>)
    requires forall i, j :: 0 <= i < j < |acked| ==> acked[i].seqNo != acked[j].seqNo
    ensures |AckedSeqs(acked)| == |acked|
  {
    if acked == [] {
      assert AckedSeqs(acked) == {};
    } else {
      var front, last := acked[..|acked| - 1], acked[|acked| - 1];
      DistinctAcks(front);
      AckedSnoc(front, last);
      assert front + [last] == acked;
      assert last.seqNo !in AckedSeqs(front);
    }
  }

  /** So it does not underflow, whatever else is duplicated, as long as no sampled frame is delivered whole
      a second time. */
  lemma {:induction false} NoUnderflowUnlessAgain(cfg: Config, start: System, events: seq<Event>)
    requires Initial(start) && cfg.args.sampleRate > 0 && Run(cfg, start, events).Some?
    requires var s := Run(cfg, start, events).value;
             forall n :: 1 <= n <= |s.frames| && n % cfg.args.sampleRate == 0 && FragmentsOf(s.frames, n) > 0 ==>
                           !ArrivesAgain(Log(events), n, FragmentsOf(s.frames, n))
    ensures var s := Run(cfg, start, events).value;
            s.rx.recevied <= Times(s.rx.recevied, cfg.args.sampleRate) <= s.rx.lastSeq
  {
    hide Run, ArrivesAgain, Log, SampledUpTo, Times, AckedSeqs, FragmentsOf;
    var s, rate := Run(cfg, start, events).value, cfg.args.sampleRate;
    CountedOnceIff(cfg, start, events);
    DistinctAcks(s.acked);
    RunKeepsTally(cfg, start, events);
    hide Inv;
    AcksAreSampled(s, Log(events), rate);
    SampledUpToSize(s.rx.lastSeq, rate);
    SubsetSize(AckedSeqs(s.acked), SampledUpTo(s.rx.lastSeq, rate));
    TimesMonotone(s.rx.recevied, |SampledUpTo(s.rx.lastSeq, rate)|, rate);
  }

  lemma AcksAreSampled(s: System, log: seq<Key>, rate: nat)
    requires rate > 0 && Tally(s, log, rate) && Inv(s)
    ensures AckedSeqs(s.acked) <= SampledUpTo(s.rx.lastSeq, rate)
  {
    hide SampledUpTo, Newest, FragmentsOf, Inv;
    forall n | n in AckedSeqs(s.acked)
      ensures n in SampledUpTo(s.rx.lastSeq, rate)
    {
      var i :| 0 <= i < |s.acked| && s.acked[i].seqNo == n;
      AckedNamesFrame(s, i);
    }
  }
}
