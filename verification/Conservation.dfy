/** Conservation: on a network that does not lose, every fragment the queue accepted stays somewhere, and
    once queue and network are empty a frame was acked exactly if the queue accepted all of it. */
module Conservation {
  import opened Packets
  import opened Source
  import opened Throttle
  import opened Destination
  import opened EndToEnd
  import opened Counting
  import opened Rounds

  predicate NoLoss(events: seq<Event>) {
    forall i :: 0 <= i < |events| ==> !events[i].Lose?
  }

  predicate InQueue(q: seq<PacketWithMeta>, k: Key) {
    exists i :: 0 <= i < |q| && PacketKey(q[i]) == k
  }

  ghost predicate InFlight(net: multiset<seq<byte>>, k: Key) {
    exists d :: d in net && |d| >= APP_HEADER_LENGTH && DatagramKey(d) == k
  }

  /** The fragment waits in the queue, is on the network or has been delivered. */
  ghost predicate Somewhere(s: System, k: Key) {
    InQueue(s.sender.thr.buffer, k) || InFlight(s.net, k) || k in s.delivered
  }

  /** Every accepted fragment is somewhere. */
  ghost predicate Conserved(s: System) {
    forall n: nat, o: nat :: Accounts(s.frames, s.accepted, n, o) ==> Somewhere(s, (n, o))
  }

  lemma QueueAppend(q: seq<PacketWithMeta>, more: seq<PacketWithMeta>, k: Key)
    requires InQueue(q, k) || InQueue(more, k)
    ensures InQueue(q + more, k)
  {
    if InQueue(q, k) {
      var i :| 0 <= i < |q| && PacketKey(q[i]) == k;
      assert (q + more)[i] == q[i];
    } else {
      var i :| 0 <= i < |more| && PacketKey(more[i]) == k;
      assert (q + more)[|q| + i] == more[i];
    }
  }

  lemma {:induction false} AnnounceConserves(s: System, frame: Frame, packets: seq<PacketWithMeta>, now: nat)
    requires Inv(s) && Conserved(s) && Enabled(s, NewFrame(frame, packets, now))
    ensures Conserved(Announce(s, frame, packets, now))
  {
    hide QueuedOk, DatagramOk, RecordOk, OutputOk, PacketCount, InQueue, InFlight;
    var k, s' := Accepted(s.sender.thr, |packets|), Announce(s, frame, packets, now);
    PrepareAppends(s.sender.thr, packets, now);
    hide AfterPrepare;
    forall n: nat, o: nat | Accounts(s'.frames, s'.accepted, n, o)
      ensures Somewhere(s', (n, o))
    {
      if n <= |s.frames| {
        assert Accounts(s.frames, s.accepted, n, o);
        assert Somewhere(s, (n, o));
        if InQueue(s.sender.thr.buffer, (n, o)) {
          QueueAppend(s.sender.thr.buffer, packets[..k], (n, o));
        }
      } else {
        NewIsQueued(frame, n, packets, k, o);
        QueueAppend(s.sender.thr.buffer, packets[..k], (n, o));
      }
    }
  }

  lemma NewIsQueued(frame: Frame, n: nat, packets: seq<PacketWithMeta>, k: nat, o: nat)
    requires IsFragmentation(frame, n, packets) && o < k <= |packets|
    ensures InQueue(packets[..k], (n, o))
  {
    assert IsFragment(frame, n, o, packets[..k][o]);
  }

  /** Moving the head of the queue to the network. */
  lemma HeadStaysSomewhere(q: seq<PacketWithMeta>, net: multiset<seq<byte>>, d: seq<byte>, k: Key)
    requires q != [] && |d| >= APP_HEADER_LENGTH && DatagramKey(d) == PacketKey(q[0])
    requires InQueue(q, k) || InFlight(net, k)
    ensures InQueue(q[1..], k) || InFlight(net + multiset{d}, k)
  {
    hide SeqOf, OffsetOf;
    if InFlight(net, k) {
      var e :| e in net && |e| >= APP_HEADER_LENGTH && DatagramKey(e) == k;
      assert e in net + multiset{d};
    } else {
      var i :| 0 <= i < |q| && PacketKey(q[i]) == k;
      if i > 0 {
        assert q[1..][i - 1] == q[i];
      } else {
        assert d in net + multiset{d};
      }
    }
  }

  lemma {:induction false} AttemptConserves(s: System, tick: Tick, links: nat)
    requires Inv(s) && Conserved(s) && TrySend(s, tick, links).Some?
    ensures Conserved(TrySend(s, tick, links).value)
  {
    hide Iterate, AfterTryConsume, QueuedOk, DatagramOk, RecordOk, OutputOk, PacketCount, SeqOf, OffsetOf;
    hide InQueue, InFlight;
    IterateIsTryConsume(s.sender, tick, links);
    var i, s' := Iterate(s.sender, tick, links).value, TrySend(s, tick, links).value;
    if i.wire.Some? {
      var head := s.sender.thr.buffer[0];
      var t :| IsDatagramOf(i.wire.value, head, t);
      StampedIsOk(s.frames, s.accepted, head, t, i.wire.value);
      assert |i.wire.value| >= APP_HEADER_LENGTH;
      forall n: nat, o: nat | Accounts(s'.frames, s'.accepted, n, o)
        ensures Somewhere(s', (n, o))
      {
        assert Somewhere(s, (n, o));
        if (n, o) !in s.delivered {
          HeadStaysSomewhere(s.sender.thr.buffer, s.net, i.wire.value, (n, o));
        }
      }
    } else {
      assert s.net + multiset{} == s.net;
      assert forall n: nat, o: nat :: Somewhere(s, (n, o)) ==> Somewhere(s', (n, o));
    }
  }

  lemma {:induction false} DeliveryConserves(s: System, d: seq<byte>, keep: bool, env: Env, args: Args)
    requires Conserved(s) && |s.buffer| == BUFFER_SIZE && |d| >= APP_HEADER_LENGTH
    requires Receive(s, d, keep, env, args).Some?
    ensures Conserved(Receive(s, d, keep, env, args).value)
  {
    hide AfterHandleRtt, Overlay, SeqOf, OffsetOf, InQueue;
    var s' := Receive(s, d, keep, env, args).value;
    forall n: nat, o: nat | Accounts(s'.frames, s'.accepted, n, o)
      ensures Somewhere(s', (n, o))
    {
      assert Somewhere(s, (n, o));
      if InFlight(s.net, (n, o)) && (n, o) != DatagramKey(d) {
        var e :| e in s.net && |e| >= APP_HEADER_LENGTH && DatagramKey(e) == (n, o);
        assert e in s'.net;
      }
    }
  }

  lemma {:induction false} StepConserves(cfg: Config, s: System, ev: Event)
    requires Inv(s) && Conserved(s) && Enabled(s, ev) && !ev.Lose?
    requires |s.buffer| == BUFFER_SIZE && Step(cfg, s, ev).Some?
    ensures Conserved(Step(cfg, s, ev).value)
  {
    hide Inv, InQueue, InFlight, IsFragmentation, Receive, TrySend, Announce;
    match ev
    case NewFrame(frame, packets, now) => AnnounceConserves(s, frame, packets, now);
    case Attempt(tick) => AttemptConserves(s, tick, cfg.links);
    case Deliver(d, keep, env) => DeliveryConserves(s, d, keep, env, cfg.args);
    case ChangeThrottle(_) => SameIsConserved(s, Step(cfg, s, ev).value);
    case ChangeParameters(_) => SameIsConserved(s, Step(cfg, s, ev).value);
  }

  lemma SameIsConserved(s: System, s': System)
    requires Conserved(s) && s'.sender.thr.buffer == s.sender.thr.buffer && s'.net == s.net
    requires s'.delivered == s.delivered && s'.frames == s.frames && s'.accepted == s.accepted
    ensures Conserved(s')
  {
    hide InQueue, InFlight;
    assert forall k: Key :: Somewhere(s, k) ==> Somewhere(s', k);
  }

  /** Nothing vanishes: in every run on a network that reorders and duplicates but does not lose, every
      fragment the queue accepted waits in the queue, is on the network or has been delivered. */
  lemma {:induction false} NothingVanishes(cfg: Config, start: System, events: seq<Event>)
    requires Initial(start) && cfg.args.sampleRate > 0 && NoLoss(events)
    requires Run(cfg, start, events).Some?
    ensures var s := Run(cfg, start, events).value;
            forall n: nat, o: nat :: Accounts(s.frames, s.accepted, n, o) ==> Somewhere(s, (n, o))
  {
    if events != [] {
      var before, ev := events[..|events| - 1], events[|events| - 1];
      NothingVanishes(cfg, start, before);
      InitialInv(start);
      RunKeepsInv(cfg, start, before);
      hide Step, Enabled, Inv, Somewhere, Accounts, Initial;
      StepConserves(cfg, Run(cfg, start, before).value, ev);
    }
  }

  /** Complete delivery: once queue and network are empty after such a run, a sampled frame has been acked
      if and only if it has fragments and the queue accepted all of them. */
  lemma {:induction false} AckedIffAccepted(cfg: Config, start: System, events: seq<Event>, n: nat)
    requires Initial(start) && cfg.args.sampleRate > 0 && NoLoss(events)
    requires Run(cfg, start, events).Some?
    requires var s := Run(cfg, start, events).value;
             && s.sender.thr.buffer == [] && s.net == multiset{}
             && 1 <= n <= |s.frames| == |s.accepted| && n % cfg.args.sampleRate == 0
    ensures var s := Run(cfg, start, events).value;
            n in AckedSeqs(s.acked) <==> 0 < NumFragments(|s.frames[n - 1]|) == s.accepted[n - 1]
  {
    NothingVanishes(cfg, start, events);
    AckedIffDelivered(cfg, start, events, n);
    AllDeliveredWereAccepted(cfg, start, events);
    InitialInv(start);
    RunKeepsInv(cfg, start, events);
    hide Run, Initial, Inv, AckedSeqs, NumFragments, Accounts, Somewhere, NoLoss;
    DrainedIsDelivered(Run(cfg, start, events).value, n);
  }

  lemma DrainedIsDelivered(s: System, n: nat)
    requires Inv(s) && Conserved(s) && s.sender.thr.buffer == [] && s.net == multiset{}
    requires forall k :: k in s.delivered ==> Accounts(s.frames, s.accepted, k.0, k.1)
    requires 1 <= n <= |s.frames| == |s.accepted|
    ensures var size := NumFragments(|s.frames[n - 1]|);
            (forall o :: 0 <= o < size ==> (n, o) in s.delivered) <==> size == s.accepted[n - 1]
  {
    hide QueuedOk, DatagramOk, RecordOk, OutputOk, NumFragments;
    var size := NumFragments(|s.frames[n - 1]|);
    forall o: nat | o < s.accepted[n - 1]
      ensures (n, o) in s.delivered
    {
      assert Somewhere(s, (n, o));
    }
    if size > s.accepted[n - 1] {
      assert (n, s.accepted[n - 1]) !in s.delivered;
    }
  }

  /** What was delivered had been accepted. */
  lemma {:induction false} AllDeliveredWereAccepted(cfg: Config, start: System, events: seq<Event>)
    requires Initial(start) && cfg.args.sampleRate > 0 && Run(cfg, start, events).Some?
    ensures var s := Run(cfg, start, events).value;
            forall k :: k in s.delivered ==> Accounts(s.frames, s.accepted, k.0, k.1)
  {
    if events != [] {
      var before, ev := events[..|events| - 1], events[|events| - 1];
      AllDeliveredWereAccepted(cfg, start, before);
      InitialInv(start);
      RunKeepsInv(cfg, start, before);
      var s := Run(cfg, start, before).value;
      hide Inv, Step, Enabled, SeqOf, OffsetOf, Initial, Accounts;
      StepNotes(cfg, s, ev);
      if ev.Deliver? {
        EnabledIsInFlight(s, ev);
        InFlightIsAccounted(s, ev.datagram);
      }
      var s' := Run(cfg, start, events).value;
      hide Run;
      StillAccepted(s, s', s'.delivered);
    } else {
      StartsEmpty(start);
    }
  }

  lemma StillAccepted(s: System, s': System, keys: set<Key>)
    requires s.frames <= s'.frames && s.accepted <= s'.accepted
    ensures forall k :: k in keys && Accounts(s.frames, s.accepted, k.0, k.1) ==>
                          Accounts(s'.frames, s'.accepted, k.0, k.1)
  {
  }

  lemma EnabledIsInFlight(s: System, ev: Event)
    requires Enabled(s, ev) && ev.Deliver?
    ensures ev.datagram in s.net
  {
  }
}
