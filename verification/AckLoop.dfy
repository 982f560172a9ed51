/** AckLoop: the whole loop from a frame's arrival over its acks back to the sender's ring. */
module AckLoop {
  import opened Wrappers
  import opened Packets
  import opened Source
  import opened Destination
  import E = EndToEnd
  import C = Counting
  import D = Rounds
  import Q = RttRecords
  import R = RttRuns

  /** The system, the acks on their way back and the sender's ring. */
  datatype Loop = Loop(sys: E.System, acks: multiset<nat>, ring: R.State)

  /** A frame's arrival is registered in the step that queues it, before anything of it is sent. With `keep`
      the network duplicates an ack on its way back. */
  datatype Event =
    | Forward(ev: E.Event, now: real)
    | Pong(seqNo: nat, time: real, delta: real, keep: bool)
    | LoseAck(seqNo: nat)
    | Statistic(now: real)

  datatype Outcome = Fine(loop: Loop) | NotEnabled | SendPanic | RingPanic

  function StepRing(l: Loop, op: R.Op): Outcome
    requires |l.ring.slots| > 0
  {
    match R.Step(l.ring, op)
    case None => RingPanic
    case Some(ring) => Fine(l.(ring := ring))
  }

  function Step(cfg: E.Config, l: Loop, ev: Event): Outcome
    requires |l.sys.buffer| == BUFFER_SIZE && |l.ring.slots| > 0
  {
    match ev
    case Forward(e, now) =>
      if !E.Enabled(l.sys, e) then NotEnabled
      else
        (match E.Step(cfg, l.sys, e)
         case None => SendPanic
         case Some(sys) =>
           var news := if |l.sys.acked| < |sys.acked| then multiset{sys.acked[|l.sys.acked|].seqNo} else multiset{};
           var l1 := l.(sys := sys, acks := l.acks + news);
           if e.NewFrame? then StepRing(l1, R.Arrive(now)) else Fine(l1))
    case Pong(n, time, delta, keep) =>
      if n !in l.acks then NotEnabled
      else StepRing(if keep then l else l.(acks := l.acks - multiset{n}), R.Ack(n, time, delta))
    case LoseAck(n) =>
      if n !in l.acks then NotEnabled else Fine(l.(acks := l.acks - multiset{n}))
    case Statistic(now) => StepRing(l, R.Statistic(now))
  }

  function Run(cfg: E.Config, start: Loop, events: seq<Event>): (r: Outcome)
    requires |start.sys.buffer| == BUFFER_SIZE && |start.ring.slots| > 0
    ensures r.Fine? ==> |r.loop.sys.buffer| == BUFFER_SIZE && |r.loop.ring.slots| > 0
  {
    if events == [] then Fine(start)
    else
      match Run(cfg, start, events[..|events| - 1])
      case Fine(l) => Step(cfg, l, events[|events| - 1])
      case other => other
  }

  /** What an event means to the ring, and to the system. */
  function RingOps(ev: Event): seq<R.Op> {
    match ev
    case Forward(e, now) => if e.NewFrame? then [R.Arrive(now)] else []
    case Pong(n, time, delta, _) => [R.Ack(n, time, delta)]
    case LoseAck(_) => []
    case Statistic(now) => [R.Statistic(now)]
  }

  function SystemEvents(ev: Event): seq<E.Event> {
    match ev
    case Forward(e, _) => [e]
    case _ => []
  }

  /** The operations on the ring, and the steps of the system, in a run of the loop. */
  function AllRingOps(events: seq<Event>): seq<R.Op> {
    if events == [] then [] else AllRingOps(events[..|events| - 1]) + RingOps(events[|events| - 1])
  }

  function AllSystemEvents(events: seq<Event>): seq<E.Event> {
    if events == [] then [] else AllSystemEvents(events[..|events| - 1]) + SystemEvents(events[|events| - 1])
  }

  /** The acks for frame `n` that came back and left the network. */
  function Taken(events: seq<Event>, n: nat): nat {
    if events == [] then 0
    else
      var ev := events[|events| - 1];
      Taken(events[..|events| - 1], n) + if ev.Pong? && ev.seqNo == n && !ev.keep then 1 else 0
  }

  /** An ack for frame `n` was duplicated on its way back. */
  predicate AckKept(events: seq<Event>, n: nat) {
    exists i :: 0 <= i < |events| && events[i].Pong? && events[i].seqNo == n && events[i].keep
  }

  lemma Snoc(events: seq<Event>, ev: Event)
    ensures AllRingOps(events + [ev]) == AllRingOps(events) + RingOps(ev)
    ensures AllSystemEvents(events + [ev]) == AllSystemEvents(events) + SystemEvents(ev)
    ensures forall n: nat :: Taken(events + [ev], n)
                             == Taken(events, n) + if ev.Pong? && ev.seqNo == n && !ev.keep then 1 else 0
  {
    assert (events + [ev])[..|events|] == events;
  }

  /** An ack the ring saw, and that was not duplicated, was taken off the network. */
  lemma {:induction false} AcksAreTaken(events: seq<Event>, n: nat)
    requires R.Acks(AllRingOps(events), n) && !AckKept(events, n)
    ensures Taken(events, n) >= 1
  {
    assert events != [];
    var before, ev := events[..|events| - 1], events[|events| - 1];
    var ops := AllRingOps(before);
    assert !AckKept(before, n) by {
      assert forall i :: 0 <= i < |before| ==> before[i] == events[i];
    }
    if R.Acks(ops, n) {
      AcksAreTaken(before, n);
    } else {
      var i :| 0 <= i < |AllRingOps(events)| && AllRingOps(events)[i].Ack? && AllRingOps(events)[i].seqNo == n;
      if i < |ops| {
        assert ops[i].Ack? && ops[i].seqNo == n;
      }
      assert ev.Pong? && ev.seqNo == n;
    }
  }

  /** The ring went through its operations, which registered every frame. */
  ghost predicate RingInv(l: Loop, target: real, ops: seq<R.Op>) {
    && |l.ring.slots| > 0 && target >= 0.0
    && R.Run(R.Start(|l.ring.slots|, target), ops) == Some(l.ring)
    && R.Issued(ops) == |l.sys.frames|
  }

  /** The acks taken and those on their way are no more than the receiver sent. */
  ghost predicate AcksInv(l: Loop, events: seq<Event>) {
    forall n: nat :: l.acks[n] + Taken(events, n) <= D.Acks(l.sys.acked, n)
  }

  /** The system went through its part of the events, and the ring through its own. */
  ghost predicate LoopInv(cfg: E.Config, sys: E.System, l: Loop, target: real, events: seq<Event>)
    requires |sys.buffer| == BUFFER_SIZE
  {
    && E.Run(cfg, sys, AllSystemEvents(events)) == Some(l.sys)
    && RingInv(l, target, AllRingOps(events)) && AcksInv(l, events)
  }

  lemma RingStep(l: Loop, target: real, ops: seq<R.Op>, op: R.Op)
    requires RingInv(l, target, ops) && R.Step(l.ring, op).Some?
    ensures var ring := R.Step(l.ring, op).value;
            && |ring.slots| == |l.ring.slots|
            && R.Run(R.Start(|ring.slots|, target), ops + [op]) == Some(ring)
            && R.Issued(ops + [op]) == |l.sys.frames| + if op.Arrive? then 1 else 0
  {
    assert (ops + [op])[..|ops|] == ops && (ops + [op])[|ops|] == op;
    hide R.ChargeAll, R.Dropped, R.Acks;
    StepKeepsLength(l.ring, op);
    hide R.Step;
  }

  lemma StepKeepsLength(ring: R.State, op: R.Op)
    requires |ring.slots| > 0 && R.Step(ring, op).Some?
    ensures |R.Step(ring, op).value.slots| == |ring.slots|
  {
  }

  /** An ack is late when a ring length of newer frames has been issued. */
  predicate Late(l: Loop, n: nat) {
    n + |l.ring.slots| <= |l.sys.frames|
  }

  /** The ring panics exactly on an ack that is late or whose frame was acked to it before a call of
      `statistic`; and without a duplicated ack the receiver then acked that frame twice. */
  lemma {:induction false} PanicIff(cfg: E.Config, sys: E.System, l: Loop, target: real, events: seq<Event>,
                                    n: nat, time: real, delta: real)
    requires E.Initial(sys) && cfg.args.sampleRate > 0 && LoopInv(cfg, sys, l, target, events)
    requires R.WellTimed(AllRingOps(events)) && n in l.acks
    ensures 1 <= n <= |l.sys.frames| && D.FragmentsOf(l.sys.frames, n) > 0 && n % cfg.args.sampleRate == 0
    ensures R.Step(l.ring, R.Ack(n, time, delta)).None? <==> Late(l, n) || R.CalledSince(AllRingOps(events), n)
    ensures R.CalledSince(AllRingOps(events), n) && !AckKept(events, n) ==> D.Acks(l.sys.acked, n) >= 2
  {
    hide E.Run, R.Run, R.WellTimed, R.Settled, Q.AfterUpdate, AllRingOps, AllSystemEvents, Taken, AckKept;
    hide D.Acks, R.CalledSince;
    var ops := AllRingOps(events);
    assert l.acks[n] + Taken(events, n) <= D.Acks(l.sys.acked, n);
    AckIsOfAFrame(cfg, sys, l, AllSystemEvents(events), n);
    R.RunIsSound(|l.ring.slots|, target, ops);
    R.RunFollows(|l.ring.slots|, target, ops);
    R.UpdateFindsRecent(l.ring, n, time, delta);
    if !Late(l, n) {
      R.CollectedIff(|l.ring.slots|, target, ops, n);
    }
    if R.CalledSince(ops, n) && !AckKept(events, n) {
      R.CalledSinceAcked(ops, n);
      AcksAreTaken(events, n);
    }
  }

  lemma {:induction false} AckIsOfAFrame(cfg: E.Config, sys: E.System, l: Loop, fw: seq<E.Event>, n: nat)
    requires E.Initial(sys) && |sys.buffer| == BUFFER_SIZE && cfg.args.sampleRate > 0
    requires E.Run(cfg, sys, fw) == Some(l.sys) && D.Acks(l.sys.acked, n) >= 1
    ensures 1 <= n <= |l.sys.frames| && D.FragmentsOf(l.sys.frames, n) > 0 && n % cfg.args.sampleRate == 0
  {
    hide E.Inv, E.Run, E.Initial, D.FragmentsOf, D.Acks, D.Log, D.Newest;
    D.RunKeepsTally(cfg, sys, fw);
    D.TwoAcks(l.sys.acked, n);
    var i :| 0 <= i < |l.sys.acked| && l.sys.acked[i].seqNo == n;
    D.AckedNamesFrame(l.sys, i);
  }

  lemma {:induction false} PongKeepsInv(cfg: E.Config, sys: E.System, l: Loop, target: real, events: seq<Event>,
                                        ev: Event)
    requires |sys.buffer| == BUFFER_SIZE && LoopInv(cfg, sys, l, target, events) && ev.Pong?
    ensures Step(cfg, l, ev).Fine? ==> LoopInv(cfg, sys, Step(cfg, l, ev).loop, target, events + [ev])
  {
    hide E.Run, R.Run, R.Step, AllRingOps, AllSystemEvents, Taken;
    Snoc(events, ev);
    assert AllSystemEvents(events) + [] == AllSystemEvents(events);
    if Step(cfg, l, ev).Fine? {
      RingStep(l, target, AllRingOps(events), R.Ack(ev.seqNo, ev.time, ev.delta));
    }
  }

  lemma {:induction false} LoseAckKeepsInv(cfg: E.Config, sys: E.System, l: Loop, target: real, events: seq<Event>,
                                           ev: Event)
    requires |sys.buffer| == BUFFER_SIZE && LoopInv(cfg, sys, l, target, events) && ev.LoseAck?
    ensures Step(cfg, l, ev).Fine? ==> LoopInv(cfg, sys, Step(cfg, l, ev).loop, target, events + [ev])
    ensures Step(cfg, l, ev) != RingPanic
  {
    hide E.Run, R.Run, AllRingOps, AllSystemEvents, Taken;
    Snoc(events, ev);
    assert AllSystemEvents(events) + [] == AllSystemEvents(events) && AllRingOps(events) + [] == AllRingOps(events);
  }

  lemma {:induction false} StatisticKeepsInv(cfg: E.Config, sys: E.System, l: Loop, target: real, events: seq<Event>,
                                             ev: Event)
    requires |sys.buffer| == BUFFER_SIZE && LoopInv(cfg, sys, l, target, events) && ev.Statistic?
    ensures Step(cfg, l, ev).Fine? && LoopInv(cfg, sys, Step(cfg, l, ev).loop, target, events + [ev])
  {
    hide E.Run, R.Run, Q.Collected, R.ChargeAll, Q.SumsOf, R.Dropped, AllRingOps, AllSystemEvents, Taken;
    Snoc(events, ev);
    assert AllSystemEvents(events) + [] == AllSystemEvents(events);
    RingStep(l, target, AllRingOps(events), R.Op.Statistic(ev.now));
    hide R.Step;
  }

  /** One step of the system acks nothing, or one frame; cutting a frame acks nothing. */
  lemma {:induction false} SystemStep(cfg: E.Config, s: E.System, e: E.Event)
    requires |s.buffer| == BUFFER_SIZE && E.Enabled(s, e) && E.Step(cfg, s, e).Some?
    ensures var s' := E.Step(cfg, s, e).value;
            && |s'.buffer| == BUFFER_SIZE
            && |s'.frames| == |s.frames| + (if e.NewFrame? then 1 else 0)
            && (e.NewFrame? ==> s'.acked == s.acked)
            && (s'.acked == s.acked || exists out :: s'.acked == s.acked + [out])
  {
    hide AfterHandleRtt, Iterate, IsFragmentation, SeqOf, OffsetOf, Overlay;
  }

  lemma {:induction false} ForwardKeepsInv(cfg: E.Config, sys: E.System, l: Loop, target: real, events: seq<Event>,
                                           ev: Event)
    requires |sys.buffer| == BUFFER_SIZE && |l.sys.buffer| == BUFFER_SIZE && LoopInv(cfg, sys, l, target, events)
    requires ev.Forward?
    ensures Step(cfg, l, ev) != RingPanic
    ensures Step(cfg, l, ev).Fine? ==> LoopInv(cfg, sys, Step(cfg, l, ev).loop, target, events + [ev])
  {
    hide R.Run, R.Step, E.Step, E.Enabled, E.Run, D.Acks, AllRingOps, AllSystemEvents, Taken;
    var e := ev.ev;
    if E.Enabled(l.sys, e) && E.Step(cfg, l.sys, e).Some? {
      Snoc(events, ev);
      SystemStep(cfg, l.sys, e);
      E.RunSnoc(cfg, sys, AllSystemEvents(events), e);
      var sys' := E.Step(cfg, l.sys, e).value;
      if e.NewFrame? {
        ArriveNeverPanics(l.ring, ev.now);
        RingStep(l, target, AllRingOps(events), R.Arrive(ev.now));
        assert l.acks + multiset{} == l.acks;
      } else {
        assert AllRingOps(events) + [] == AllRingOps(events);
        AcksArrive(l, sys', events, ev);
      }
    }
  }

  lemma ArriveNeverPanics(ring: R.State, now: real)
    requires |ring.slots| > 0
    ensures R.Step(ring, R.Arrive(now)).Some?
  {
  }

  lemma AcksArrive(l: Loop, sys': E.System, events: seq<Event>, ev: Event)
    requires AcksInv(l, events) && ev.Forward?
    requires sys'.acked == l.sys.acked || exists out :: sys'.acked == l.sys.acked + [out]
    ensures var news := if |l.sys.acked| < |sys'.acked| then multiset{sys'.acked[|l.sys.acked|].seqNo} else multiset{};
            AcksInv(l.(sys := sys', acks := l.acks + news), events + [ev])
  {
    Snoc(events, ev);
    hide Taken, D.Acks;
    if sys'.acked != l.sys.acked {
      var out :| sys'.acked == l.sys.acked + [out];
      forall n: nat
        ensures D.Acks(sys'.acked, n) == D.Acks(l.sys.acked, n) + if out.seqNo == n then 1 else 0
      {
        D.AcksSnoc(l.sys.acked, out, n);
      }
    }
  }

  /** The loop as the programs set it up. */
  ghost predicate Initial(start: Loop, maxLength: nat, target: real) {
    && |start.sys.buffer| == BUFFER_SIZE && maxLength > 0 && target >= 0.0
    && E.Initial(start.sys) && start.acks == multiset{} && start.ring == R.Start(maxLength, target)
  }

  lemma {:induction false} StepKeepsInv(cfg: E.Config, sys: E.System, l: Loop, target: real, events: seq<Event>,
                                        ev: Event)
    requires |sys.buffer| == BUFFER_SIZE && |l.sys.buffer| == BUFFER_SIZE && |l.ring.slots| > 0
    requires LoopInv(cfg, sys, l, target, events)
    ensures Step(cfg, l, ev) == RingPanic ==> ev.Pong? && ev.seqNo in l.acks
    ensures Step(cfg, l, ev).Fine? ==> LoopInv(cfg, sys, Step(cfg, l, ev).loop, target, events + [ev])
  {
    hide LoopInv;
    match ev
    case Forward(_, _) =>
      hide Step;
      ForwardKeepsInv(cfg, sys, l, target, events, ev);
    case Pong(_, _, _, _) => PongKeepsInv(cfg, sys, l, target, events, ev);
    case LoseAck(_) => LoseAckKeepsInv(cfg, sys, l, target, events, ev);
    case Statistic(_) =>
      hide Step;
      StatisticKeepsInv(cfg, sys, l, target, events, ev);
  }

  lemma {:induction false} RunKeepsInv(cfg: E.Config, start: Loop, maxLength: nat, target: real, events: seq<Event>)
    requires Initial(start, maxLength, target)
    requires |start.sys.buffer| == BUFFER_SIZE && |start.ring.slots| > 0
    requires Run(cfg, start, events).Fine?
    ensures LoopInv(cfg, start.sys, Run(cfg, start, events).loop, target, events)
  {
    hide LoopInv, Step, Initial;
    if events == [] {
      InitialKeepsInv(cfg, start, maxLength, target);
    } else {
      var before := events[..|events| - 1];
      RunKeepsInv(cfg, start, maxLength, target, before);
      assert before + [events[|events| - 1]] == events;
      StepKeepsInv(cfg, start.sys, Run(cfg, start, before).loop, target, before, events[|events| - 1]);
    }
  }

  lemma InitialKeepsInv(cfg: E.Config, start: Loop, maxLength: nat, target: real)
    requires Initial(start, maxLength, target)
    ensures LoopInv(cfg, start.sys, start, target, [])
  {
  }

  lemma {:induction false} StepPanicsIff(cfg: E.Config, start: Loop, maxLength: nat, target: real,
                                         events: seq<Event>, ev: Event)
    requires Initial(start, maxLength, target) && cfg.args.sampleRate > 0
    requires |start.sys.buffer| == BUFFER_SIZE && |start.ring.slots| > 0 && R.WellTimed(AllRingOps(events))
    requires Run(cfg, start, events).Fine?
    ensures var l := Run(cfg, start, events).loop;
            && (Step(cfg, l, ev) == RingPanic <==>
                  && ev.Pong? && ev.seqNo in l.acks
                  && (Late(l, ev.seqNo) || R.CalledSince(AllRingOps(events), ev.seqNo)))
            && (Step(cfg, l, ev) == RingPanic && !Late(l, ev.seqNo) && !AckKept(events, ev.seqNo) ==>
                  && D.FragmentsOf(l.sys.frames, ev.seqNo) > 0
                  && D.Acks(l.sys.acked, ev.seqNo) >= 2
                  && D.ArrivesAgain(D.Log(AllSystemEvents(events)), ev.seqNo, D.FragmentsOf(l.sys.frames, ev.seqNo)))
  {
    RunKeepsInv(cfg, start, maxLength, target, events);
    var l, fw, ops := Run(cfg, start, events).loop, AllSystemEvents(events), AllRingOps(events);
    hide Run, E.Run, R.Run, E.Initial, LoopInv, AllSystemEvents, AllRingOps, R.Step, R.CalledSince, AckKept, Late;
    hide D.Log, D.ArrivesAgain, D.FragmentsOf, D.Acks, R.WellTimed;
    StepKeepsInv(cfg, start.sys, l, target, events, ev);
    if ev.Pong? && ev.seqNo in l.acks {
      PanicIff(cfg, start.sys, l, target, events, ev.seqNo, ev.time, ev.delta);
      if D.Acks(l.sys.acked, ev.seqNo) >= 2 {
        AckedTwiceArrivesAgain(cfg, start.sys, l, target, events, ev.seqNo);
      }
    }
  }

  lemma AckedTwiceArrivesAgain(cfg: E.Config, sys: E.System, l: Loop, target: real, events: seq<Event>, n: nat)
    requires E.Initial(sys) && cfg.args.sampleRate > 0 && LoopInv(cfg, sys, l, target, events)
    requires n % cfg.args.sampleRate == 0 && D.FragmentsOf(l.sys.frames, n) > 0 && D.Acks(l.sys.acked, n) >= 2
    ensures D.ArrivesAgain(D.Log(AllSystemEvents(events)), n, D.FragmentsOf(l.sys.frames, n))
  {
    var fw := AllSystemEvents(events);
    D.CountedPerRound(cfg, sys, fw, n);
    D.AgainIsTwoStretches(D.Log(fw), n, D.FragmentsOf(l.sys.frames, n));
    hide E.Run, E.Initial, D.FragmentsOf, D.ArrivesAgain, D.Splits, D.Acks;
  }

  /** When the acks' thread panics: in every run of the whole loop, from cutting a frame over queue, links,
      reassembly and ack back to the ring, on a network that may lose, reorder and duplicate in both
      directions, with frames and calls of `statistic` at any time. The ring panics exactly on an ack that is
      late, or that comes when an earlier one for its frame came and `statistic` was called since. An ack
      that is not late and was never duplicated on its way back panics only if its frame was delivered whole
      a second time after it had been delivered whole. */
  lemma {:induction false} RingPanicsIff(cfg: E.Config, start: Loop, maxLength: nat, target: real, events: seq<Event>)
    requires Initial(start, maxLength, target) && cfg.args.sampleRate > 0
    requires |start.sys.buffer| == BUFFER_SIZE && |start.ring.slots| > 0 && R.WellTimed(AllRingOps(events))
    ensures events != [] && Run(cfg, start, events[..|events| - 1]).Fine? ==>
              var before, ev := events[..|events| - 1], events[|events| - 1];
              var l := Run(cfg, start, before).loop;
              && (Run(cfg, start, events) == RingPanic <==>
                    && ev.Pong? && ev.seqNo in l.acks
                    && (Late(l, ev.seqNo) || R.CalledSince(AllRingOps(before), ev.seqNo)))
              && (Run(cfg, start, events) == RingPanic && !Late(l, ev.seqNo) && !AckKept(before, ev.seqNo) ==>
                    && D.FragmentsOf(l.sys.frames, ev.seqNo) > 0
                    && D.ArrivesAgain(D.Log(AllSystemEvents(before)), ev.seqNo, D.FragmentsOf(l.sys.frames, ev.seqNo)))
  {
    if events != [] && Run(cfg, start, events[..|events| - 1]).Fine? {
      var before, ev := events[..|events| - 1], events[|events| - 1];
      TimedBefore(AllRingOps(before), ev);
      StepPanicsIff(cfg, start, maxLength, target, before, ev);
    }
    hide Initial, Step, D.Log, D.ArrivesAgain, D.FragmentsOf, AllSystemEvents, AllRingOps, R.WellTimed;
  }

  lemma TimedBefore(ops: seq<R.Op>, ev: Event)
    requires R.WellTimed(ops + RingOps(ev))
    ensures R.WellTimed(ops)
  {
    if RingOps(ev) == [] {
      assert ops + [] == ops;
    } else {
      assert (ops + RingOps(ev))[..|ops|] == ops;
    }
  }

  /** Every ack comes back while fewer than a ring length of newer frames have been issued. */
  ghost predicate NoneLate(cfg: E.Config, start: Loop, events: seq<Event>)
    requires |start.sys.buffer| == BUFFER_SIZE && |start.ring.slots| > 0
  {
    events != [] ==>
      var before, ev := events[..|events| - 1], events[|events| - 1];
      && NoneLate(cfg, start, before)
      && (ev.Pong? && Run(cfg, start, before).Fine? ==> !Late(Run(cfg, start, before).loop, ev.seqNo))
  }

  /** The network duplicates no ack. */
  predicate NoAcksKept(events: seq<Event>) {
    forall i :: 0 <= i < |events| && events[i].Pong? ==> !events[i].keep
  }

  /** The network duplicates in neither direction. */
  predicate NoDuplicates(events: seq<Event>) {
    C.NoDuplicates(AllSystemEvents(events)) && NoAcksKept(events)
  }

  /** Without duplication and late acks it never panics. */
  lemma {:induction false} RingNeverPanics(cfg: E.Config, start: Loop, maxLength: nat, target: real, events: seq<Event>)
    requires Initial(start, maxLength, target) && cfg.args.sampleRate > 0
    requires |start.sys.buffer| == BUFFER_SIZE && |start.ring.slots| > 0 && R.WellTimed(AllRingOps(events))
    requires NoneLate(cfg, start, events) && NoDuplicates(events)
    ensures Run(cfg, start, events) != RingPanic
  {
    if events != [] {
      var before, ev := events[..|events| - 1], events[|events| - 1];
      FewerDuplicates(events);
      TimedBefore(AllRingOps(before), ev);
      RingNeverPanics(cfg, start, maxLength, target, before);
      hide Initial, Step, E.Run, E.Initial, C.NoDuplicates, LoopInv, R.Step, D.Acks, NoDuplicates, R.WellTimed, Late;
      if Run(cfg, start, events) == RingPanic {
        NotAckedTwice(cfg, start, maxLength, target, before, ev);
      }
    }
  }

  lemma FewerDuplicates(events: seq<Event>)
    requires events != [] && NoDuplicates(events)
    ensures NoDuplicates(events[..|events| - 1])
  {
    var before := events[..|events| - 1];
    assert forall i :: 0 <= i < |AllSystemEvents(before)| ==> AllSystemEvents(before)[i] == AllSystemEvents(events)[i];
  }

  lemma {:induction false} NotAckedTwice(cfg: E.Config, start: Loop, maxLength: nat, target: real,
                                         events: seq<Event>, ev: Event)
    requires Initial(start, maxLength, target) && cfg.args.sampleRate > 0
    requires |start.sys.buffer| == BUFFER_SIZE && |start.ring.slots| > 0 && R.WellTimed(AllRingOps(events))
    requires NoDuplicates(events) && Run(cfg, start, events).Fine?
    ensures var l := Run(cfg, start, events).loop;
            Step(cfg, l, ev) == RingPanic ==> ev.Pong? && Late(l, ev.seqNo)
  {
    var l, fw := Run(cfg, start, events).loop, AllSystemEvents(events);
    StepPanicsIff(cfg, start, maxLength, target, events, ev);
    RunKeepsInv(cfg, start, maxLength, target, events);
    hide Run, E.Run, E.Initial, AllSystemEvents, AllRingOps, R.Step, C.NoDuplicates, RingInv, AcksInv, Step, Late;
    hide D.Acks, D.ArrivesAgain, D.FragmentsOf, D.Log;
    if Step(cfg, l, ev) == RingPanic {
      C.ReceiverCounts(cfg, start.sys, fw);
      D.TwoAcks(l.sys.acked, ev.seqNo);
    }
  }
}
