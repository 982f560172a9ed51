/** RingPanics: three runs of the whole loop that make the sender's ring panic: a duplicated datagram, a
    duplicated ack and a late ack. */
module RingPanics {
  import opened Wrappers
  import opened Packets
  import opened Throttle
  import opened Source
  import opened Destination
  import opened EndToEnd
  import opened Duplicates
  import C = Counting
  import L = AckLoop
  import R = RttRuns

  /** One event further in a run of the loop. */
  lemma LoopSnoc(cfg: Config, start: L.Loop, events: seq<L.Event>, ev: L.Event)
    requires |start.sys.buffer| == BUFFER_SIZE && |start.ring.slots| > 0
    requires L.Run(cfg, start, events).Fine? && L.NoneLate(cfg, start, events)
    requires ev.Pong? ==> !L.Late(L.Run(cfg, start, events).loop, ev.seqNo)
    ensures L.Run(cfg, start, events + [ev]) == L.Step(cfg, L.Run(cfg, start, events).loop, ev)
    ensures L.NoneLate(cfg, start, events + [ev])
  {
    assert (events + [ev])[..|events|] == events;
  }

  /** All arrivals and calls of a run are at time 0. */
  predicate AtZero(ops: seq<R.Op>) {
    forall i :: 0 <= i < |ops| ==>
                  match ops[i]
                  case Arrive(now) => now == 0.0
                  case Statistic(now) => now == 0.0
                  case Ack(_, _, _) => true
  }

  lemma {:induction false} AtZeroIsTimed(ops: seq<R.Op>)
    requires AtZero(ops)
    ensures R.WellTimed(ops) && R.Clock(ops) == 0.0
  {
    if ops != [] {
      AtZeroIsTimed(ops[..|ops| - 1]);
    }
  }

  lemma AtZeroSnoc(ops: seq<R.Op>, op: R.Op)
    requires AtZero(ops) && AtZero([op])
    ensures AtZero(ops + [op])
  {
    assert [op][0] == op;
  }

  /** Where a run of the loop has got to, with no ack late so far. */
  ghost predicate Reaches(cfg: Config, start: L.Loop, events: seq<L.Event>, l: L.Loop)
    requires |start.sys.buffer| == BUFFER_SIZE && |start.ring.slots| > 0
  {
    && L.Run(cfg, start, events) == L.Fine(l) && L.NoneLate(cfg, start, events)
    && AtZero(L.AllRingOps(events)) && |l.ring.slots| == |start.ring.slots|
    && |l.sys.buffer| == BUFFER_SIZE && Run(cfg, start.sys, L.AllSystemEvents(events)) == Some(l.sys)
  }

  /** A step of the system that is not a new frame. */
  lemma SystemMoves(cfg: Config, start: L.Loop, events: seq<L.Event>, l: L.Loop, e: Event)
    requires |start.sys.buffer| == BUFFER_SIZE && |start.ring.slots| > 0
    requires Reaches(cfg, start, events, l) && !e.NewFrame?
    requires Run(cfg, start.sys, L.AllSystemEvents(events) + [e]).Some?
    ensures var s := Run(cfg, start.sys, L.AllSystemEvents(events) + [e]).value;
            var news := if |l.sys.acked| < |s.acked| then multiset{s.acked[|l.sys.acked|].seqNo} else multiset{};
            && Reaches(cfg, start, events + [L.Forward(e, 0.0)], l.(sys := s, acks := l.acks + news))
            && L.AllRingOps(events + [L.Forward(e, 0.0)]) == L.AllRingOps(events)
            && L.AllSystemEvents(events + [L.Forward(e, 0.0)]) == L.AllSystemEvents(events) + [e]
  {
    var fw := L.AllSystemEvents(events);
    assert (fw + [e])[..|fw|] == fw;
    hide Step, Enabled, L.NoneLate;
    LoopSnoc(cfg, start, events, L.Forward(e, 0.0));
    L.Snoc(events, L.Forward(e, 0.0));
    assert L.AllRingOps(events) + [] == L.AllRingOps(events);
  }

  /** A new frame: the ring never panics on it, and nothing is acked. */
  lemma FrameMoves(cfg: Config, start: L.Loop, events: seq<L.Event>, l: L.Loop, e: Event) returns (l': L.Loop)
    requires |start.sys.buffer| == BUFFER_SIZE && |start.ring.slots| > 0
    requires Reaches(cfg, start, events, l) && e.NewFrame? && Enabled(l.sys, e)
    ensures Reaches(cfg, start, events + [L.Forward(e, 0.0)], l')
    ensures l'.sys.frames == l.sys.frames + [e.frame] && l'.sys.acked == l.sys.acked && l'.acks == l.acks
    ensures L.AllRingOps(events + [L.Forward(e, 0.0)]) == L.AllRingOps(events) + [R.Arrive(0.0)]
    ensures L.AllSystemEvents(events + [L.Forward(e, 0.0)]) == L.AllSystemEvents(events) + [e]
  {
    l' := FrameStep(cfg, l, e);
    AtZeroSnoc(L.AllRingOps(events), R.Arrive(0.0));
    LoopSnoc(cfg, start, events, L.Forward(e, 0.0));
    L.Snoc(events, L.Forward(e, 0.0));
    RunSnoc(cfg, start.sys, L.AllSystemEvents(events), e);
    hide AtZero, R.Step, L.Step, L.NoneLate, Run, L.Run, L.AllSystemEvents, L.AllRingOps, Enabled, Step;
  }

  lemma FrameStep(cfg: Config, l: L.Loop, e: Event) returns (l': L.Loop)
    requires |l.sys.buffer| == BUFFER_SIZE && |l.ring.slots| > 0 && e.NewFrame? && Enabled(l.sys, e)
    ensures |l'.ring.slots| == |l.ring.slots| && |l'.sys.buffer| == BUFFER_SIZE
    ensures l'.sys.frames == l.sys.frames + [e.frame] && l'.sys.acked == l.sys.acked && l'.acks == l.acks
    ensures L.Step(cfg, l, L.Forward(e, 0.0)) == L.Fine(l') && Step(cfg, l.sys, e).Some?
    ensures Step(cfg, l.sys, e).value == l'.sys
  {
    L.ArriveNeverPanics(l.ring, 0.0);
    L.StepKeepsLength(l.ring, R.Arrive(0.0));
    hide R.Step, AfterPrepare, IsFragmentation;
    assert l.acks + multiset{} == l.acks;
    l' := l.(sys := Announce(l.sys, e.frame, e.packets, e.now), ring := R.Step(l.ring, R.Arrive(0.0)).value);
  }

  /** A step of the ring alone that does not panic. */
  lemma RingMoves(cfg: Config, start: L.Loop, events: seq<L.Event>, l: L.Loop, ev: L.Event) returns (l': L.Loop)
    requires |start.sys.buffer| == BUFFER_SIZE && |start.ring.slots| > 0 && |l.sys.buffer| == BUFFER_SIZE
    requires Reaches(cfg, start, events, l) && L.Step(cfg, l, ev) != L.RingPanic
    requires (ev.Pong? && ev.seqNo in l.acks && !L.Late(l, ev.seqNo)) || ev == L.Event.Statistic(0.0)
    ensures Reaches(cfg, start, events + [ev], l') && l'.sys == l.sys
    ensures l'.acks == (if ev.Pong? && !ev.keep then l.acks - multiset{ev.seqNo} else l.acks)
    ensures L.AllRingOps(events + [ev]) == L.AllRingOps(events) + L.RingOps(ev)
    ensures L.AllSystemEvents(events + [ev]) == L.AllSystemEvents(events)
  {
    hide L.NoneLate, Run, L.Run, R.Step, Step;
    LoopSnoc(cfg, start, events, ev);
    L.Snoc(events, ev);
    assert L.AllSystemEvents(events) + [] == L.AllSystemEvents(events);
    l' := L.Step(cfg, l, ev).loop;
    L.StepKeepsLength(l.ring, L.RingOps(ev)[0]);
  }

  /** Cut and sent. */
  lemma FirstSend(cfg: Config, start: L.Loop, cut: Event, attempt: Event) returns (events: seq<L.Event>, l: L.Loop)
    requires |start.sys.buffer| == BUFFER_SIZE && |start.ring.slots| > 0 && start.acks == multiset{}
    requires start.sys.acked == [] && Enabled(start.sys, cut) && cut.NewFrame? && !attempt.NewFrame?
    requires var r := Run(cfg, start.sys, [cut] + [attempt]); r.Some? && r.value.acked == []
    ensures Reaches(cfg, start, events, l) && l.sys.acked == [] && l.acks == multiset{}
    ensures L.AllRingOps(events) == [R.Arrive(0.0)] && L.AllSystemEvents(events) == [cut] + [attempt]
    ensures L.NoAcksKept(events)
  {
    Starts(cfg, start);
    hide L.AllRingOps, L.AllSystemEvents, Run, Reaches, Enabled;
    var l1 := FrameMoves(cfg, start, [], start, cut);
    assert [] + [cut] == [cut] && [] + [R.Arrive(0.0)] == [R.Arrive(0.0)];
    events := [] + [L.Forward(cut, 0.0)];
    SystemMoves(cfg, start, events, l1, attempt);
    events := events + [L.Forward(attempt, 0.0)];
    l := l1.(sys := Run(cfg, start.sys, [cut] + [attempt]).value, acks := start.acks + multiset{});
  }

  /** Cut, sent, and delivered and acked. */
  lemma FirstAck(cfg: Config, start: L.Loop, frame: Frame, tick: Tick, once: Event)
    returns (events: seq<L.Event>, l: L.Loop)
    requires NumFragments(|frame|) == 1 && |start.sys.buffer| == BUFFER_SIZE && |start.ring.slots| > 0
    requires start.sys.frames == [] && start.sys.acked == [] && start.acks == multiset{}
    requires once.Deliver? && Once(cfg, start.sys, SentBy(frame, tick), frame, once)
    ensures Reaches(cfg, start, events, l)
    ensures |l.sys.acked| == 1 && l.sys.frames == [frame] && l.acks == multiset{1}
    ensures L.AllRingOps(events) == [R.Arrive(0.0)]
    ensures L.AllSystemEvents(events) == SentBy(frame, tick) + [once]
    ensures L.NoAcksKept(events)
  {
    var cut, sent := NewFrame(frame, OnePacket(frame), 0), SentBy(frame, tick);
    OnePacketIsFragmentation(frame);
    EnabledAtStart(start.sys, cut);
    assert sent == [cut] + [Attempt(tick)];
    hide NumFragments, SentBy, L.AllRingOps, L.AllSystemEvents, Reaches, Enabled, IsFragmentation, OnePacket, Run;
    var before, l0 := FirstSend(cfg, start, cut, Attempt(tick));
    l := DeliveryMoves(cfg, start, before, l0, sent, frame, once);
    events := before + [L.Forward(once, 0.0)];
  }

  lemma DeliveryMoves(cfg: Config, start: L.Loop, events: seq<L.Event>, l: L.Loop, sent: seq<Event>, frame: Frame,
                      once: Event) returns (l': L.Loop)
    requires |start.sys.buffer| == BUFFER_SIZE && |start.ring.slots| > 0
    requires Reaches(cfg, start, events, l) && l.sys.acked == [] && l.acks == multiset{}
    requires once.Deliver? && Once(cfg, start.sys, sent, frame, once) && L.AllSystemEvents(events) == sent
    ensures Reaches(cfg, start, events + [L.Forward(once, 0.0)], l')
    ensures |l'.sys.acked| == 1 && l'.sys.frames == [frame] && l'.acks == multiset{1}
    ensures L.AllRingOps(events + [L.Forward(once, 0.0)]) == L.AllRingOps(events)
    ensures L.AllSystemEvents(events + [L.Forward(once, 0.0)]) == sent + [once]
  {
    hide L.AllRingOps, L.AllSystemEvents, Run, Reaches;
    SystemMoves(cfg, start, events, l, once);
    assert multiset{} + multiset{1} == multiset{1};
    l' := l.(sys := Run(cfg, start.sys, sent + [once]).value, acks := multiset{1});
  }

  lemma EnabledAtStart(s: System, cut: Event)
    requires cut.NewFrame? && s.frames == [] && IsFragmentation(cut.frame, 1, cut.packets)
    ensures Enabled(s, cut)
  {
  }

  lemma Starts(cfg: Config, start: L.Loop)
    requires |start.sys.buffer| == BUFFER_SIZE && |start.ring.slots| > 0
    ensures Reaches(cfg, start, [], start)
    ensures L.AllRingOps([]) == [] && L.AllSystemEvents([]) == []
  {
  }

  /** The ack comes back, and `statistic` is called. */
  lemma AckCollected(cfg: Config, start: L.Loop, maxLength: nat, events: seq<L.Event>, l: L.Loop, keep: bool)
    returns (l': L.Loop)
    requires cfg.args.sampleRate == 1 && L.Initial(start, maxLength, 1.0) && |start.ring.slots| == maxLength
    requires |start.sys.buffer| == BUFFER_SIZE && maxLength > 0
    requires Reaches(cfg, start, events, l) && |l.sys.frames| == 1 && l.acks == multiset{1}
    requires L.AllRingOps(events) == [R.Arrive(0.0)]
    ensures var all := events + [L.Pong(1, 0.0, 0.0, keep)] + [L.Event.Statistic(0.0)];
            && Reaches(cfg, start, all, l') && R.CalledSince(L.AllRingOps(all), 1)
            && L.AllSystemEvents(all) == L.AllSystemEvents(events)
    ensures l'.sys == l.sys && |l'.ring.slots| == maxLength && l'.acks == if keep then multiset{1} else multiset{}
  {
    var pong, ops := L.Pong(1, 0.0, 0.0, keep), [R.Arrive(0.0), R.Ack(1, 0.0, 0.0)];
    assert [R.Arrive(0.0)] + [R.Ack(1, 0.0, 0.0)] == ops && ops[0].Arrive?;
    assert R.Acks(ops, 1) by {
      assert ops[1].Ack? && ops[1].seqNo == 1;
    }
    R.CalledSinceSnoc(ops, R.Op.Statistic(0.0), 1);
    assert !R.CalledSince([R.Arrive(0.0)], 1);
    hide Run, L.AllRingOps, L.AllSystemEvents, L.Run, L.NoneLate, L.Step, L.Initial, R.CalledSince;
    FirstPongIsFine(cfg, start, maxLength, events, l, pong);
    l' := RingMoves(cfg, start, events, l, pong);
    l' := RingMoves(cfg, start, events + [pong], l', L.Event.Statistic(0.0));
  }

  lemma FirstPongIsFine(cfg: Config, start: L.Loop, maxLength: nat, events: seq<L.Event>, l: L.Loop, pong: L.Event)
    requires cfg.args.sampleRate == 1 && L.Initial(start, maxLength, 1.0) && |start.ring.slots| == maxLength > 0
    requires |start.sys.buffer| == BUFFER_SIZE && Reaches(cfg, start, events, l) && |l.sys.buffer| == BUFFER_SIZE
    requires pong.Pong? && |l.sys.frames| < pong.seqNo + maxLength && |l.ring.slots| > 0
    requires !R.CalledSince(L.AllRingOps(events), pong.seqNo)
    ensures L.Step(cfg, l, pong) != L.RingPanic
  {
    AtZeroIsTimed(L.AllRingOps(events));
    hide Run, L.AllRingOps, L.AllSystemEvents, L.Run, L.NoneLate, L.Step, L.Initial, R.CalledSince, R.WellTimed;
    L.StepPanicsIff(cfg, start, maxLength, 1.0, events, pong);
  }

  /** One more ack makes the ring panic. */
  lemma NextAckPanics(cfg: Config, start: L.Loop, maxLength: nat, events: seq<L.Event>, l: L.Loop)
    requires cfg.args.sampleRate == 1 && L.Initial(start, maxLength, 1.0) && |start.sys.buffer| == BUFFER_SIZE
    requires |start.ring.slots| == maxLength > 0 && Reaches(cfg, start, events, l)
    requires 1 in l.acks && (L.Late(l, 1) || R.CalledSince(L.AllRingOps(events), 1))
    ensures var all := events + [L.Pong(1, 0.0, 0.0, false)];
            && R.WellTimed(L.AllRingOps(all)) && L.Run(cfg, start, all) == L.RingPanic
            && L.AllSystemEvents(all) == L.AllSystemEvents(events)
            && (!L.Late(l, 1) ==> L.NoneLate(cfg, start, all))
  {
    var pong := L.Pong(1, 0.0, 0.0, false);
    assert (events + [pong])[..|events|] == events;
    L.Snoc(events, pong);
    hide L.AllSystemEvents, L.AllRingOps, L.Initial, R.CalledSince, L.Step;
    assert L.AllSystemEvents(events) + [] == L.AllSystemEvents(events);
    AtZeroIsTimed(L.AllRingOps(events));
    AtZeroIsTimed(L.AllRingOps(events + [pong]));
    L.StepPanicsIff(cfg, start, maxLength, 1.0, events, pong);
  }

  // ---------------------------------------------------------------------------------------------
  // The three runs

  /** The loop the runs start from. */
  function PlainLoop(buffer: seq<byte>, windowSize: nat, hasTx: bool, maxLength: nat): L.Loop {
    L.Loop(Start(0.0, windowSize, true, PlainController(), buffer, hasTx), multiset{}, R.Start(maxLength, 1.0))
  }

  lemma PlainIsReady(buffer: seq<byte>, windowSize: nat, hasTx: bool, maxLength: nat)
    requires |buffer| == BUFFER_SIZE && maxLength > 0
    ensures var start := PlainLoop(buffer, windowSize, hasTx, maxLength);
            && L.Initial(start, maxLength, 1.0) && |start.ring.slots| == maxLength && start.sys.buffer == buffer
            && start.sys.frames == [] && start.sys.acked == [] && start.acks == multiset{}
  {
    PlainIsInitial(Start(0.0, windowSize, true, PlainController(), buffer, hasTx));
    hide Initial;
  }

  lemma ReplayRun(cfg: Config, start: L.Loop, maxLength: nat, frame: Frame, tick: Tick, twice: Event)
    returns (events: seq<L.Event>)
    requires cfg.args.sampleRate == 1 && L.Initial(start, maxLength, 1.0) && NumFragments(|frame|) == 1
    requires |start.sys.buffer| == BUFFER_SIZE && |start.ring.slots| == maxLength > 0
    requires start.sys.frames == [] && start.sys.acked == [] && start.acks == multiset{}
    requires twice.Deliver? && Twice(cfg, start.sys, SentBy(frame, tick), frame, twice)
    ensures R.WellTimed(L.AllRingOps(events)) && L.NoneLate(cfg, start, events)
    ensures L.NoAcksKept(events)
    ensures L.Run(cfg, start, events) == L.RingPanic
  {
    hide L.Initial, NumFragments, L.Run, L.NoneLate, R.WellTimed, L.AllRingOps, Run, SentBy, Reaches;
    hide R.CalledSince, L.AllSystemEvents;
    var sent := SentBy(frame, tick);
    var first, l := FirstAck(cfg, start, frame, tick, twice);
    var l1 := AckCollected(cfg, start, maxLength, first, l, false);
    var second := first + [L.Pong(1, 0.0, 0.0, false)] + [L.Event.Statistic(0.0)];
    assert multiset{} + multiset{1} == multiset{1};
    SystemMoves(cfg, start, second, l1, twice);
    NextAckPanics(cfg, start, maxLength, second + [L.Forward(twice, 0.0)],
                  l1.(sys := Run(cfg, start.sys, sent + [twice] + [twice]).value, acks := multiset{1}));
    events := second + [L.Forward(twice, 0.0)] + [L.Pong(1, 0.0, 0.0, false)];
  }

  /** A duplicated datagram: a frame of one fragment is delivered, acked and collected by `statistic`; then
      its datagram arrives again and is acked again. No ack is duplicated or late. */
  lemma {:induction false} ReplayPanics(frame: Frame, buffer: seq<byte>, windowSize: nat, hasTx: bool, rxMode: bool,
                                        tick: Tick, env: Env, maxLength: nat)
    requires NumFragments(|frame|) == 1 && |buffer| == BUFFER_SIZE && tick.accepts && maxLength > 0
    ensures var cfg, start := Config(2, Args(1, rxMode)), PlainLoop(buffer, windowSize, hasTx, maxLength);
            exists events: seq<L.Event> ::
              && R.WellTimed(L.AllRingOps(events)) && L.NoneLate(cfg, start, events)
              && L.NoAcksKept(events)
              && L.Run(cfg, start, events) == L.RingPanic
  {
    var cfg, start := Config(2, Args(1, rxMode)), PlainLoop(buffer, windowSize, hasTx, maxLength);
    PlainIsReady(buffer, windowSize, hasTx, maxLength);
    var d := DeliveredTwice(cfg, start.sys, frame, tick, env);
    hide PlainLoop, L.Initial, NumFragments, L.Run, L.NoneLate, R.WellTimed, L.AllRingOps, SentBy, Twice;
    var events := ReplayRun(cfg, start, maxLength, frame, tick, Deliver(d, true, env));
  }

  lemma AckReplayRun(cfg: Config, start: L.Loop, maxLength: nat, frame: Frame, tick: Tick, once: Event)
    returns (events: seq<L.Event>)
    requires cfg.args.sampleRate == 1 && L.Initial(start, maxLength, 1.0) && NumFragments(|frame|) == 1
    requires |start.sys.buffer| == BUFFER_SIZE && |start.ring.slots| == maxLength > 0
    requires start.sys.frames == [] && start.sys.acked == [] && start.acks == multiset{}
    requires once.Deliver? && !once.keep && Once(cfg, start.sys, SentBy(frame, tick), frame, once)
    ensures R.WellTimed(L.AllRingOps(events)) && L.NoneLate(cfg, start, events)
    ensures C.NoDuplicates(L.AllSystemEvents(events))
    ensures L.Run(cfg, start, events) == L.RingPanic
  {
    SentOnce(frame, tick, once);
    hide L.Initial, NumFragments, L.Run, L.NoneLate, R.WellTimed, L.AllRingOps, Run, SentBy, Reaches;
    hide R.CalledSince, L.AllSystemEvents, C.NoDuplicates;
    var first, l := FirstAck(cfg, start, frame, tick, once);
    var l1 := AckCollected(cfg, start, maxLength, first, l, true);
    var second := first + [L.Pong(1, 0.0, 0.0, true)] + [L.Event.Statistic(0.0)];
    NextAckPanics(cfg, start, maxLength, second, l1);
    events := second + [L.Pong(1, 0.0, 0.0, false)];
  }

  /** A duplicated ack: every datagram is delivered once, and the ack comes back twice with a call of
      `statistic` in between. */
  lemma {:induction false} AckReplayPanics(frame: Frame, buffer: seq<byte>, windowSize: nat, hasTx: bool, rxMode: bool,
                                           tick: Tick, env: Env, maxLength: nat)
    requires NumFragments(|frame|) == 1 && |buffer| == BUFFER_SIZE && tick.accepts && maxLength > 0
    ensures var cfg, start := Config(2, Args(1, rxMode)), PlainLoop(buffer, windowSize, hasTx, maxLength);
            exists events: seq<L.Event> ::
              && R.WellTimed(L.AllRingOps(events)) && L.NoneLate(cfg, start, events)
              && C.NoDuplicates(L.AllSystemEvents(events))
              && L.Run(cfg, start, events) == L.RingPanic
  {
    var cfg, start := Config(2, Args(1, rxMode)), PlainLoop(buffer, windowSize, hasTx, maxLength);
    PlainIsReady(buffer, windowSize, hasTx, maxLength);
    var d := DeliveredOnce(cfg, start.sys, frame, tick, false, env);
    hide PlainLoop, L.Initial, NumFragments, L.Run, L.NoneLate, R.WellTimed, L.AllRingOps, SentBy, Once, Inv;
    hide L.AllSystemEvents, C.NoDuplicates;
    var events := AckReplayRun(cfg, start, maxLength, frame, tick, Deliver(d, false, env));
  }

  lemma SentOnce(frame: Frame, tick: Tick, once: Event)
    requires NumFragments(|frame|) == 1 && once.Deliver? && !once.keep
    ensures C.NoDuplicates(SentBy(frame, tick) + [once])
  {
  }

  /** `k` empty frames are cut. */
  lemma {:induction false} MoreFrames(cfg: Config, start: L.Loop, events: seq<L.Event>, l: L.Loop, k: nat)
    returns (events': seq<L.Event>, l': L.Loop)
    requires |start.sys.buffer| == BUFFER_SIZE && |start.ring.slots| > 0
    requires Reaches(cfg, start, events, l) && L.NoDuplicates(events) && |l.sys.frames| + k < 0x1_0000_0000
    ensures Reaches(cfg, start, events', l') && L.NoDuplicates(events')
    ensures l'.acks == l.acks && |l'.sys.frames| == |l.sys.frames| + k
  {
    hide Reaches, L.NoDuplicates;
    if k == 0 {
      events', l' := events, l;
    } else {
      events', l' := MoreFrames(cfg, start, events, l, k - 1);
      events', l' := OneMoreFrame(cfg, start, events', l');
    }
  }

  lemma OneMoreFrame(cfg: Config, start: L.Loop, events: seq<L.Event>, l: L.Loop)
    returns (events': seq<L.Event>, l': L.Loop)
    requires |start.sys.buffer| == BUFFER_SIZE && |start.ring.slots| > 0
    requires Reaches(cfg, start, events, l) && L.NoDuplicates(events) && |l.sys.frames| + 1 < 0x1_0000_0000
    ensures Reaches(cfg, start, events', l') && L.NoDuplicates(events')
    ensures l'.acks == l.acks && |l'.sys.frames| == |l.sys.frames| + 1
  {
    var e := NewFrame([], [], 0);
    EmptyFrameIsEnabled(l.sys);
    hide Reaches, L.AllSystemEvents, L.AllRingOps, Enabled, L.NoDuplicates;
    l' := FrameMoves(cfg, start, events, l, e);
    events' := events + [L.Forward(e, 0.0)];
    StillNoDuplicates(events, L.Forward(e, 0.0));
  }

  lemma EmptyFrameIsEnabled(s: System)
    requires |s.frames| + 1 < 0x1_0000_0000
    ensures Enabled(s, NewFrame([], [], 0))
  {
    assert IsFragmentation([], |s.frames| + 1, []);
  }

  lemma StillNoDuplicates(events: seq<L.Event>, ev: L.Event)
    requires L.NoDuplicates(events) && ev.Forward? && ev.ev.NewFrame?
    ensures L.NoDuplicates(events + [ev])
  {
    L.Snoc(events, ev);
    hide L.AllSystemEvents;
  }

  lemma LateAckRun(cfg: Config, start: L.Loop, maxLength: nat, frame: Frame, tick: Tick, once: Event)
    returns (events: seq<L.Event>)
    requires cfg.args.sampleRate == 1 && L.Initial(start, maxLength, 1.0) && NumFragments(|frame|) == 1
    requires |start.sys.buffer| == BUFFER_SIZE && |start.ring.slots| == maxLength && 0 < maxLength < 0xFFFF_FFFF
    requires start.sys.frames == [] && start.sys.acked == [] && start.acks == multiset{}
    requires once.Deliver? && !once.keep && Once(cfg, start.sys, SentBy(frame, tick), frame, once)
    ensures R.WellTimed(L.AllRingOps(events)) && L.NoDuplicates(events)
    ensures L.Run(cfg, start, events) == L.RingPanic
  {
    SentOnce(frame, tick, once);
    var first, l := FirstAck(cfg, start, frame, tick, once);
    assert L.NoDuplicates(first);
    hide L.Initial, NumFragments, L.Run, L.NoneLate, R.WellTimed, L.AllRingOps, Run, SentBy;
    hide R.CalledSince, L.AllSystemEvents, C.NoDuplicates;
    var second, l1 := MoreFrames(cfg, start, first, l, maxLength);
    NextAckPanics(cfg, start, maxLength, second, l1);
    events := second + [L.Pong(1, 0.0, 0.0, false)];
  }

  /** A late ack: nothing is duplicated, and a ring length of newer frames is cut before the ack comes
      back. */
  lemma {:induction false} LateAckPanics(frame: Frame, buffer: seq<byte>, windowSize: nat, hasTx: bool, rxMode: bool,
                                         tick: Tick, env: Env, maxLength: nat)
    requires NumFragments(|frame|) == 1 && |buffer| == BUFFER_SIZE && tick.accepts
    requires 0 < maxLength < 0xFFFF_FFFF
    ensures var cfg, start := Config(2, Args(1, rxMode)), PlainLoop(buffer, windowSize, hasTx, maxLength);
            exists events: seq<L.Event> ::
              && R.WellTimed(L.AllRingOps(events)) && L.NoDuplicates(events)
              && L.Run(cfg, start, events) == L.RingPanic
  {
    var cfg, start := Config(2, Args(1, rxMode)), PlainLoop(buffer, windowSize, hasTx, maxLength);
    PlainIsReady(buffer, windowSize, hasTx, maxLength);
    var d := DeliveredOnce(cfg, start.sys, frame, tick, false, env);
    hide PlainLoop, L.Initial, NumFragments, L.Run, R.WellTimed, L.AllRingOps, SentBy, Once, Inv;
    hide L.NoDuplicates;
    var events := LateAckRun(cfg, start, maxLength, frame, tick, Deliver(d, false, env));
  }
}
