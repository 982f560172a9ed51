/** ThrottleRate: the rate every admission respects, over all runs, in spite of the cached rate. */
module ThrottleRate {
  import opened Wrappers
  import opened Throttle
  import opened ThrottleRuns

  /** The bytes evicted from the window between an evaluation and a decision; all there were without an
      evaluation. */
  function EvictedSince(gone: seq<Entry>, d: Decision): nat {
    if d.gone > |gone| then 0
    else BytesFrom(gone[..d.gone], if d.eval.None? then 0 else d.eval.value.front)
  }

  /** The bound an admission meets: from the front of the window at the last evaluation onward, the
      admitted bytes are within the budget of the time that had then elapsed, plus what is left of the
      staleness slack after the bytes evicted since. If it was decided on an earlier evaluation, the bytes
      admitted since then, its own included, and the bytes evicted since are below the slack. */
  ghost predicate WithinRate(admitted: seq<Entry>, gone: seq<Entry>, d: Decision, maxError: nat) {
    && d.gone <= |gone|
    && match d.eval
       case None => |admitted| == 1 || (admitted != [] && BytesFrom(admitted, 1) + EvictedSince(gone, d) < maxError)
       case Some(e) =>
         && e.front < |admitted| && admitted[e.front].time <= e.time
         && 8000.0 * BytesFrom(admitted, e.front) as real
            < d.theta * (e.time - admitted[e.front].time) as real
              + 8000.0 * (maxError as real - EvictedSince(gone, d) as real)
         && (e.admitted < |admitted| ==> BytesFrom(admitted, e.admitted) + EvictedSince(gone, d) < maxError)
  }

  /** Without slack, when every call evaluates. */
  ghost predicate WithinRateExactly(admitted: seq<Entry>, d: Decision) {
    match d.eval
    case None => |admitted| == 1
    case Some(e) =>
      && e.front < |admitted| && admitted[e.front].time <= e.time
      && 8000.0 * BytesFrom(admitted, e.front) as real < d.theta * (e.time - admitted[e.front].time) as real
  }

  /** What the last evaluation counted, and the bytes seen since, cover the admissions since its front. */
  ghost predicate Covered(s: Throttler, h: History) {
    match h.eval
    case None =>
      s.lastRate == Mbps(0.0) && (h.admitted != [] ==> BytesFrom(h.admitted, 1) + BytesFrom(h.gone, 0) <= s.accError)
    case Some(e) =>
      && e.front < |h.admitted| && h.admitted[e.front].time <= e.time && e.counted >= 0
      && s.lastRate == RateOf(e.counted, e.time - h.admitted[e.front].time)
      && e.front <= |h.gone| && e.admitted <= |h.admitted|
      && BytesFrom(h.admitted, e.admitted) + BytesFrom(h.gone, e.front) <= s.accError
      && BytesFrom(h.admitted, e.front) + BytesFrom(h.gone, e.front) <= e.counted + s.accError
  }

  predicate NoneLater(entries: seq<Entry>, clock: nat) {
    forall e :: e in entries ==> e.time <= clock
  }

  ghost predicate Tracked(s: Throttler, h: History, clock: nat) {
    && s.windowSize != 1 && s.accError >= 0
    && h.admitted == h.gone + s.window && s.sumBytes == Sum(s.window)
    && (s.window == [] <==> h.admitted == [])
    && NoneLater(h.admitted, clock)
  }

  ghost predicate RateInv(s: Throttler, h: History, clock: nat) {
    && Tracked(s, h, clock)
    && Covered(s, h)
    && s.throttle > 0.0
    && (h.admitted == [] <==> h.decision.None?)
    && (h.decision.Some? ==> WithinRate(h.admitted, h.gone, h.decision.value, s.maxError))
  }

  lemma AskingKeepsRate(s: Throttler, h: History, extra: nat, now: nat, clock: nat)
    requires RateInv(s, h, clock) && clock <= now
    ensures RateInv(CurrentRate(s, extra, now).0, NoteRate(s, h, extra, now), now)
  {
    hide RateOf, WithinRate;
    if Evaluates(s) {
      assert BytesFrom(h.gone, |h.gone|) == 0 && BytesFrom(h.admitted, |h.admitted|) == 0;
      BytesFromConcat(h.gone, s.window);
      assert h.admitted[|h.gone|] == s.window[0];
    }
  }

  lemma AdmitKeepsTracked(s: Throttler, h: History, e: Entry, clock: nat)
    requires Tracked(s, h, clock) && clock <= e.time
    ensures Tracked(Admit(s, e.size, e.time), NoteAdmit(s, h, e), e.time)
  {
    var w := s.window + [e];
    SumConcat(s.window, [e]);
    assert Sum([e]) == e.size + Sum([]);
    assert w[0].size + Sum(w[1..]) == Sum(w);
    assert w == [w[0]] + w[1..];
    assert h.admitted + [e] == h.gone + w;
  }

  /** An admission on a fresh rate: the evaluation counted exactly the window and the new packet. */
  lemma FreshAdmission(s: Throttler, h: History, e: Entry, now: nat, theta: real)
    requires h.admitted == h.gone + s.window && s.window != []
    requires s.sumBytes == Sum(s.window) && s.window[0].time <= now
    requires BelowThrottle(RateOf(s.sumBytes + e.size, now - s.window[0].time), theta)
    ensures var v := Evaluation(now, |h.gone|, |h.admitted| + 1, 0, s.sumBytes + e.size);
            && BytesFrom(h.admitted + [e], v.front) == v.counted
            && WithinRateExactly(h.admitted + [e], Decision(Some(v), theta, |h.gone|))
  {
    BytesFromConcat(h.gone, s.window);
    BytesFromSnoc(h.admitted, e, |h.gone|);
    assert (h.admitted + [e])[|h.gone|] == s.window[0];
    BelowThrottleIsBudget(s.sumBytes + e.size, now - s.window[0].time, theta);
  }

  /** An admission on a cached rate: the bytes seen since the evaluation are still below the slack. */
  lemma CachedAdmission(s: Throttler, h: History, e: Entry, theta: real)
    requires h.admitted != [] && Covered(s, h)
    requires s.accError + e.size < s.maxError && BelowThrottle(s.lastRate, theta)
    ensures WithinRate(h.admitted + [e], h.gone, Decision(h.eval, theta, |h.gone|), s.maxError)
  {
    hide RateOf, BelowThrottle, BytesFrom;
    assert h.gone[..|h.gone|] == h.gone;
    match h.eval
    case None => BytesFromSnoc(h.admitted, e, 1);
    case Some(v) =>
      BytesFromSnoc(h.admitted, e, v.front);
      BytesFromSnoc(h.admitted, e, v.admitted);
      var elapsed: nat := v.time - h.admitted[v.front].time;
      BelowThrottleIsBudget(v.counted, elapsed, theta);
      var budget := theta * elapsed as real;
      assert 8000.0 * v.counted as real < budget;
      var all, evicted := BytesFrom(h.admitted + [e], v.front), BytesFrom(h.gone, v.front);
      assert all + evicted < v.counted + s.maxError;
      assert 8000.0 * all as real < budget + 8000.0 * (s.maxError as real - evicted as real);
  }

  /** Later evictions do not matter to a decision. */
  lemma LaterEvictions(admitted: seq<Entry>, gone: seq<Entry>, more: seq<Entry>, d: Decision, maxError: nat)
    requires WithinRate(admitted, gone, d, maxError)
    ensures WithinRate(admitted, gone + more, d, maxError)
  {
    assert (gone + more)[..d.gone] == gone[..d.gone];
  }

  lemma ExactIsWithin(admitted: seq<Entry>, gone: seq<Entry>, d: Decision, maxError: nat)
    requires WithinRateExactly(admitted, d) && d.eval.Some? && d.gone == |gone| == d.eval.value.front
    requires d.eval.value.admitted == |admitted|
    ensures WithinRate(admitted, gone, d, maxError)
  {
    assert gone[..|gone|] == gone && BytesFrom(gone, |gone|) == 0;
  }

  /** Admitting a packet may evict another after the decision. */
  lemma EvictionKeepsDecision(s: Throttler, h: History, e: Entry)
    requires WithinRate(h.admitted + [e], h.gone, Decision(h.eval, s.throttle, |h.gone|), s.maxError)
    ensures var h' := NoteAdmit(s, h, e);
            h'.decision.Some? && WithinRate(h'.admitted, h'.gone, h'.decision.value, s.maxError)
  {
    var d, evicted := Decision(h.eval, s.throttle, |h.gone|), NoteAdmit(s, h, e).gone[|h.gone|..];
    LaterEvictions(h.admitted + [e], h.gone, evicted, d, s.maxError);
    assert NoteAdmit(s, h, e).gone == h.gone + evicted;
    hide WithinRate;
  }

  lemma AdmissionKeepsCovered(s: Throttler, h: History, e: Entry)
    requires h.admitted != [] && s.accError >= 0
    requires Covered(s.(accError := s.accError - e.size), h)
    ensures Covered(Admit(s, e.size, e.time), NoteAdmit(s, h, e))
  {
    hide RateOf;
    var from := if h.eval.None? then 0 else h.eval.value.front;
    BytesFromSnoc(h.admitted, e, if h.eval.None? then 1 else from);
    if h.eval.Some? {
      BytesFromSnoc(h.admitted, e, h.eval.value.admitted);
    }
    BytesFromSnoc(h.gone, (s.window + [e])[0], from);
    assert h.gone + [] == h.gone;
  }

  lemma FirstExceedsKeepsRate(s: Throttler, h: History, size: nat, t: Reads, clock: nat)
    requires RateInv(s, h, clock) && clock <= t.eval <= t.push && s.window == []
    ensures RateInv(AfterExceedsWith(s, size, t).0, NoteExceedsWith(s, h, size, t), t.push)
  {
    hide RateOf;
    AdmitKeepsTracked(s, h, Entry(t.push, size), clock);
  }

  lemma CachedAdmissionKeepsRate(s: Throttler, h: History, e: Entry, clock: nat)
    requires RateInv(s, h, clock) && clock <= e.time && s.window != []
    requires s.accError + e.size < s.maxError && BelowThrottle(s.lastRate, s.throttle)
    ensures RateInv(Admit(s.(accError := s.accError + e.size), e.size, e.time),
                    NoteAdmit(s, h, e), e.time)
  {
    var s1 := s.(accError := s.accError + e.size);
    CachedAdmission(s, h, e, s.throttle);
    EvictionKeepsDecision(s1, h, e);
    AdmissionKeepsCovered(s1, h, e);
    AdmitKeepsTracked(s1, h, e, clock);
    hide Covered, WithinRate, Tracked;
  }

  lemma CachedExceedsKeepsRate(s: Throttler, h: History, size: nat, t: Reads, clock: nat)
    requires RateInv(s, h, clock) && clock <= t.eval <= t.push && s.window != []
    requires s.accError + size < s.maxError
    ensures RateInv(AfterExceedsWith(s, size, t).0, NoteExceedsWith(s, h, size, t), t.push)
  {
    hide Covered, WithinRate, Admit, BelowThrottle;
    var s1, h1 := s.(accError := s.accError + size), h.(asked := h.asked + [Entry(t.eval, size)]);
    MoreErrorKeepsRate(s, h, Entry(t.eval, size), clock);
    if BelowThrottle(s.lastRate, s.throttle) {
      CachedAdmissionKeepsRate(s, h1, Entry(t.push, size), clock);
    } else {
      LaterKeepsRate(s1, h1, clock, t.push);
    }
    hide RateInv;
  }

  lemma FreshAdmissionKeepsRate(s: Throttler, h: History, e: Entry, now: nat)
    requires Tracked(s, h, now) && now <= e.time && s.window != [] && s.throttle > 0.0
    requires var counted := s.sumBytes + e.size;
             && h.eval == Some(Evaluation(now, |h.gone|, |h.admitted| + 1, 0, counted))
             && s.lastRate == RateOf(counted, now - s.window[0].time) && BelowThrottle(s.lastRate, s.throttle)
    ensures RateInv(Admit(s, e.size, e.time),
                    NoteAdmit(s, h, e), e.time)
  {
    FreshAdmission(s, h, e, now, s.throttle);
    ExactIsWithin(h.admitted + [e], h.gone, Decision(h.eval, s.throttle, |h.gone|), s.maxError);
    EvictionKeepsDecision(s, h, e);
    AdmitKeepsTracked(s, h, e, now);
    BytesFromSnoc(h.gone, (s.window + [e])[0], |h.gone|);
    assert h.gone + [] == h.gone && BytesFrom(h.gone, |h.gone|) == 0;
    assert BytesFrom(h.admitted + [e], |h.admitted| + 1) == 0;
    hide RateOf, WithinRate;
  }

  /** What a computed rate is, and what the computation is noted as. */
  lemma FreshRate(s: Throttler, h: History, extra: nat, now: nat, clock: nat)
    requires RateInv(s, h, clock) && clock <= now && Evaluates(s)
    ensures var s1, h1 := CurrentRate(s, extra, now).0, NoteRate(s, h, extra, now);
            && Tracked(s1, Grant(h1), now) && s1.throttle > 0.0 && s1.window == s.window
            && h1.eval == Some(Evaluation(now, |h1.gone|, |h1.admitted|, extra, s1.sumBytes + extra))
            && s1.lastRate == RateOf(s1.sumBytes + extra, now - s1.window[0].time)
  {
    hide RateOf;
  }

  lemma FreshExceedsKeepsRate(s: Throttler, h: History, size: nat, t: Reads, clock: nat)
    requires RateInv(s, h, clock) && clock <= t.eval <= t.push && s.window != []
    requires s.accError + size >= s.maxError
    ensures RateInv(AfterExceedsWith(s, size, t).0, NoteExceedsWith(s, h, size, t), t.push)
  {
    hide Tracked, Covered, WithinRate, Admit, BelowThrottle, RateOf;
    var s1, h1 := s.(accError := s.accError + size), h.(asked := h.asked + [Entry(t.eval, size)]);
    MoreErrorKeepsRate(s, h, Entry(t.eval, size), clock);
    AskingKeepsRate(s1, h1, size, t.eval, clock);
    FreshRate(s1, h1, size, t.eval, clock);
    hide RateInv;
    var s2, h2 := CurrentRate(s1, size, t.eval).0, NoteRate(s1, h1, size, t.eval);
    if BelowThrottle(s2.lastRate, s.throttle) {
      FreshAdmissionKeepsRate(s2, Grant(h2), Entry(t.push, size), t.eval);
    } else {
      LaterKeepsRate(s2, h2, t.eval, t.push);
    }
  }

  /** Asking about a packet adds its size to the error. */
  lemma MoreErrorKeepsRate(s: Throttler, h: History, e: Entry, clock: nat)
    requires RateInv(s, h, clock)
    ensures RateInv(s.(accError := s.accError + e.size), h.(asked := h.asked + [e]), clock)
    ensures RateInv(s, h.(asked := h.asked + [e]), clock)
  {
  }

  lemma LaterKeepsRate(s: Throttler, h: History, clock: nat, now: nat)
    requires RateInv(s, h, clock) && clock <= now
    ensures RateInv(s, h, now)
  {
  }

  lemma {:induction false} ExceedsKeepsRate(s: Throttler, h: History, size: nat, t: Reads, clock: nat)
    requires RateInv(s, h, clock) && clock <= t.eval <= t.push
    ensures RateInv(AfterExceedsWith(s, size, t).0, NoteExceedsWith(s, h, size, t), t.push)
  {
    hide *;
    if s.window == [] {
      FirstExceedsKeepsRate(s, h, size, t, clock);
    } else if s.accError + size < s.maxError {
      CachedExceedsKeepsRate(s, h, size, t, clock);
    } else {
      FreshExceedsKeepsRate(s, h, size, t, clock);
    }
  }

  /** The rate invariant does not look at the buffer or at the counters. */
  lemma RateIgnoresBuffer(s: Throttler, h: History, clock: nat, s1: Throttler, h1: History)
    requires RateInv(s, h, clock)
    requires s1 == s.(buffer := s1.buffer, frameCount := s1.frameCount)
    requires h1 == h.(consumed := h1.consumed, lasts := h1.lasts, offered := h1.offered, taken := h1.taken,
                      prepares := h1.prepares)
    ensures RateInv(s1, h1, clock)
  {
  }

  lemma {:induction false} SettleKeepsRate(s: Throttler, h: History, sent: bool, t: Reads)
    requires RateInv(s, h, t.push) && t.push <= t.consume && s.buffer != []
    ensures RateInv(AfterSettle(s, sent, t), NoteSettle(s, h, sent, t), t.consume)
  {
    hide RateInv;
    if sent {
      AskingKeepsRate(s, h, 0, t.consume, t.push);
      RateIgnoresBuffer(CurrentRate(s, 0, t.consume).0, NoteRate(s, h, 0, t.consume), t.consume,
                        AfterSettle(s, sent, t), NoteSettle(s, h, sent, t));
    } else {
      LaterKeepsRate(s, h, t.push, t.consume);
    }
  }

  lemma {:induction false} TryKeepsRate(s: Throttler, h: History, t: Reads, sent: bool, clock: nat)
    requires RateInv(s, h, clock) && InOrder(clock, Try(t, sent))
    ensures RateInv(AfterTryConsume(s, t, sent).0, NoteTry(s, h, t, sent), t.consume)
  {
    hide AfterExceedsWith, NoteExceedsWith, RateInv, AfterSettle, NoteSettle;
    if s.buffer == [] {
      LaterKeepsRate(s, h, clock, t.consume);
    } else {
      var size := s.buffer[0].packet.length;
      ExceedsWithFrame(s, size, t);
      ExceedsKeepsRate(s, h, size, t, clock);
      var (s1, exceeded) := AfterExceedsWith(s, size, t);
      var h1 := NoteExceedsWith(s, h, size, t);
      if exceeded {
        LaterKeepsRate(s1, h1, t.push, t.consume);
      } else {
        SettleKeepsRate(s1, h1, sent, t);
      }
    }
  }

  lemma StepKeepsRate(x: Traced, op: Op, clock: nat)
    requires RateInv(x.s, x.h, clock) && InOrder(clock, op)
    requires op.SetThrottle? ==> op.theta > 0.0
    ensures RateInv(Step(x, op).s, Step(x, op).h, LastRead(op, clock))
  {
    hide RateOf, AfterTryConsume, NoteTry, CurrentRate, NoteRate;
    match op
    case Prepare(packets, now) =>
      AskingKeepsRate(x.s, x.h, 0, now, clock);
      RateIgnoresBuffer(CurrentRate(x.s, 0, now).0, NoteRate(x.s, x.h, 0, now), now, Step(x, op).s, Step(x, op).h);
    case SetThrottle(_) =>
    case Reset =>
    case Try(t, sent) => TryKeepsRate(x.s, x.h, t, sent, clock);
  }

  lemma {:induction false} RunKeepsRate(s: Throttler, ops: seq<Op>)
    requires RateInv(s, NO_HISTORY, 0) && WellTimed(ops) && PositiveThrottles(ops)
    ensures RateInv(Run(s, ops).s, Run(s, ops).h, Clock(ops))
  {
    hide Step;
    if ops != [] {
      RunKeepsRate(s, ops[..|ops| - 1]);
      StepKeepsRate(Run(s, ops[..|ops| - 1]), ops[|ops| - 1], Clock(ops[..|ops| - 1]));
    }
  }

  /** The staleness slack in bytes: 1472 for every hundred entries of the window, and none after a reset. */
  function SlackOf(windowSize: nat, ops: seq<Op>): nat {
    if Reset in ops then 0 else windowSize / 100 * 1472
  }

  lemma {:induction false} SlackIs(theta: real, windowSize: nat, infinite: bool, ops: seq<Op>)
    ensures Run(Fresh(theta, windowSize, infinite), ops).s.maxError == SlackOf(windowSize, ops)
  {
    hide AfterExceedsWith, AfterSettle, CurrentRate;
    if ops != [] {
      var before, op := ops[..|ops| - 1], ops[|ops| - 1];
      SlackIs(theta, windowSize, infinite, before);
      StepKeepsSlack(Run(Fresh(theta, windowSize, infinite), before), op);
      hide Step;
      assert ops == before + [op];
    }
  }

  lemma StepKeepsSlack(x: Traced, op: Op)
    ensures Step(x, op).s.maxError == if op.Reset? then 0 else x.s.maxError
  {
    if op.Try? && x.s.buffer != [] {
      ExceedsWithFrame(x.s, x.s.buffer[0].packet.length, op.t);
    }
  }

  /** Rate bound: in every run of a throttler with a window other than one, under positive throttles
      that may change during the run, the latest admission (hence, taking prefixes of the run, every
      admission) leaves the bytes admitted since the front of the last evaluation within the throttle's
      budget plus the slack less the bytes evicted since; before any evaluation the bytes after the first packet
      and those evicted are below the slack. */
  lemma RateBound(theta: real, windowSize: nat, infinite: bool, ops: seq<Op>)
    requires windowSize != 1 && theta > 0.0
    requires WellTimed(ops) && PositiveThrottles(ops)
    ensures var x := Run(Fresh(theta, windowSize, infinite), ops);
            && (x.h.admitted != [] <==> x.h.decision.Some?)
            && (x.h.decision.Some? ==> WithinRate(x.h.admitted, x.h.gone, x.h.decision.value, SlackOf(windowSize, ops)))
  {
    hide Step, RateOf, SlackOf;
    RunKeepsRate(Fresh(theta, windowSize, infinite), ops);
    SlackIs(theta, windowSize, infinite, ops);
  }

  /** Then every admission after the first meets the budget of its evaluation exactly. */
  lemma RateBoundWithoutSlack(theta: real, windowSize: nat, infinite: bool, ops: seq<Op>)
    requires windowSize != 1 && theta > 0.0 && (windowSize < 100 || Reset in ops)
    requires WellTimed(ops) && PositiveThrottles(ops)
    ensures var x := Run(Fresh(theta, windowSize, infinite), ops);
            && (x.h.admitted != [] <==> x.h.decision.Some?)
            && (x.h.decision.Some? ==> WithinRateExactly(x.h.admitted, x.h.decision.value))
  {
    hide Step, Run;
    RateBound(theta, windowSize, infinite, ops);
  }

  // ---------------------------------------------------------------------------------------------
  // A window of size one never throttles

  /** With a window of one entry the window is empty after every operation, so no attempt is ever held
      back, whatever the throttle. */
  lemma {:induction false} WindowOfOneNeverThrottles(theta: real, infinite: bool, ops: seq<Op>, t: Reads, sent: bool)
    ensures var x := Run(Fresh(theta, 1, infinite), ops);
            && x.s.window == [] && x.s.windowSize == 1
            && AfterTryConsume(x.s, t, sent).1 != Throttled
  {
    if ops != [] {
      WindowOfOneNeverThrottles(theta, infinite, ops[..|ops| - 1], t, sent);
      StepKeepsEmptyWindow(Run(Fresh(theta, 1, infinite), ops[..|ops| - 1]), ops[|ops| - 1]);
    }
  }

  lemma StepKeepsEmptyWindow(x: Traced, op: Op)
    requires x.s.windowSize == 1 && x.s.window == []
    ensures Step(x, op).s.window == [] && Step(x, op).s.windowSize == 1
  {
  }
}
