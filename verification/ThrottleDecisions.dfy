/** ThrottleDecisions: exactly when an attempt is held back, from the history of the run. */
module ThrottleDecisions {
  import opened Throttle
  import opened ThrottleRuns
  import opened ThrottleRate

  /** The bytes asked about and the bytes evicted since the error last started over. */
  function StaleBytes(h: History): nat {
    BytesFrom(h.asked, h.base.asked) + BytesFrom(h.gone, h.base.gone)
  }

  /** The staleness error counts exactly these bytes. */
  ghost predicate ErrorKept(s: Throttler, h: History) {
    h.base.asked <= |h.asked| && h.base.gone <= |h.gone| && s.accError == StaleBytes(h)
  }

  lemma AskingKeepsError(s: Throttler, h: History, extra: nat, now: nat)
    requires ErrorKept(s, h)
    ensures ErrorKept(CurrentRate(s, extra, now).0, NoteRate(s, h, extra, now))
  {
    hide RateOf;
    assert BytesFrom(h.asked, |h.asked|) == 0 && BytesFrom(h.gone, |h.gone|) == 0;
  }

  lemma AdmitKeepsError(s: Throttler, h: History, e: Entry)
    requires ErrorKept(s, h)
    ensures ErrorKept(Admit(s, e.size, e.time), NoteAdmit(s, h, e))
  {
    BytesFromSnoc(h.gone, (s.window + [e])[0], h.base.gone);
    assert h.gone + [] == h.gone;
  }

  lemma {:induction false} ExceedsKeepsError(s: Throttler, h: History, size: nat, t: Reads)
    requires ErrorKept(s, h)
    ensures ErrorKept(AfterExceedsWith(s, size, t).0, NoteExceedsWith(s, h, size, t))
  {
    hide RateOf, BelowThrottle;
    var e := Entry(t.push, size);
    if s.throttle == 0.0 || s.window == [] {
      AdmitKeepsError(s, h, e);
    } else {
      var s1, h1 := s.(accError := s.accError + size), h.(asked := h.asked + [Entry(t.eval, size)]);
      BytesFromSnoc(h.asked, Entry(t.eval, size), h.base.asked);
      AskingKeepsError(s1, h1, size, t.eval);
      AdmitKeepsError(CurrentRate(s1, size, t.eval).0, NoteRate(s1, h1, size, t.eval), e);
      hide ErrorKept, Admit;
    }
  }

  lemma SettleKeepsError(s: Throttler, h: History, sent: bool, t: Reads)
    requires ErrorKept(s, h) && s.buffer != []
    ensures ErrorKept(AfterSettle(s, sent, t), NoteSettle(s, h, sent, t))
  {
    AskingKeepsError(s, h, 0, t.consume);
    hide RateOf, BytesFrom;
  }

  lemma {:induction false} StepKeepsError(x: Traced, op: Op)
    requires ErrorKept(x.s, x.h)
    ensures ErrorKept(Step(x, op).s, Step(x, op).h)
  {
    hide AfterExceedsWith, NoteExceedsWith, AfterSettle, NoteSettle, CurrentRate, NoteRate, ErrorKept;
    match op
    case Prepare(packets, now) =>
      AskingKeepsError(x.s, x.h, 0, now);
      ErrorIgnoresBuffer(CurrentRate(x.s, 0, now).0, NoteRate(x.s, x.h, 0, now), Step(x, op).s, Step(x, op).h);
    case SetThrottle(_) => ErrorIgnoresBuffer(x.s, x.h, Step(x, op).s, x.h);
    case Reset => NothingIsStale(Step(x, op).s, Step(x, op).h);
    case Try(t, sent) =>
      if x.s.buffer != [] {
        var size := x.s.buffer[0].packet.length;
        ExceedsWithFrame(x.s, size, t);
        ExceedsKeepsError(x.s, x.h, size, t);
        SettleKeepsError(AfterExceedsWith(x.s, size, t).0, NoteExceedsWith(x.s, x.h, size, t), sent, t);
      }
  }

  lemma ErrorIgnoresBuffer(s: Throttler, h: History, s1: Throttler, h1: History)
    requires ErrorKept(s, h) && s1.accError == s.accError
    requires h1.asked == h.asked && h1.gone == h.gone && h1.base == h.base
    ensures ErrorKept(s1, h1)
  {
  }

  lemma NothingIsStale(s: Throttler, h: History)
    requires s.accError == 0 && h.asked == [] && h.gone == [] && h.base == Base(0, 0)
    ensures ErrorKept(s, h)
  {
  }

  /** The staleness error: after any run, under any throttles and across resets, it is the bytes that the rate
      was asked about, admitted or not, and the bytes evicted from the window, since it last reached the
      slack when the rate was asked for. */
  lemma {:induction false} ErrorIsStaleBytes(theta: real, windowSize: nat, infinite: bool, ops: seq<Op>)
    ensures var x := Run(Fresh(theta, windowSize, infinite), ops); ErrorKept(x.s, x.h)
  {
    hide Step, ErrorKept;
    if ops == [] {
      FreshHasNoError(theta, windowSize, infinite);
    } else {
      ErrorIsStaleBytes(theta, windowSize, infinite, ops[..|ops| - 1]);
      StepKeepsError(Run(Fresh(theta, windowSize, infinite), ops[..|ops| - 1]), ops[|ops| - 1]);
    }
  }

  lemma FreshHasNoError(theta: real, windowSize: nat, infinite: bool)
    ensures ErrorKept(Fresh(theta, windowSize, infinite), NO_HISTORY)
  {
  }

  // ---------------------------------------------------------------------------------------------
  // The cached rate

  /** The cached rate is that of the last evaluation: the bytes admitted from the front of the window then,
      with the size asked about, over the time since that admission. */
  ghost predicate RateKept(s: Throttler, h: History, clock: nat) {
    && Tracked(s, h, clock)
    && match h.eval
       case None => s.lastRate == Mbps(0.0)
       case Some(e) =>
         && e.front < e.admitted <= |h.admitted| && h.admitted[e.front].time <= e.time
         && e.counted == BytesFrom(h.admitted[..e.admitted], e.front) + e.extra
         && s.lastRate == RateOf(e.counted, e.time - h.admitted[e.front].time)
  }

  lemma AskingKeepsCached(s: Throttler, h: History, extra: nat, now: nat, clock: nat)
    requires RateKept(s, h, clock) && clock <= now
    ensures RateKept(CurrentRate(s, extra, now).0, NoteRate(s, h, extra, now), now)
  {
    hide RateOf;
    if Evaluates(s) {
      BytesFromConcat(h.gone, s.window);
      assert h.admitted[..|h.admitted|] == h.admitted && h.admitted[|h.gone|] == s.window[0];
    }
  }

  lemma AdmitKeepsCached(s: Throttler, h: History, e: Entry, clock: nat)
    requires RateKept(s, h, clock) && clock <= e.time
    ensures RateKept(Admit(s, e.size, e.time), NoteAdmit(s, h, e), e.time)
  {
    AdmitKeepsTracked(s, h, e, clock);
    hide Tracked, RateOf, BytesFrom;
    if h.eval.Some? {
      assert (h.admitted + [e])[..h.eval.value.admitted] == h.admitted[..h.eval.value.admitted];
    }
  }

  /** A packet admitted on its own evaluation had been counted by it. */
  lemma GrantKeepsCached(s: Throttler, h: History, e: Entry, clock: nat)
    requires RateKept(s, h, clock) && clock <= e.time && h.eval.Some?
    requires h.eval.value.admitted == |h.admitted| && h.eval.value.extra == e.size
    ensures RateKept(Admit(s, e.size, e.time), NoteAdmit(s, Grant(h), e), e.time)
  {
    AdmitKeepsTracked(s, h, e, clock);
    var v, all := h.eval.value, h.admitted + [e];
    assert h.admitted[..|h.admitted|] == h.admitted && all[..|all|] == all;
    BytesFromSnoc(h.admitted, e, v.front);
    hide RateOf, BytesFrom;
  }

  lemma LaterKeepsCached(s: Throttler, h: History, clock: nat, now: nat)
    requires RateKept(s, h, clock) && clock <= now
    ensures RateKept(s, h, now)
  {
  }

  lemma AskedKeepsCached(s: Throttler, h: History, e: Entry, clock: nat)
    requires RateKept(s, h, clock)
    ensures RateKept(s.(accError := s.accError + e.size), h.(asked := h.asked + [e]), clock)
  {
    hide RateOf;
  }

  lemma {:induction false} ExceedsKeepsCached(s: Throttler, h: History, size: nat, t: Reads, clock: nat)
    requires RateKept(s, h, clock) && clock <= t.eval <= t.push
    ensures RateKept(AfterExceedsWith(s, size, t).0, NoteExceedsWith(s, h, size, t), t.push)
  {
    hide RateOf, BelowThrottle, RateKept, Admit;
    var e := Entry(t.push, size);
    if s.throttle == 0.0 || s.window == [] {
      AdmitKeepsCached(s, h, e, clock);
    } else {
      var s1, h1 := s.(accError := s.accError + size), h.(asked := h.asked + [Entry(t.eval, size)]);
      AskedKeepsCached(s, h, Entry(t.eval, size), clock);
      AskingKeepsCached(s1, h1, size, t.eval, clock);
      var s2, h2 := CurrentRate(s1, size, t.eval).0, NoteRate(s1, h1, size, t.eval);
      if Evaluates(s1) {
        GrantKeepsCached(s2, h2, e, t.eval);
      } else {
        AdmitKeepsCached(s2, h2, e, t.eval);
      }
      LaterKeepsCached(s2, h2, t.eval, t.push);
    }
  }

  lemma CachedIgnoresBuffer(s: Throttler, h: History, clock: nat, s1: Throttler, h1: History)
    requires RateKept(s, h, clock)
    requires s1 == s.(buffer := s1.buffer, frameCount := s1.frameCount, throttle := s1.throttle)
    requires h1 == h.(consumed := h1.consumed, lasts := h1.lasts, offered := h1.offered, taken := h1.taken,
                      prepares := h1.prepares)
    ensures RateKept(s1, h1, clock)
  {
    hide RateOf;
  }

  lemma {:induction false} SettleKeepsCached(s: Throttler, h: History, sent: bool, t: Reads)
    requires RateKept(s, h, t.push) && t.push <= t.consume && s.buffer != []
    ensures RateKept(AfterSettle(s, sent, t), NoteSettle(s, h, sent, t), t.consume)
  {
    hide RateKept;
    if sent {
      AskingKeepsCached(s, h, 0, t.consume, t.push);
      CachedIgnoresBuffer(CurrentRate(s, 0, t.consume).0, NoteRate(s, h, 0, t.consume), t.consume,
                          AfterSettle(s, sent, t), NoteSettle(s, h, sent, t));
    } else {
      LaterKeepsCached(s, h, t.push, t.consume);
    }
  }

  lemma {:induction false} StepKeepsCached(x: Traced, op: Op, clock: nat)
    requires RateKept(x.s, x.h, clock) && InOrder(clock, op)
    ensures RateKept(Step(x, op).s, Step(x, op).h, LastRead(op, clock))
  {
    hide AfterExceedsWith, NoteExceedsWith, AfterSettle, NoteSettle, CurrentRate, NoteRate, RateKept;
    match op
    case Prepare(packets, now) =>
      AskingKeepsCached(x.s, x.h, 0, now, clock);
      CachedIgnoresBuffer(CurrentRate(x.s, 0, now).0, NoteRate(x.s, x.h, 0, now), now, Step(x, op).s, Step(x, op).h);
    case SetThrottle(_) => CachedIgnoresBuffer(x.s, x.h, clock, Step(x, op).s, x.h);
    case Reset => ResetKeepsCached(x, clock);
    case Try(t, sent) =>
      if x.s.buffer == [] {
        LaterKeepsCached(x.s, x.h, clock, t.consume);
      } else {
        var size := x.s.buffer[0].packet.length;
        ExceedsWithFrame(x.s, size, t);
        ExceedsKeepsCached(x.s, x.h, size, t, clock);
        var s1, h1 := AfterExceedsWith(x.s, size, t).0, NoteExceedsWith(x.s, x.h, size, t);
        if AfterExceedsWith(x.s, size, t).1 {
          LaterKeepsCached(s1, h1, t.push, t.consume);
        } else {
          SettleKeepsCached(s1, h1, sent, t);
        }
      }
  }

  lemma ResetKeepsCached(x: Traced, clock: nat)
    requires RateKept(x.s, x.h, clock)
    ensures RateKept(Step(x, Reset).s, Step(x, Reset).h, clock)
  {
    hide RateOf;
  }

  lemma {:induction false} RunKeepsCached(theta: real, windowSize: nat, infinite: bool, ops: seq<Op>)
    requires windowSize != 1 && WellTimed(ops)
    ensures var x := Run(Fresh(theta, windowSize, infinite), ops); RateKept(x.s, x.h, Clock(ops))
  {
    hide Step, RateKept;
    if ops == [] {
      FreshIsCached(theta, windowSize, infinite);
    } else {
      RunKeepsCached(theta, windowSize, infinite, ops[..|ops| - 1]);
      StepKeepsCached(Run(Fresh(theta, windowSize, infinite), ops[..|ops| - 1]), ops[|ops| - 1],
                      Clock(ops[..|ops| - 1]));
    }
  }

  lemma FreshIsCached(theta: real, windowSize: nat, infinite: bool)
    requires windowSize != 1
    ensures RateKept(Fresh(theta, windowSize, infinite), NO_HISTORY, 0)
  {
  }

  // ---------------------------------------------------------------------------------------------
  // The decision

  /** The throttle last set. */
  function LastThrottle(theta: real, ops: seq<Op>): real {
    if ops == [] then theta
    else if ops[|ops| - 1].SetThrottle? then ops[|ops| - 1].theta
    else LastThrottle(theta, ops[..|ops| - 1])
  }

  lemma {:induction false} SettingsAre(theta: real, windowSize: nat, infinite: bool, ops: seq<Op>)
    ensures var s := Run(Fresh(theta, windowSize, infinite), ops).s;
            s.throttle == LastThrottle(theta, ops) && s.maxError == SlackOf(windowSize, ops)
  {
    if ops != [] {
      var before, op := ops[..|ops| - 1], ops[|ops| - 1];
      SettingsAre(theta, windowSize, infinite, before);
      var x := Run(Fresh(theta, windowSize, infinite), before);
      StepKeepsThrottle(x, op);
      hide Step;
    }
    SlackIs(theta, windowSize, infinite, ops);
  }

  lemma StepKeepsThrottle(x: Traced, op: Op)
    ensures Step(x, op).s.throttle == if op.SetThrottle? then op.theta else x.s.throttle
  {
    if op.Try? && x.s.buffer != [] {
      ExceedsWithFrame(x.s, x.s.buffer[0].packet.length, op.t);
    }
    hide AfterExceedsWith;
  }

  predicate WithinBudget(bytes: nat, elapsed: int, theta: real) {
    8000.0 * bytes as real < theta * elapsed as real
  }

  /** Whether a packet of `size` bytes passes at time `now`: without a throttle or with an empty window always;
      while the stale bytes and its own are below the slack, if the last evaluation was within the budget;
      and otherwise if the window and the packet are now. */
  predicate Passes(h: History, theta: real, slack: nat, size: nat, now: nat) {
    theta == 0.0 || |h.gone| >= |h.admitted|
    || if StaleBytes(h) + size < slack then
         (match h.eval
          case None => theta > 0.0
          case Some(e) =>
            e.front < e.admitted <= |h.admitted|
            && WithinBudget(BytesFrom(h.admitted[..e.admitted], e.front) + e.extra,
                            e.time - h.admitted[e.front].time, theta))
       else WithinBudget(BytesFrom(h.admitted, |h.gone|) + size, now - h.admitted[|h.gone|].time, theta)
  }

  lemma ExceedsUnlessPasses(s: Throttler, h: History, clock: nat, size: nat, t: Reads)
    requires ErrorKept(s, h) && RateKept(s, h, clock) && clock <= t.eval
    ensures AfterExceedsWith(s, size, t).1 == !Passes(h, s.throttle, s.maxError, size, t.eval)
  {
    hide StaleBytes, Admit, RateOf, BelowThrottle, WithinBudget;
    if s.window != [] {
      FreshBudget(s, h, clock, size, t.eval);
      CachedBudget(s, h, clock);
    }
    hide BytesFrom, Sum;
  }

  lemma FreshBudget(s: Throttler, h: History, clock: nat, size: nat, now: nat)
    requires RateKept(s, h, clock) && clock <= now && s.window != []
    ensures |h.gone| < |h.admitted| && h.admitted[|h.gone|] == s.window[0] && s.sumBytes >= 0
    ensures BelowThrottle(RateOf(s.sumBytes + size, now - s.window[0].time), s.throttle)
            <==> WithinBudget(BytesFrom(h.admitted, |h.gone|) + size, now - s.window[0].time, s.throttle)
  {
    BytesFromConcat(h.gone, s.window);
    assert h.admitted[|h.gone|] == s.window[0];
    BelowThrottleIsBudget(s.sumBytes + size, now - s.window[0].time, s.throttle);
    hide RateOf, BelowThrottle;
  }

  lemma CachedBudget(s: Throttler, h: History, clock: nat)
    requires RateKept(s, h, clock)
    ensures match h.eval
            case None => BelowThrottle(s.lastRate, s.throttle) <==> s.throttle > 0.0
            case Some(e) =>
              e.front < e.admitted <= |h.admitted|
              && (BelowThrottle(s.lastRate, s.throttle)
                  <==> WithinBudget(BytesFrom(h.admitted[..e.admitted], e.front) + e.extra,
                                    e.time - h.admitted[e.front].time, s.throttle))
  {
    if h.eval.Some? {
      var e := h.eval.value;
      BelowThrottleIsBudget(e.counted, e.time - h.admitted[e.front].time, s.throttle);
      hide RateOf;
    }
  }

  /** The decision is exact: after any run of a throttler with a window other than one, under any throttles and
      across resets, an attempt finds the queue empty, or is held back exactly when its head packet does not
      pass by the history, or else hands it to the socket and consumes it if the socket takes it. */
  lemma {:induction false} DecisionIsExact(theta: real, windowSize: nat, infinite: bool, ops: seq<Op>, t: Reads,
                                           sent: bool)
    requires windowSize != 1 && WellTimed(ops) && Clock(ops) <= t.eval
    ensures var x := Run(Fresh(theta, windowSize, infinite), ops);
            AfterTryConsume(x.s, t, sent).1
            == if x.s.buffer == [] then Idle
               else if !Passes(x.h, LastThrottle(theta, ops), SlackOf(windowSize, ops),
                               x.s.buffer[0].packet.length, t.eval) then Throttled
               else if sent then Consumed(x.s.buffer[0]) else Refused
  {
    hide Run, WellTimed, Passes, ErrorKept, RateKept, AfterExceedsWith, AfterSettle;
    ErrorIsStaleBytes(theta, windowSize, infinite, ops);
    RunKeepsCached(theta, windowSize, infinite, ops);
    SettingsAre(theta, windowSize, infinite, ops);
    var x := Run(Fresh(theta, windowSize, infinite), ops);
    if x.s.buffer != [] {
      ExceedsUnlessPasses(x.s, x.h, Clock(ops), x.s.buffer[0].packet.length, t);
    }
  }
}
