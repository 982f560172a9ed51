/** ThrottleTotal: the bytes of a whole run, by chaining the windows of its admissions. */
module ThrottleTotal {
  import opened Arithmetic
  import opened Throttle
  import opened ThrottleRuns
  import opened ThrottleRate

  /** Frames are prepared and packets tried; the throttle stays. */
  predicate Steady(ops: seq<Op>) {
    forall i :: 0 <= i < |ops| ==> ops[i].Prepare? || ops[i].Try?
  }

  /** An evaluation whose window was full, unless nothing had been evicted yet, with `m` admissions made. */
  predicate FullWindow(e: Evaluation, m: nat, windowSize: nat) {
    e.front == 0 || e.front + windowSize <= m
  }

  /** The bound of an admission, evictions aside: the budget and the whole slack. */
  ghost predicate WithinFullSlack(admitted: seq<Entry>, d: Decision, maxError: nat) {
    match d.eval
    case None => |admitted| == 1 || (admitted != [] && BytesFrom(admitted, 1) < maxError)
    case Some(e) =>
      && e.front < |admitted| && admitted[e.front].time <= e.time
      && 8000.0 * BytesFrom(admitted, e.front) as real
         < d.theta * (e.time - admitted[e.front].time) as real + 8000.0 * maxError as real
  }

  lemma SlackIsEnough(admitted: seq<Entry>, gone: seq<Entry>, d: Decision, maxError: nat)
    requires WithinRate(admitted, gone, d, maxError)
    ensures WithinFullSlack(admitted, d, maxError)
  {
    assert EvictedSince(gone, d) >= 0;
    hide EvictedSince, BytesFrom;
  }

  /** The `m`-th admission was granted within the rate, by an evaluation that was not later and, unless it
      began with the first admission, at least a window back. */
  ghost predicate GrantedBy(admitted: seq<Entry>, m: nat, d: Decision, windowSize: nat, maxError: nat)
    requires 1 <= m <= |admitted|
  {
    && WithinFullSlack(admitted[..m], d, maxError)
    && (d.eval.Some? ==> d.eval.value.time <= admitted[m - 1].time && FullWindow(d.eval.value, m, windowSize))
  }

  ghost predicate Granted(admitted: seq<Entry>, m: nat, theta: real, windowSize: nat, maxError: nat)
    requires 1 <= m <= |admitted|
  {
    exists d: Decision :: d.theta == theta && GrantedBy(admitted, m, d, windowSize, maxError)
  }

  ghost predicate AllGranted(admitted: seq<Entry>, theta: real, windowSize: nat, maxError: nat) {
    forall m :: 1 <= m <= |admitted| ==> Granted(admitted, m, theta, windowSize, maxError)
  }

  predicate InTimeOrder(entries: seq<Entry>) {
    forall i, j :: 0 <= i <= j < |entries| ==> entries[i].time <= entries[j].time
  }

  /** Once something was evicted the window stays full, and so it was at the last evaluation and decision. */
  ghost predicate Filled(s: Throttler, h: History, clock: nat, theta: real) {
    && s.windowSize != 1 && s.throttle == theta
    && |h.admitted| == |h.gone| + |s.window|
    && (s.windowSize > 0 ==> |s.window| < s.windowSize)
    && (h.gone != [] ==> |s.window| + 1 == s.windowSize)
    && (h.eval.Some? ==> h.eval.value.time <= clock && FullWindow(h.eval.value, |h.admitted| + 1, s.windowSize))
    && (h.decision.Some? ==> h.admitted != [] && h.decision.value.theta == theta)
    && (h.decision.Some? && h.decision.value.eval.Some? ==>
          && h.decision.value.eval.value.time <= h.admitted[|h.admitted| - 1].time
          && FullWindow(h.decision.value.eval.value, |h.admitted|, s.windowSize))
    && InTimeOrder(h.admitted) && NoneLater(h.admitted, clock)
  }

  lemma AskingKeepsFilled(s: Throttler, h: History, extra: nat, now: nat, clock: nat, theta: real)
    requires Filled(s, h, clock, theta) && clock <= now
    ensures Filled(CurrentRate(s, extra, now).0, NoteRate(s, h, extra, now), now, theta)
  {
    hide RateOf;
  }

  lemma AdmitKeepsFilled(s: Throttler, h: History, e: Entry, clock: nat, theta: real)
    requires Filled(s, h, clock, theta) && clock <= e.time
    ensures Filled(Admit(s, e.size, e.time), NoteAdmit(s, h, e), e.time, theta)
  {
    assert forall x :: x in h.admitted + [e] ==> x in h.admitted || x == e;
    assert forall i :: 0 <= i < |h.admitted| ==> h.admitted[i] in h.admitted;
  }

  lemma LaterKeepsFilled(s: Throttler, h: History, clock: nat, now: nat, theta: real)
    requires Filled(s, h, clock, theta) && clock <= now
    ensures Filled(s, h, now, theta)
  {
  }

  lemma {:induction false} ExceedsKeepsFilled(s: Throttler, h: History, size: nat, t: Reads, clock: nat, theta: real)
    requires Filled(s, h, clock, theta) && clock <= t.eval <= t.push
    ensures Filled(AfterExceedsWith(s, size, t).0, NoteExceedsWith(s, h, size, t), t.push, theta)
  {
    hide RateOf, BelowThrottle, InTimeOrder, NoneLater;
    var s1 := s.(accError := s.accError + size);
    if s.throttle == 0.0 || s.window == [] {
      AdmitKeepsFilled(s, h, Entry(t.push, size), clock, theta);
    } else {
      var h1 := h.(asked := h.asked + [Entry(t.eval, size)]);
      AskingKeepsFilled(s1, h1, size, t.eval, clock, theta);
      var s2, h2 := CurrentRate(s1, size, t.eval).0, NoteRate(s1, h1, size, t.eval);
      AdmitKeepsFilled(s2, h2, Entry(t.push, size), t.eval, theta);
      LaterKeepsFilled(s2, h2, t.eval, t.push, theta);
      hide Filled, Admit, NoteAdmit;
    }
  }

  lemma FilledIgnoresBuffer(s: Throttler, h: History, clock: nat, theta: real, s1: Throttler, h1: History)
    requires Filled(s, h, clock, theta)
    requires s1 == s.(buffer := s1.buffer, frameCount := s1.frameCount)
    requires h1 == h.(consumed := h1.consumed, lasts := h1.lasts, offered := h1.offered, taken := h1.taken,
                      prepares := h1.prepares)
    ensures Filled(s1, h1, clock, theta)
  {
  }

  lemma {:induction false} SettleKeepsFilled(s: Throttler, h: History, sent: bool, t: Reads, theta: real)
    requires Filled(s, h, t.push, theta) && t.push <= t.consume && s.buffer != []
    ensures Filled(AfterSettle(s, sent, t), NoteSettle(s, h, sent, t), t.consume, theta)
  {
    hide Filled;
    if sent {
      AskingKeepsFilled(s, h, 0, t.consume, t.push, theta);
      FilledIgnoresBuffer(CurrentRate(s, 0, t.consume).0, NoteRate(s, h, 0, t.consume), t.consume, theta,
                          AfterSettle(s, sent, t), NoteSettle(s, h, sent, t));
    } else {
      LaterKeepsFilled(s, h, t.push, t.consume, theta);
    }
  }

  lemma {:induction false} StepKeepsFilled(x: Traced, op: Op, clock: nat, theta: real)
    requires Filled(x.s, x.h, clock, theta) && InOrder(clock, op) && (op.Prepare? || op.Try?)
    ensures Filled(Step(x, op).s, Step(x, op).h, LastRead(op, clock), theta)
  {
    hide AfterExceedsWith, NoteExceedsWith, Filled, AfterSettle, NoteSettle, CurrentRate, NoteRate;
    match op
    case Prepare(packets, now) =>
      AskingKeepsFilled(x.s, x.h, 0, now, clock, theta);
      FilledIgnoresBuffer(CurrentRate(x.s, 0, now).0, NoteRate(x.s, x.h, 0, now), now, theta,
                          Step(x, op).s, Step(x, op).h);
    case Try(t, sent) =>
      if x.s.buffer == [] {
        LaterKeepsFilled(x.s, x.h, clock, t.consume, theta);
      } else {
        var size := x.s.buffer[0].packet.length;
        ExceedsWithFrame(x.s, size, t);
        ExceedsKeepsFilled(x.s, x.h, size, t, clock, theta);
        var s1, h1 := AfterExceedsWith(x.s, size, t).0, NoteExceedsWith(x.s, x.h, size, t);
        if AfterExceedsWith(x.s, size, t).1 {
          LaterKeepsFilled(s1, h1, t.push, t.consume, theta);
        } else {
          SettleKeepsFilled(s1, h1, sent, t, theta);
        }
      }
  }

  /** A step admits nothing, or one packet. */
  lemma StepAdmits(x: Traced, op: Op)
    requires op.Prepare? || op.Try?
    ensures var h := Step(x, op).h; h.admitted == x.h.admitted || exists e :: h.admitted == x.h.admitted + [e]
  {
    hide AfterExceedsWith, AfterSettle, CurrentRate;
  }

  lemma LatestGranted(s: Throttler, h: History, clock: nat, theta: real)
    requires Filled(s, h, clock, theta) && RateInv(s, h, clock) && h.admitted != []
    ensures h.decision.Some? && GrantedBy(h.admitted, |h.admitted|, h.decision.value, s.windowSize, s.maxError)
    ensures h.decision.value.theta == theta
  {
    assert h.admitted[..|h.admitted|] == h.admitted;
    SlackIsEnough(h.admitted, h.gone, h.decision.value, s.maxError);
    hide WithinRate, WithinFullSlack, Covered;
  }

  lemma {:induction false} GrantedStay(admitted: seq<Entry>, e: Entry, theta: real, windowSize: nat, maxError: nat)
    requires AllGranted(admitted, theta, windowSize, maxError)
    requires Granted(admitted + [e], |admitted| + 1, theta, windowSize, maxError)
    ensures AllGranted(admitted + [e], theta, windowSize, maxError)
  {
    var all := admitted + [e];
    forall m | 1 <= m <= |all|
      ensures Granted(all, m, theta, windowSize, maxError)
    {
      if m <= |admitted| {
        assert Granted(admitted, m, theta, windowSize, maxError);
        var d: Decision :| d.theta == theta && GrantedBy(admitted, m, d, windowSize, maxError);
        assert all[..m] == admitted[..m];
        assert GrantedBy(all, m, d, windowSize, maxError);
      }
    }
  }

  lemma {:induction false} RunKeepsGranted(s: Throttler, ops: seq<Op>, theta: real)
    requires RateInv(s, NO_HISTORY, 0) && Filled(s, NO_HISTORY, 0, theta)
    requires WellTimed(ops) && Steady(ops)
    ensures var x := Run(s, ops);
            && Filled(x.s, x.h, Clock(ops), theta) && RateInv(x.s, x.h, Clock(ops))
            && x.s.windowSize == s.windowSize && x.s.maxError == s.maxError
            && AllGranted(x.h.admitted, theta, s.windowSize, s.maxError)
  {
    hide Step, Filled, RateInv, GrantedBy;
    if ops != [] {
      var before, op := ops[..|ops| - 1], ops[|ops| - 1];
      RunKeepsGranted(s, before, theta);
      var x := Run(s, before);
      StepKeepsRate(x, op, Clock(before));
      StepKeepsFilled(x, op, Clock(before), theta);
      StepKeepsSizes(x, op);
      StepKeepsSlack(x, op);
      StepAdmits(x, op);
      var y := Step(x, op);
      if y.h.admitted != x.h.admitted {
        var e :| y.h.admitted == x.h.admitted + [e];
        LatestGranted(y.s, y.h, Clock(ops), theta);
        GrantedStay(x.h.admitted, e, theta, s.windowSize, s.maxError);
      }
    }
  }

  // ---------------------------------------------------------------------------------------------
  // Chaining the windows

  /** What a throttle allows in a time. */
  function Budget(theta: real, elapsed: int): real {
    theta * elapsed as real
  }

  lemma BudgetsAdd(theta: real, a: nat, b: nat, all: int)
    requires theta > 0.0 && a + b <= all
    ensures 0.0 <= Budget(theta, a) <= Budget(theta, a) + Budget(theta, b) <= Budget(theta, all)
  {
    assert theta * (all - a - b) as real >= 0.0;
    assert theta * a as real >= 0.0 && theta * b as real >= 0.0;
    assert all as real == a as real + b as real + (all - a - b) as real;
    assert theta * (a as real + b as real + (all - a - b) as real)
        == theta * a as real + theta * b as real + theta * (all - a - b) as real;
  }

  /** The bytes of the first `m` admissions: the first packet, the budget of the whole time, and one slack
      for each of the windows, of which all but one are full. */
  ghost predicate WithinTotal(admitted: seq<Entry>, m: nat, theta: real, windowSize: nat, maxError: nat, windows: nat)
    requires 1 <= m <= |admitted|
  {
    && windows >= 1 && Times(windows - 1, windowSize) <= m
    && 8000.0 * Sum(admitted[..m]) as real
       <= 8000.0 * admitted[0].size as real + Budget(theta, admitted[m - 1].time - admitted[0].time)
          + 8000.0 * Times(windows, maxError) as real
  }

  lemma {:induction false} BytesOfAll(q: seq<Entry>)
    requires q != []
    ensures BytesFrom(q, 0) == Sum(q) == q[0].size + BytesFrom(q, 1)
  {
    BytesFromConcat([], q);
    assert [] + q == q;
  }

  /** A window that begins with the first admission. */
  lemma FirstWindow(admitted: seq<Entry>, m: nat, theta: real, windowSize: nat, maxError: nat, d: Decision)
    requires theta > 0.0 && 1 <= m <= |admitted| && InTimeOrder(admitted)
    requires d.theta == theta && GrantedBy(admitted, m, d, windowSize, maxError)
    requires d.eval.Some? ==> d.eval.value.front == 0
    ensures WithinTotal(admitted, m, theta, windowSize, maxError, 1)
  {
    var q, all := admitted[..m], admitted[m - 1].time - admitted[0].time;
    BytesOfAll(q);
    TimesFacts(0, windowSize);
    TimesFacts(0, maxError);
    assert q[0] == admitted[0] && admitted[0].time <= admitted[m - 1].time;
    BudgetsAdd(theta, 0, 0, all);
    if d.eval.Some? {
      WithinBudget(q, d, maxError);
      BudgetsAdd(theta, d.eval.value.time - admitted[0].time, 0, all);
      hide Sum, BytesFrom, Times, InTimeOrder, Budget, WithinFullSlack;
    } else {
      WithinSlack(q, d, maxError);
      hide Sum, BytesFrom, Times, InTimeOrder, Budget, WithinFullSlack;
    }
  }

  lemma WithinSlack(q: seq<Entry>, d: Decision, maxError: nat)
    requires WithinFullSlack(q, d, maxError) && d.eval.None?
    ensures q != [] && BytesFrom(q, 1) <= maxError
  {
    if |q| == 1 {
      assert BytesFrom(q, 1) == 0;
    }
  }

  /** A later window, behind the admissions before its front. */
  lemma NextWindow(admitted: seq<Entry>, m: nat, theta: real, windowSize: nat, maxError: nat, d: Decision,
                   windows: nat)
    requires theta > 0.0 && 1 <= m <= |admitted| && InTimeOrder(admitted)
    requires d.theta == theta && GrantedBy(admitted, m, d, windowSize, maxError)
    requires d.eval.Some? && 1 <= d.eval.value.front < m
    requires WithinTotal(admitted, d.eval.value.front, theta, windowSize, maxError, windows)
    ensures WithinTotal(admitted, m, theta, windowSize, maxError, windows + 1)
  {
    var e := d.eval.value;
    SumSplits(admitted, e.front, m);
    TimesFacts(windows, maxError);
    TimesFacts(windows - 1, windowSize);
    assert admitted[..m][e.front] == admitted[e.front];
    assert admitted[0].time <= admitted[e.front - 1].time <= admitted[e.front].time <= e.time <= admitted[m - 1].time;
    hide Sum, BytesFrom, Times, InTimeOrder, Budget, WithinFullSlack;
    var before, elapsed := admitted[e.front - 1].time - admitted[0].time, e.time - admitted[e.front].time;
    BudgetsAdd(theta, before, elapsed, admitted[m - 1].time - admitted[0].time);
    WithinBudget(admitted[..m], d, maxError);
  }

  lemma SumSplits(admitted: seq<Entry>, front: nat, m: nat)
    requires front <= m <= |admitted|
    ensures Sum(admitted[..m]) == Sum(admitted[..front]) + BytesFrom(admitted[..m], front)
  {
    var a, b := admitted[..front], admitted[front..m];
    BytesFromConcat(a, b);
    SumConcat(a, b);
    assert admitted[..m] == a + b;
  }

  lemma WithinBudget(q: seq<Entry>, d: Decision, maxError: nat)
    requires WithinFullSlack(q, d, maxError) && d.eval.Some?
    ensures var e := d.eval.value;
            && e.front < |q| && q[e.front].time <= e.time
            && 8000.0 * BytesFrom(q, e.front) as real
               <= Budget(d.theta, e.time - q[e.front].time) + 8000.0 * maxError as real
  {
  }

  lemma FreshStarts(theta: real, windowSize: nat, infinite: bool)
    requires windowSize != 1 && theta > 0.0
    ensures var s := Fresh(theta, windowSize, infinite);
            RateInv(s, NO_HISTORY, 0) && Filled(s, NO_HISTORY, 0, theta)
  {
  }

  lemma {:induction false} Chain(admitted: seq<Entry>, m: nat, theta: real, windowSize: nat, maxError: nat)
    returns (windows: nat)
    requires theta > 0.0 && 1 <= m <= |admitted| && InTimeOrder(admitted)
    requires AllGranted(admitted, theta, windowSize, maxError)
    ensures WithinTotal(admitted, m, theta, windowSize, maxError, windows)
    decreases m
  {
    assert Granted(admitted, m, theta, windowSize, maxError);
    var d: Decision :| d.theta == theta && GrantedBy(admitted, m, d, windowSize, maxError);
    if d.eval.None? || d.eval.value.front == 0 {
      FirstWindow(admitted, m, theta, windowSize, maxError, d);
      windows := 1;
    } else {
      windows := Chain(admitted, d.eval.value.front, theta, windowSize, maxError);
      NextWindow(admitted, m, theta, windowSize, maxError, d, windows);
      windows := windows + 1;
    }
  }

  /** Total rate: over a whole run under one positive throttle, the admitted bytes are at most the first
      packet, what the throttle allows in the time from the first to the last admission, and the slack once
      per window, where all windows but one are of `windowSize` admissions. A window below 100 entries has
      no slack, and then the budget alone bounds everything after the first packet. */
  lemma {:induction false} TotalRate(theta: real, windowSize: nat, infinite: bool, ops: seq<Op>) returns (windows: nat)
    requires windowSize != 1 && theta > 0.0 && WellTimed(ops) && Steady(ops)
    requires Run(Fresh(theta, windowSize, infinite), ops).h.admitted != []
    ensures var admitted, maxError := Run(Fresh(theta, windowSize, infinite), ops).h.admitted, windowSize / 100 * 1472;
            && windows >= 1 && Times(windows - 1, windowSize) <= |admitted|
            && 8000.0 * Sum(admitted) as real
               <= 8000.0 * admitted[0].size as real
                  + Budget(theta, admitted[|admitted| - 1].time - admitted[0].time)
                  + 8000.0 * Times(windows, maxError) as real
            && (windowSize < 100 ==> maxError == 0 && Times(windows, maxError) == 0)
  {
    hide Run, WellTimed, Sum, Budget, RateInv, GrantedBy;
    var s := Fresh(theta, windowSize, infinite);
    FreshStarts(theta, windowSize, infinite);
    RunKeepsGranted(s, ops, theta);
    var admitted := Run(s, ops).h.admitted;
    windows := Chain(admitted, |admitted|, theta, windowSize, s.maxError);
    assert admitted[..|admitted|] == admitted;
  }
}
