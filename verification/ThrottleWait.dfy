/** ThrottleWait: the throttler cannot hold the head packet back for ever. */
module ThrottleWait {
  import opened Arithmetic
  import opened Packets
  import opened Source
  import opened Throttle
  import opened ThrottleRuns

  /** A rejected attempt sleeps for this many nanoseconds. */
  const SLEEP_NS := 100_000

  /** The attempts of a run. */
  function Tries(ops: seq<Op>): nat {
    if ops == [] then 0 else Tries(ops[..|ops| - 1]) + if ops[|ops| - 1].Try? then 1 else 0
  }

  /** The earliest clock reading after the run: a rejected attempt has slept. */
  function Ready(start: nat, ops: seq<Op>): nat {
    if ops == [] then start
    else
      match ops[|ops| - 1]
      case Prepare(_, now) => now
      case Try(t, _) => t.eval + SLEEP_NS
      case SetThrottle(_) => Ready(start, ops[..|ops| - 1])
      case Reset => Ready(start, ops[..|ops| - 1])
  }

  /** A run of `prepare` calls and attempts that the throttler all rejects, under a clock that shows
      at least the sleep of each rejected attempt. */
  ghost predicate HeldBack(s: Throttler, start: nat, ops: seq<Op>) {
    ops != [] ==>
      var before, op := ops[..|ops| - 1], ops[|ops| - 1];
      && HeldBack(s, start, before)
      && match op
         case Prepare(_, now) => Ready(start, before) <= now
         case Try(t, sent) =>
           Ready(start, before) <= t.eval && AfterTryConsume(Run(s, before).s, t, sent).1 == Throttled
         case _ => false
  }

  /** The number of sleeps after which the whole window and the head packet fit the throttle. */
  function DrainTries(bytes: nat, theta: real): nat
    requires theta > 0.0
  {
    var q := 8000.0 * bytes as real / (theta * SLEEP_NS as real);
    assert q >= 0.0;
    q.Floor + 1
  }

  /** The bound on consecutive rejections. */
  function WaitBound(sumBytes: nat, length: nat, theta: real, maxError: nat): nat
    requires theta > 0.0
  {
    DrainTries(sumBytes + length, theta) + Divided(maxError, length)
  }

  lemma DrainedIsBelow(bytes: nat, counted: nat, theta: real, n: nat, elapsed: nat)
    requires theta > 0.0 && counted <= bytes
    requires n >= DrainTries(bytes, theta) && elapsed >= n * SLEEP_NS
    ensures BelowThrottle(RateOf(counted, elapsed), theta)
  {
    var b, unit := 8000.0 * bytes as real, theta * SLEEP_NS as real;
    assert unit > 0.0;
    var q := b / unit;
    assert n as real > q;
    assert q * unit == b;
    assert (n as real - q) * unit > 0.0;
    var slept, over := (n * SLEEP_NS) as real, (elapsed - n * SLEEP_NS) as real;
    assert n as real * unit == theta * slept;
    assert theta * over >= 0.0;
    assert elapsed as real == slept + over;
    assert theta * (slept + over) == theta * slept + theta * over;
    assert theta * elapsed as real > b;
    assert 8000.0 * counted as real <= b;
    BelowThrottleIsBudget(counted, elapsed, theta);
  }

  /** What rejections leave alone, how far the clock is, and, once the window has drained, that every
      further rejection has used up another head length of the staleness slack. */
  ghost predicate Waiting(s: Throttler, start: nat, ops: seq<Op>, x: Throttler)
    requires CanWait(s, start)
  {
    var n, length := Tries(ops), s.buffer[0].packet.length;
    var drain := DrainTries(s.sumBytes + length, s.throttle);
    && x.window == s.window && x.sumBytes == s.sumBytes && x.throttle == s.throttle && x.maxError == s.maxError
    && x.buffer != [] && x.buffer[0] == s.buffer[0] && x.accError >= 0
    && Ready(start, ops) >= start + n * SLEEP_NS
    && (n > drain ==> Times(n - drain, length) < x.maxError)
    && (n > drain ==> BelowThrottle(x.lastRate, x.throttle) || Times(n - drain, length) <= x.accError < x.maxError)
  }

  /** A positive throttle, a head packet and a window; and the head packet wears the slack down, or
      there is no slack. */
  ghost predicate CanWait(s: Throttler, start: nat) {
    && s.window != [] && s.buffer != [] && (s.buffer[0].packet.length > 0 || s.maxError == 0)
    && s.throttle > 0.0 && s.sumBytes >= 0 && s.accError >= 0
    && s.window[0].time <= start
  }

  lemma PrepareKeepsWaiting(s: Throttler, start: nat, ops: seq<Op>, op: Op, x: Throttler)
    requires CanWait(s, start) && Waiting(s, start, ops, x)
    requires op.Prepare? && Ready(start, ops) <= op.now
    ensures Waiting(s, start, ops + [op], AfterPrepare(x, op.packets, op.now))
  {
    assert (ops + [op])[..|ops|] == ops;
    var n, bytes := Tries(ops), s.sumBytes + s.buffer[0].packet.length;
    if n > DrainTries(bytes, s.throttle) {
      DrainedIsBelow(bytes, s.sumBytes, s.throttle, n, op.now - s.window[0].time);
    }
    hide RateOf, BelowThrottle, DrainTries;
  }

  /** A rejection after the window has drained cannot have come from a computed rate. */
  lemma TryKeepsWaiting(s: Throttler, start: nat, ops: seq<Op>, op: Op, x: Throttler)
    requires CanWait(s, start) && Waiting(s, start, ops, x)
    requires op.Try? && Ready(start, ops) <= op.t.eval && AfterTryConsume(x, op.t, op.sent).1 == Throttled
    ensures Waiting(s, start, ops + [op], AfterTryConsume(x, op.t, op.sent).0)
  {
    assert (ops + [op])[..|ops|] == ops;
    var n, length := Tries(ops), s.buffer[0].packet.length;
    var drain := DrainTries(s.sumBytes + length, s.throttle);
    if n >= drain {
      DrainedIsBelow(s.sumBytes + length, s.sumBytes + length, s.throttle, n, op.t.eval - s.window[0].time);
      TimesFacts(n - drain, length);
    }
    hide RateOf, BelowThrottle, DrainTries, Times;
  }

  lemma {:induction false} HeldBackKeepsWaiting(s: Throttler, start: nat, ops: seq<Op>)
    requires CanWait(s, start) && HeldBack(s, start, ops)
    ensures Waiting(s, start, ops, Run(s, ops).s)
  {
    hide AfterTryConsume, AfterPrepare, Waiting;
    if ops == [] {
      WaitingStarts(s, start);
    } else {
      var before, op := ops[..|ops| - 1], ops[|ops| - 1];
      assert before + [op] == ops;
      HeldBackKeepsWaiting(s, start, before);
      if op.Prepare? {
        PrepareKeepsWaiting(s, start, before, op, Run(s, before).s);
      } else {
        TryKeepsWaiting(s, start, before, op, Run(s, before).s);
      }
    }
  }

  lemma WaitingStarts(s: Throttler, start: nat)
    requires CanWait(s, start)
    ensures Waiting(s, start, [], s)
  {
  }

  lemma {:induction false} WaitingIsBounded(s: Throttler, start: nat, ops: seq<Op>, x: Throttler)
    requires CanWait(s, start) && Waiting(s, start, ops, x)
    ensures Tries(ops) <= WaitBound(s.sumBytes, s.buffer[0].packet.length, s.throttle, s.maxError)
  {
    var n, length := Tries(ops), s.buffer[0].packet.length;
    var drain := DrainTries(s.sumBytes + length, s.throttle);
    hide DrainTries, Times, Divided, Tries, Ready;
    if n > drain {
      TimesBelow(n - drain, length, s.maxError);
    }
  }

  /** Bounded wait: under a positive throttle, the throttler rejects a head packet at most `WaitBound`
      times in a row, however many frames are prepared in between, unless the packet is empty and there is
      a staleness slack. The exception is exact: see `EmptyHeadWaitsForEver`. */
  lemma {:induction false} BoundedWait(s: Throttler, start: nat, ops: seq<Op>)
    requires CanWait(s, start) && HeldBack(s, start, ops)
    ensures Tries(ops) <= WaitBound(s.sumBytes, s.buffer[0].packet.length, s.throttle, s.maxError)
  {
    hide Waiting, WaitBound, HeldBack;
    HeldBackKeepsWaiting(s, start, ops);
    WaitingIsBounded(s, start, ops, Run(s, ops).s);
  }

  /** An empty head packet under a cached rate that does not admit it. */
  ghost predicate Stuck(x: Throttler) {
    && x.window != [] && x.buffer != [] && x.buffer[0].packet.length == 0 && x.throttle != 0.0
    && x.accError < x.maxError && !BelowThrottle(x.lastRate, x.throttle)
  }

  lemma {:induction false} StuckStays(s: Throttler, ops: seq<Op>)
    requires Stuck(s) && forall i :: 0 <= i < |ops| ==> ops[i].Try? || ops[i].Prepare?
    ensures Stuck(Run(s, ops).s)
  {
    if ops != [] {
      StuckStays(s, ops[..|ops| - 1]);
      var x, op := Run(s, ops[..|ops| - 1]), ops[|ops| - 1];
      assert Stuck(Step(x, op).s);
    }
  }

  /** With a staleness slack, one rejection of an empty head packet (the last fragment of a frame whose
      size is a multiple of the payload size) is final: it adds nothing to the error, so the cached rate
      is never computed again and every later attempt is rejected too, however much time passes. */
  lemma {:induction false} EmptyHeadWaitsForEver(s: Throttler, t: Reads, sent: bool, ops: seq<Op>, later: Reads)
    requires Valid(s) && s.maxError > 0 && s.buffer != [] && s.buffer[0].packet.length == 0
    requires AfterTryConsume(s, t, sent).1 == Throttled
    requires forall i :: 0 <= i < |ops| ==> ops[i].Try? || ops[i].Prepare?
    ensures AfterTryConsume(Run(AfterTryConsume(s, t, sent).0, ops).s, later, sent).1 == Throttled
  {
    StuckStays(AfterTryConsume(s, t, sent).0, ops);
  }

  // ---------------------------------------------------------------------------------------------
  // A run that gets there

  /** Cut, sent three times, and throttled harder before the empty last fragment. */
  function StuckRun(packets: seq<PacketWithMeta>): seq<Op> {
    [Prepare(packets, 0), At(1000), At(2000), At(1_000_000), SetThrottle(1.0)]
  }

  function At(time: nat): Op {
    Try(Reads(time, time, time), true)
  }

  lemma RunSnoc(s: Throttler, ops: seq<Op>, op: Op)
    ensures Run(s, ops + [op]) == Step(Run(s, ops), op)
  {
    assert (ops + [op])[..|ops|] == ops;
  }

  lemma FourLengths(frame: Frame, seqNo: nat, packets: seq<PacketWithMeta>)
    requires |frame| == 4 * MAX_PAYLOAD_LEN && IsFragmentation(frame, seqNo, packets)
    ensures |packets| == 4 && packets[3].packet.length == 0
    ensures forall i :: 0 <= i < 3 ==> packets[i].packet.length == MAX_PAYLOAD_LEN
  {
    assert forall i :: 0 <= i < 4 ==> IsFragment(frame, seqNo, i, packets[i]);
  }

  /** A sent head packet that the window has room for and that leaves the error below the slack. */
  function Sent(s: Throttler, time: nat): Throttler
    requires s.buffer != []
  {
    var length := s.buffer[0].packet.length;
    s.(window := s.window + [Entry(time, length)], sumBytes := s.sumBytes + length, buffer := s.buffer[1..],
       frameCount := s.frameCount - if s.buffer[0].lastOne then 1 else 0)
  }

  lemma FirstIsSent(s: Throttler, time: nat)
    requires s.buffer != [] && s.window == [] && s.windowSize > 1 && s.accError < s.maxError
    ensures AfterTryConsume(s, Reads(time, time, time), true).0 == Sent(s, time)
  {
  }

  lemma CachedIsSent(s: Throttler, time: nat)
    requires s.buffer != [] && s.window != [] && |s.window| + 1 < s.windowSize && s.throttle != 0.0
    requires s.accError + s.buffer[0].packet.length < s.maxError && BelowThrottle(s.lastRate, s.throttle)
    ensures AfterTryConsume(s, Reads(time, time, time), true).0
            == Sent(s, time).(accError := s.accError + s.buffer[0].packet.length)
  {
    hide BelowThrottle;
  }

  lemma FreshIsSent(s: Throttler, time: nat)
    requires s.buffer != [] && s.window != [] && |s.window| + 1 < s.windowSize && s.throttle != 0.0
    requires s.accError + s.buffer[0].packet.length >= s.maxError > 0
    requires BelowThrottle(RateOf(s.sumBytes + s.buffer[0].packet.length, time - s.window[0].time), s.throttle)
    ensures AfterTryConsume(s, Reads(time, time, time), true).0
            == Sent(s, time).(accError := 0, lastRate := RateOf(s.sumBytes + s.buffer[0].packet.length,
                                                                time - s.window[0].time))
  {
    hide BelowThrottle, RateOf;
  }

  lemma StuckRunStates(packets: seq<PacketWithMeta>)
    requires |packets| == 4 && packets[3].packet.length == 0
    requires forall i :: 0 <= i < 3 ==> packets[i].packet.length == MAX_PAYLOAD_LEN
    ensures var s := Run(Fresh(1000.0, 100, false), StuckRun(packets)).s;
            && s.buffer == [packets[3]] && s.maxError == UDP_MAX_LENGTH && s.window != [] && s.throttle == 1.0
            && s.accError == 0 && s.lastRate == RateOf(3 * MAX_PAYLOAD_LEN, 999_000)
  {
    var s0, ops := Fresh(1000.0, 100, false), StuckRun(packets);
    assert [] + [ops[0]] == ops[..1] && ops[..1] + [ops[1]] == ops[..2] && ops[..2] + [ops[2]] == ops[..3];
    assert ops[..3] + [ops[3]] == ops[..4] && ops[..4] + [ops[4]] == ops;
    RunSnoc(s0, [], ops[0]);
    RunSnoc(s0, ops[..1], ops[1]);
    RunSnoc(s0, ops[..2], ops[2]);
    RunSnoc(s0, ops[..3], ops[3]);
    RunSnoc(s0, ops[..4], ops[4]);
    var s1 := s0.(buffer := packets, frameCount := 1);
    assert Run(s0, ops[..1]).s == s1;
    hide Run, AfterTryConsume;
    FirstIsSent(s1, 1000);
    var s2 := Sent(s1, 1000);
    BelowThrottleIsBudget(3 * MAX_PAYLOAD_LEN, 999_000, 1000.0);
    CachedIsSent(s2, 2000);
    var s3 := Sent(s2, 2000).(accError := MAX_PAYLOAD_LEN);
    FreshIsSent(s3, 1_000_000);
  }

  lemma StuckRunIsTimed(packets: seq<PacketWithMeta>)
    ensures WellTimed(StuckRun(packets) + [At(1_000_001)])
  {
    var all := StuckRun(packets) + [At(1_000_001)];
    assert all[..6] == all && all[..6][..5] == all[..5] && all[..5][..4] == all[..4];
    assert all[..4][..3] == all[..3] && all[..3][..2] == all[..2] && all[..2][..1] == all[..1];
    assert all[..1][..0] == [];
    assert Clock(all[..1]) == 0 && WellTimed(all[..1]);
    assert Clock(all[..2]) == 1000 && WellTimed(all[..2]);
    assert Clock(all[..3]) == 2000 && WellTimed(all[..3]);
    assert Clock(all[..4]) == 1_000_000 && WellTimed(all[..4]);
    assert Clock(all[..5]) == 1_000_000 && WellTimed(all[..5]);
  }

  /** That state is reached: a frame of exactly four payloads, offered to a fresh throttler of 1000 Mbit/s
      with a window of 100, has its first three fragments sent; the throttle is then lowered to 1 Mbit/s.
      From there on every attempt to send the empty fragment is rejected, at any later time. */
  lemma {:induction false} EmptyHeadIsReached(frame: Frame, seqNo: nat, packets: seq<PacketWithMeta>,
                                              ops: seq<Op>, later: Reads)
    requires |frame| == 4 * MAX_PAYLOAD_LEN && IsFragmentation(frame, seqNo, packets)
    requires forall i :: 0 <= i < |ops| ==> ops[i].Try? || ops[i].Prepare?
    ensures WellTimed(StuckRun(packets) + [At(1_000_001)])
    ensures var s := Run(Fresh(1000.0, 100, false), StuckRun(packets)).s;
            var (s', outcome) := AfterTryConsume(s, At(1_000_001).t, true);
            && s.buffer != [] && s.buffer[0].packet.length == 0 && outcome == Throttled
            && AfterTryConsume(Run(s', ops).s, later, true).1 == Throttled
  {
    hide IsFragmentation;
    StuckRunIsTimed(packets);
    FourLengths(frame, seqNo, packets);
    StuckRunStates(packets);
    var s := Run(Fresh(1000.0, 100, false), StuckRun(packets)).s;
    hide Run, StuckRun, WellTimed;
    BelowThrottleIsBudget(3 * MAX_PAYLOAD_LEN, 999_000, 1.0);
    StuckStays(AfterTryConsume(s, At(1_000_001).t, true).0, ops);
  }
}
