/** ThrottleDrain: how long a queue takes to drain. */
module ThrottleDrain {
  import opened Packets
  import opened Throttle
  import opened ThrottleRuns
  import opened ThrottleWait

  /** Frames are prepared and packets tried, and every send that is tried succeeds. */
  predicate AllSending(ops: seq<Op>) {
    forall i :: 0 <= i < |ops| ==> ops[i].Prepare? || (ops[i].Try? && ops[i].sent)
  }

  /** The packets sent in a run. */
  function Served(s: Throttler, ops: seq<Op>): nat {
    if ops == [] then 0
    else
      var before, op := ops[..|ops| - 1], ops[|ops| - 1];
      Served(s, before) + if op.Try? && AfterTryConsume(Run(s, before).s, op.t, op.sent).1.Consumed? then 1 else 0
  }

  /** The earliest clock reading after a run: a rejected attempt sleeps, a successful one does not. */
  function Rested(s: Throttler, start: nat, ops: seq<Op>): nat {
    if ops == [] then start
    else
      var before, op := ops[..|ops| - 1], ops[|ops| - 1];
      match op
      case Prepare(_, now) => now
      case Try(t, sent) =>
        if AfterTryConsume(Run(s, before).s, t, sent).1 == Throttled then t.eval + SLEEP_NS else t.consume
      case _ => Rested(s, start, before)
  }

  ghost predicate Paced(s: Throttler, start: nat, ops: seq<Op>) {
    ops != [] ==>
      var before, op := ops[..|ops| - 1], ops[|ops| - 1];
      && Paced(s, start, before)
      && match op
         case Prepare(_, now) => Rested(s, start, before) <= now
         case Try(t, _) => Rested(s, start, before) <= t.eval <= t.push <= t.consume
         case _ => false
  }

  /** The bytes of the first `k` packets. */
  function Lengths(q: seq<PacketWithMeta>, k: nat): nat
    requires k <= |q|
  {
    if k == 0 then 0 else Lengths(q, k - 1) + q[k - 1].packet.length
  }

  /** The wait of the packet at position `k`, behind everything that was in the window or ahead of it. */
  function WaitOf(s: Throttler, k: nat): nat
    requires k < |s.buffer| && s.throttle > 0.0 && s.sumBytes >= 0
  {
    WaitBound(s.sumBytes + Lengths(s.buffer, k), s.buffer[k].packet.length, s.throttle, s.maxError)
  }

  /** Each of the first `k` packets waits and is then sent. */
  function DrainBound(s: Throttler, k: nat): nat
    requires k <= |s.buffer| && s.throttle > 0.0 && s.sumBytes >= 0
  {
    if k == 0 then 0 else DrainBound(s, k - 1) + WaitOf(s, k - 1) + 1
  }

  lemma {:induction false} DrainBoundMonotone(s: Throttler, j: nat, k: nat)
    requires j <= k <= |s.buffer| && s.throttle > 0.0 && s.sumBytes >= 0
    ensures DrainBound(s, j) <= DrainBound(s, k)
  {
    if j < k {
      DrainBoundMonotone(s, j, k - 1);
    }
  }

  /** A positive throttle, a sound window not ahead of the clock, and packets that wear the slack down. */
  ghost predicate CanDrain(s: Throttler, start: nat) {
    && s.throttle > 0.0 && s.sumBytes == Sum(s.window) && s.accError >= 0 && Timely(s, start)
    && (s.maxError == 0 || forall i :: 0 <= i < |s.buffer| ==> s.buffer[i].packet.length > 0)
  }

  /** `x` is the throttler when `c` packets of `s` have been sent and the next one is its head. */
  ghost predicate HeadOf(s: Throttler, x: Throttler, c: nat, now: nat)
    requires c <= |s.buffer|
  {
    && x.throttle == s.throttle && x.maxError == s.maxError && x.accError >= 0
    && x.sumBytes == Sum(x.window) <= s.sumBytes + Lengths(s.buffer, c)
    && Timely(x, now)
    && |s.buffer| - c <= |x.buffer|
    && forall i :: 0 <= i < |s.buffer| - c ==> x.buffer[i] == s.buffer[c + i]
  }

  /** Rejections and new frames leave the window and what is queued. */
  lemma {:induction false} HeldBackFrame(x: Throttler, start: nat, ops: seq<Op>)
    requires HeldBack(x, start, ops) && x.accError >= 0
    ensures var y := Run(x, ops).s;
            && y == x.(buffer := y.buffer, accError := y.accError, lastRate := y.lastRate, frameCount := y.frameCount)
            && x.buffer <= y.buffer && y.accError >= 0
  {
    hide RateOf, BelowThrottle;
    if ops != [] {
      HeldBackFrame(x, start, ops[..|ops| - 1]);
      if ops[|ops| - 1].Try? {
        RejectionFrame(Run(x, ops[..|ops| - 1]).s, ops[|ops| - 1].t, ops[|ops| - 1].sent);
        hide AfterTryConsume;
      }
    }
  }

  lemma RejectionFrame(x: Throttler, t: Reads, sent: bool)
    requires AfterTryConsume(x, t, sent).1 == Throttled && x.accError >= 0
    ensures var y := AfterTryConsume(x, t, sent).0;
            y == x.(accError := y.accError, lastRate := y.lastRate) && y.accError >= 0 && x.window != []
  {
    hide RateOf, BelowThrottle;
  }

  lemma {:induction false} EmptyWindowNeverWaits(x: Throttler, start: nat, ops: seq<Op>)
    requires HeldBack(x, start, ops) && x.window == [] && x.accError >= 0
    ensures Tries(ops) == 0
  {
    if ops != [] {
      var before, op := ops[..|ops| - 1], ops[|ops| - 1];
      EmptyWindowNeverWaits(x, start, before);
      HeldBackFrame(x, start, before);
      if op.Try? {
        RejectionFrame(Run(x, before).s, op.t, op.sent);
        hide AfterTryConsume;
      }
    }
  }

  lemma DrainTriesMonotone(few: nat, many: nat, theta: real)
    requires theta > 0.0 && few <= many
    ensures DrainTries(few, theta) <= DrainTries(many, theta)
  {
    var unit := theta * SLEEP_NS as real;
    assert unit > 0.0;
    var more := 8000.0 * (many - few) as real / unit;
    assert more >= 0.0;
    assert 8000.0 * many as real / unit == 8000.0 * few as real / unit + more;
  }

  /** The attempts a head packet takes while it is held back. */
  lemma HeadWaits(s: Throttler, x: Throttler, c: nat, now: nat, ops: seq<Op>, start: nat)
    requires CanDrain(s, start) && c < |s.buffer| && HeadOf(s, x, c, now) && HeldBack(x, now, ops)
    ensures Tries(ops) <= WaitOf(s, c)
  {
    hide HeldBack, Tries, DrainTries, Run;
    if x.window == [] {
      EmptyWindowNeverWaits(x, now, ops);
    } else {
      assert x.buffer[0] == s.buffer[c];
      BoundedWait(x, now, ops);
      DrainTriesMonotone(x.sumBytes + x.buffer[0].packet.length,
                         s.sumBytes + Lengths(s.buffer, c) + x.buffer[0].packet.length, s.throttle);
    }
  }

  lemma AdmitSums(x: Throttler, size: nat, now: nat)
    requires x.sumBytes == Sum(x.window) && x.accError >= 0
    ensures var y := Admit(x, size, now);
            y.sumBytes == Sum(y.window) <= x.sumBytes + size && y.accError >= 0
  {
    var e := Entry(now, size);
    var w := x.window + [e];
    SumConcat(x.window, [e]);
    assert Sum([e]) == size + Sum([]);
    assert w[0].size + Sum(w[1..]) == Sum(w);
  }

  lemma AdmissionSums(x: Throttler, size: nat, t: Reads)
    requires x.sumBytes == Sum(x.window) && x.accError >= 0
    ensures var y := AfterExceedsWith(x, size, t).0;
            y.sumBytes == Sum(y.window) <= x.sumBytes + size && y.accError >= 0
  {
    hide RateOf, BelowThrottle, Admit;
    if x.throttle == 0.0 || x.window == [] {
      AdmitSums(x, size, t.push);
    } else {
      AdmitSums(CurrentRate(x.(accError := x.accError + size), size, t.eval).0, size, t.push);
    }
  }

  /** Sending the head makes the next packet the head. */
  lemma HeadIsSent(s: Throttler, x: Throttler, c: nat, now: nat, t: Reads)
    requires c < |s.buffer| && HeadOf(s, x, c, now) && now <= t.eval <= t.push <= t.consume
    requires AfterTryConsume(x, t, true).1 != Throttled
    ensures AfterTryConsume(x, t, true).1.Consumed?
    ensures HeadOf(s, AfterTryConsume(x, t, true).0, c + 1, t.consume)
  {
    hide AfterExceedsWith, Sum;
    var size := x.buffer[0].packet.length;
    assert x.buffer[0] == s.buffer[c];
    AdmissionSums(x, size, t);
    ExceedsWithFrame(x, size, t);
    ExceedsWithKeepsTimely(x, size, t);
  }

  /** The run so far: up to the last packet sent, and since, with only rejections and new frames. */
  ghost predicate Split(s: Throttler, start: nat, ops: seq<Op>, a: seq<Op>, b: seq<Op>)
    requires s.throttle > 0.0 && s.sumBytes >= 0 && Served(s, a) < |s.buffer|
  {
    var x, c, now := Run(s, a).s, Served(s, a), Rested(s, start, a);
    && ops == a + b
    && HeadOf(s, x, c, now) && HeldBack(x, now, b)
    && Run(x, b).s == Run(s, ops).s
    && Ready(now, b) == Rested(s, start, ops) && Served(s, ops) == c
    && Tries(ops) == Tries(a) + Tries(b) && Tries(a) <= DrainBound(s, c)
  }

  lemma {:induction false} ReadyIsLater(x: Throttler, start: nat, ops: seq<Op>)
    requires HeldBack(x, start, ops)
    ensures Ready(start, ops) >= start
  {
    hide AfterTryConsume, Run;
    if ops != [] {
      ReadyIsLater(x, start, ops[..|ops| - 1]);
    }
  }

  /** One more operation of the whole run. */
  lemma RunGrows(s: Throttler, start: nat, before: seq<Op>, op: Op)
    requires Paced(s, start, before + [op]) && (op.Prepare? || op.Try?)
    ensures var x := Run(s, before).s;
            var outcome := if op.Try? then AfterTryConsume(x, op.t, op.sent).1 else Idle;
            && Run(s, before + [op]).s == (if op.Try? then AfterTryConsume(x, op.t, op.sent).0
                                           else AfterPrepare(x, op.packets, op.now))
            && Served(s, before + [op]) == Served(s, before) + (if outcome.Consumed? then 1 else 0)
            && Rested(s, start, before + [op]) == (if op.Prepare? then op.now
                                                   else if outcome == Throttled then op.t.eval + SLEEP_NS
                                                   else op.t.consume)
            && Tries(before + [op]) == Tries(before) + (if op.Try? then 1 else 0)
            && Rested(s, start, before) <= (if op.Try? then op.t.eval else op.now)
            && (op.Try? ==> op.t.eval <= op.t.push <= op.t.consume)
  {
    assert (before + [op])[..|before|] == before;
    hide AfterTryConsume, AfterPrepare;
  }

  /** One more rejection or new frame while the head waits. */
  lemma WaitGrows(x: Throttler, now: nat, b: seq<Op>, op: Op)
    requires HeldBack(x, now, b)
    requires op.Prepare? || (op.Try? && AfterTryConsume(Run(x, b).s, op.t, op.sent).1 == Throttled)
    requires Ready(now, b) <= (if op.Try? then op.t.eval else op.now)
    ensures HeldBack(x, now, b + [op])
    ensures Ready(now, b + [op]) == (if op.Try? then op.t.eval + SLEEP_NS else op.now)
    ensures Tries(b + [op]) == Tries(b) + (if op.Try? then 1 else 0)
    ensures Run(x, b + [op]).s == (if op.Try? then AfterTryConsume(Run(x, b).s, op.t, op.sent).0
                                   else AfterPrepare(Run(x, b).s, op.packets, op.now))
  {
    assert (b + [op])[..|b|] == b;
    hide AfterTryConsume, AfterPrepare;
  }

  /** A rejection or a new frame: the head goes on waiting. */
  lemma SplitWaits(s: Throttler, start: nat, before: seq<Op>, op: Op, a: seq<Op>, b: seq<Op>)
    requires CanDrain(s, start) && Served(s, a) < |s.buffer|
    requires Split(s, start, before, a, b) && Paced(s, start, before + [op])
    requires op.Prepare? || (op.Try? && AfterTryConsume(Run(s, before).s, op.t, op.sent).1 == Throttled)
    ensures Split(s, start, before + [op], a, b + [op])
  {
    hide AfterTryConsume, AfterPrepare, HeadOf, DrainBound, Run, Served, Rested, Tries, Ready, HeldBack, Paced;
    assert a + (b + [op]) == (a + b) + [op];
    RunGrows(s, start, before, op);
    WaitGrows(Run(s, a).s, Rested(s, start, a), b, op);
  }

  /** The head is sent: the next packet is the head. */
  lemma SplitMoves(s: Throttler, start: nat, before: seq<Op>, op: Op, a: seq<Op>, b: seq<Op>)
    requires CanDrain(s, start) && Served(s, a) + 1 < |s.buffer|
    requires Split(s, start, before, a, b) && Paced(s, start, before + [op])
    requires op.Try? && op.sent && AfterTryConsume(Run(s, before).s, op.t, true).1 != Throttled
    ensures Served(s, before + [op]) == Served(s, a) + 1
    ensures Split(s, start, before + [op], before + [op], [])
  {
    hide AfterTryConsume, AfterPrepare, HeadOf, Run, Served, Rested, Tries, Ready, HeldBack, Paced, WaitOf;
    var all, c := before + [op], Served(s, a);
    assert all + [] == all;
    RunGrows(s, start, before, op);
    HeadStillWaits(s, start, before, a, b);
    HeadIsSent(s, Run(s, before).s, c, Rested(s, start, before), op.t);
    NothingYet(Run(s, all).s, Rested(s, start, all));
  }

  lemma NothingYet(x: Throttler, now: nat)
    ensures HeldBack(x, now, []) && Run(x, []).s == x && Ready(now, []) == now && Tries([]) == 0
  {
  }

  lemma HeadStillWaits(s: Throttler, start: nat, before: seq<Op>, a: seq<Op>, b: seq<Op>)
    requires CanDrain(s, start) && Served(s, a) < |s.buffer| && Split(s, start, before, a, b)
    ensures HeadOf(s, Run(s, before).s, Served(s, a), Rested(s, start, before))
    ensures Tries(before) <= DrainBound(s, Served(s, a)) + WaitOf(s, Served(s, a))
  {
    var x, c, now := Run(s, a).s, Served(s, a), Rested(s, start, a);
    hide Run, Served, Rested, Tries, Ready, HeldBack, WaitOf, DrainBound, Sum, Lengths;
    HeadWaits(s, x, c, now, b, start);
    HeldBackFrame(x, now, b);
    ReadyIsLater(x, now, b);
  }

  lemma {:induction false} RunSplits(s: Throttler, start: nat, ops: seq<Op>) returns (a: seq<Op>, b: seq<Op>)
    requires CanDrain(s, start) && AllSending(ops) && Paced(s, start, ops) && Served(s, ops) < |s.buffer|
    ensures Served(s, a) == Served(s, ops) && Split(s, start, ops, a, b)
  {
    hide AfterTryConsume, Run, Rested, Split;
    if ops == [] {
      a, b := [], [];
      SplitStarts(s, start);
    } else {
      var before, op := ops[..|ops| - 1], ops[|ops| - 1];
      a, b := RunSplits(s, start, before);
      assert before + [op] == ops;
      hide Paced, CanDrain;
      if op.Prepare? || AfterTryConsume(Run(s, before).s, op.t, op.sent).1 == Throttled {
        ServedOnlyWhenSent(s, before, op);
        SplitWaits(s, start, before, op, a, b);
        b := b + [op];
      } else {
        HeadGoes(s, start, before, op, a, b);
        ServedOnlyWhenSent(s, before, op);
        SplitMoves(s, start, before, op, a, b);
        a, b := ops, [];
      }
    }
  }

  lemma ServedOnlyWhenSent(s: Throttler, before: seq<Op>, op: Op)
    ensures Served(s, before + [op])
            == Served(s, before)
               + if op.Try? && AfterTryConsume(Run(s, before).s, op.t, op.sent).1.Consumed? then 1 else 0
  {
    assert (before + [op])[..|before|] == before;
  }

  lemma SplitStarts(s: Throttler, start: nat)
    requires CanDrain(s, start) && s.buffer != []
    ensures Served(s, []) == 0 && Split(s, start, [], [], [])
  {
    var none: seq<Op> := [];
    assert none + none == none;
  }

  lemma HeadGoes(s: Throttler, start: nat, before: seq<Op>, op: Op, a: seq<Op>, b: seq<Op>)
    requires CanDrain(s, start) && Served(s, a) < |s.buffer|
    requires Split(s, start, before, a, b)
    requires op.Try? && op.sent && AfterTryConsume(Run(s, before).s, op.t, true).1 != Throttled
    ensures AfterTryConsume(Run(s, before).s, op.t, true).1.Consumed?
  {
    var x, now := Run(s, a).s, Rested(s, start, a);
    HeldBackFrame(x, now, b);
    hide AfterExceedsWith, AfterSettle, HeldBack;
  }

  /** The queue drains: under a constant positive throttle, with accepting sockets and packets that are not
      empty (or no slack), and new frames at any time, all packets queued at the start have been sent
      after at most `DrainBound` attempts: for each of them its bounded wait, and the attempt that
      sends it. */
  lemma {:induction false} QueueDrains(s: Throttler, start: nat, ops: seq<Op>)
    requires CanDrain(s, start) && AllSending(ops) && Paced(s, start, ops)
    ensures Served(s, ops) < |s.buffer| ==> Tries(ops) < DrainBound(s, |s.buffer|)
  {
    hide Served, HeldBack, Run, Ready, Rested, Tries, HeadOf, WaitOf, Paced;
    if Served(s, ops) < |s.buffer| {
      var a, b := RunSplits(s, start, ops);
      HeadWaits(s, Run(s, a).s, Served(s, a), Rested(s, start, a), b, start);
      DrainBoundMonotone(s, Served(s, ops) + 1, |s.buffer|);
    }
  }
}
