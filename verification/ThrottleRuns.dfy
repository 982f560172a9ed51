/** ThrottleRuns: what holds of a throttler over every run of its operations. */
module ThrottleRuns {
  import opened Wrappers
  import opened Packets
  import opened Throttle

  datatype Op =
    | Prepare(packets: seq<PacketWithMeta>, now: nat)
    | Try(t: Reads, sent: bool)
    | SetThrottle(theta: real)
    | Reset

  /** A computation of the rate: when, which admission was then the front of the window, which is also how
      many had been evicted, how many there had been, the size asked about besides them, and how many bytes it
      counted. */
  datatype Evaluation = Evaluation(time: nat, front: nat, admitted: nat, extra: nat, counted: int)

  /** The evaluation and the throttle the latest admission was decided with, and how many evictions there had
      been. */
  datatype Decision = Decision(eval: Option<Evaluation>, theta: real, gone: nat)

  /** Where the staleness error last started over: how many packets had been asked about and evicted. */
  datatype Base = Base(asked: nat, gone: nat)

  /** History variables: the admissions, those of them evicted from the window, the packets the rate was asked
      about, the last start of the error, the rate evaluations, and the packets offered, taken and consumed.
      All but the two counters start over at a reset. */
  datatype History = History(
    admitted: seq<Entry>, gone: seq<Entry>, asked: seq<Entry>, base: Base,
    eval: Option<Evaluation>, decision: Option<Decision>,
    offered: seq<seq<PacketWithMeta>>, taken: seq<nat>, consumed: seq<PacketWithMeta>,
    prepares: nat, lasts: nat)

  const NO_HISTORY := History([], [], [], Base(0, 0), None, None, [], [], [], 0, 0)

  datatype Traced = Traced(s: Throttler, h: History)

  /** Notes the evaluation that asking for the rate makes, if it makes one, and that the error starts over. */
  function NoteRate(s: Throttler, h: History, extra: nat, now: nat): History {
    if s.accError < s.maxError then h
    else
      var h1 := h.(base := Base(|h.asked|, |h.gone|));
      if s.window == [] then h1
      else h1.(eval := Some(Evaluation(now, |h.gone|, |h.admitted|, extra, s.sumBytes + extra)))
  }

  function NoteAdmit(s: Throttler, h: History, e: Entry): History {
    h.(admitted := h.admitted + [e],
       gone := h.gone + if s.windowSize > 0 && |s.window| + 1 == s.windowSize then [(s.window + [e])[0]] else [],
       decision := Some(Decision(h.eval, s.throttle, |h.gone|)))
  }

  /** A packet admitted on the evaluation made for it is one of the admissions of the evaluation. */
  function Grant(h: History): History {
    if h.eval.None? then h else h.(eval := Some(h.eval.value.(admitted := |h.admitted| + 1, extra := 0)))
  }

  function NoteExceedsWith(s: Throttler, h: History, size: nat, t: Reads): History {
    var h1 := if s.throttle == 0.0 || s.window == [] then h
              else NoteRate(s.(accError := s.accError + size), h.(asked := h.asked + [Entry(t.eval, size)]),
                            size, t.eval);
    if AfterExceedsWith(s, size, t).1 then h1
    else NoteAdmit(s, if Evaluates(s.(accError := s.accError + size)) && s.throttle != 0.0 then Grant(h1) else h1,
                   Entry(t.push, size))
  }

  function NoteSettle(s: Throttler, h: History, sent: bool, t: Reads): History
    requires s.buffer != []
  {
    if !sent then h
    else NoteRate(s, h, 0, t.consume).(consumed := h.consumed + [s.buffer[0]],
                                       lasts := h.lasts + if s.buffer[0].lastOne then 1 else 0)
  }

  function NoteTry(s: Throttler, h: History, t: Reads, sent: bool): History {
    if s.buffer == [] then h
    else
      var size := s.buffer[0].packet.length;
      var (s1, exceeded) := AfterExceedsWith(s, size, t);
      var h1 := NoteExceedsWith(s, h, size, t);
      if exceeded then h1 else NoteSettle(s1, h1, sent, t)
  }

  function NotePrepare(s: Throttler, h: History, packets: seq<PacketWithMeta>, now: nat): History {
    NoteRate(s, h, 0, now).(offered := h.offered + [packets], taken := h.taken + [Accepted(s, |packets|)],
                            prepares := h.prepares + 1)
  }

  function Step(x: Traced, op: Op): Traced {
    match op
    case Prepare(packets, now) => Traced(AfterPrepare(x.s, packets, now), NotePrepare(x.s, x.h, packets, now))
    case Try(t, sent) => Traced(AfterTryConsume(x.s, t, sent).0, NoteTry(x.s, x.h, t, sent))
    case SetThrottle(theta) => x.(s := x.s.(throttle := theta))
    case Reset => Traced(AfterReset(x.s), NO_HISTORY.(prepares := x.h.prepares, lasts := x.h.lasts))
  }

  function Run(s: Throttler, ops: seq<Op>): Traced {
    if ops == [] then Traced(s, NO_HISTORY) else Step(Run(s, ops[..|ops| - 1]), ops[|ops| - 1])
  }

  /** The last clock reading of an operation, and of a run. */
  function LastRead(op: Op, clock: nat): nat {
    match op
    case Prepare(_, now) => now
    case Try(t, _) => t.consume
    case SetThrottle(_) => clock
    case Reset => clock
  }

  function Clock(ops: seq<Op>): nat {
    if ops == [] then 0 else LastRead(ops[|ops| - 1], Clock(ops[..|ops| - 1]))
  }

  predicate InOrder(clock: nat, op: Op) {
    match op
    case Prepare(_, now) => clock <= now
    case Try(t, _) => clock <= t.eval <= t.push <= t.consume
    case SetThrottle(_) => true
    case Reset => true
  }

  ghost predicate WellTimed(ops: seq<Op>) {
    ops != [] ==> WellTimed(ops[..|ops| - 1]) && InOrder(Clock(ops[..|ops| - 1]), ops[|ops| - 1])
  }

  /** What the sender threads hand to `prepare`: at most one last packet per frame. */
  predicate OneLastPerFrame(ops: seq<Op>) {
    forall i :: 0 <= i < |ops| && ops[i].Prepare? ==> LastOnes(ops[i].packets) <= 1
  }

  predicate PositiveThrottles(ops: seq<Op>) {
    forall i :: 0 <= i < |ops| && ops[i].SetThrottle? ==> ops[i].theta > 0.0
  }

  /** The history that admitting a packet leaves alone. */
  lemma NoteExceedsWithFrame(s: Throttler, h: History, size: nat, t: Reads)
    ensures var h1 := NoteExceedsWith(s, h, size, t);
            && h1.offered == h.offered && h1.taken == h.taken && h1.consumed == h.consumed
            && h1.prepares == h.prepares && h1.lasts == h.lasts
  {
  }

  /** The two capacities never change, and the frame counter changes as the history says. */
  lemma {:induction false} StepKeepsSizes(x: Traced, op: Op)
    ensures var y := Step(x, op);
            && y.s.windowSize == x.s.windowSize && y.s.bufferSize == x.s.bufferSize
            && y.s.frameCount - y.h.prepares + y.h.lasts == x.s.frameCount - x.h.prepares + x.h.lasts
  {
    if op.Try? && x.s.buffer != [] {
      ExceedsWithFrame(x.s, x.s.buffer[0].packet.length, op.t);
      NoteExceedsWithFrame(x.s, x.h, x.s.buffer[0].packet.length, op.t);
    }
  }

  lemma {:induction false} RunKeepsSizes(s: Throttler, ops: seq<Op>)
    ensures var x := Run(s, ops);
            && x.s.windowSize == s.windowSize && x.s.bufferSize == s.bufferSize
            && x.s.frameCount - x.h.prepares + x.h.lasts == s.frameCount
  {
    hide Step;
    if ops != [] {
      RunKeepsSizes(s, ops[..|ops| - 1]);
      StepKeepsSizes(Run(s, ops[..|ops| - 1]), ops[|ops| - 1]);
    }
  }

  // ---------------------------------------------------------------------------------------------
  // Window accounting

  ghost predicate WindowInv(s: Throttler, h: History) {
    && Accounted(s)
    && h.admitted == h.gone + s.window
  }

  lemma AdmitKeepsWindow(s: Throttler, h: History, e: Entry)
    requires WindowInv(s, h)
    ensures WindowInv(Admit(s, e.size, e.time), NoteAdmit(s, h, e))
  {
    AdmitKeepsAccounted(s, e.size, e.time);
    var w := s.window + [e];
    assert w == [w[0]] + w[1..];
    assert h.admitted + [e] == h.gone + w;
  }

  lemma {:induction false} ExceedsWithKeepsWindow(s: Throttler, h: History, size: nat, t: Reads)
    requires WindowInv(s, h)
    ensures WindowInv(AfterExceedsWith(s, size, t).0, NoteExceedsWith(s, h, size, t))
  {
    var e := Entry(t.push, size);
    if s.throttle == 0.0 || s.window == [] {
      AdmitKeepsWindow(s, h, e);
    } else {
      var s1 := s.(accError := s.accError + size);
      var h1 := h.(asked := h.asked + [Entry(t.eval, size)]);
      AdmitKeepsWindow(CurrentRate(s1, size, t.eval).0, NoteRate(s1, h1, size, t.eval), e);
    }
  }

  lemma SettleKeepsWindow(s: Throttler, h: History, sent: bool, t: Reads)
    requires WindowInv(s, h) && s.buffer != []
    ensures WindowInv(AfterSettle(s, sent, t), NoteSettle(s, h, sent, t))
  {
  }

  lemma {:induction false} StepKeepsWindow(x: Traced, op: Op)
    requires WindowInv(x.s, x.h)
    ensures WindowInv(Step(x, op).s, Step(x, op).h)
  {
    match op
    case Prepare(_, _) =>
    case SetThrottle(_) =>
    case Reset =>
    case Try(t, sent) =>
      if x.s.buffer != [] {
        var size := x.s.buffer[0].packet.length;
        ExceedsWithKeepsWindow(x.s, x.h, size, t);
        SettleKeepsWindow(AfterExceedsWith(x.s, size, t).0, NoteExceedsWith(x.s, x.h, size, t), sent, t);
      }
  }

  lemma {:induction false} RunKeepsWindow(s: Throttler, ops: seq<Op>)
    requires Accounted(s) && s.window == []
    ensures WindowInv(Run(s, ops).s, Run(s, ops).h)
  {
    hide Step;
    if ops != [] {
      RunKeepsWindow(s, ops[..|ops| - 1]);
      StepKeepsWindow(Run(s, ops[..|ops| - 1]), ops[|ops| - 1]);
    }
  }

  /** In every run from a fresh throttler the running sum is the sum of the window, the admissions since
      the last reset are the evicted ones followed by the window, the window has at most `windowSize - 1`
      entries, and every admitted byte is either still in the sum or was evicted. */
  lemma WindowAccounting(theta: real, windowSize: nat, infinite: bool, ops: seq<Op>)
    ensures var x := Run(Fresh(theta, windowSize, infinite), ops);
            && x.s.sumBytes == Sum(x.s.window) >= 0
            && (windowSize > 0 ==> |x.s.window| <= windowSize - 1)
            && x.h.admitted == x.h.gone + x.s.window
            && Sum(x.h.admitted) == Sum(x.h.gone) + x.s.sumBytes
  {
    hide Step;
    var x := Run(Fresh(theta, windowSize, infinite), ops);
    RunKeepsWindow(Fresh(theta, windowSize, infinite), ops);
    RunKeepsSizes(Fresh(theta, windowSize, infinite), ops);
    SumConcat(x.h.gone, x.s.window);
  }

  // ---------------------------------------------------------------------------------------------
  // FIFO conservation

  /** The packets the buffer took: a prefix of each offered frame, in order. */
  function Taken(offered: seq<seq<PacketWithMeta>>, taken: seq<nat>): seq<PacketWithMeta>
    requires |offered| == |taken|
    requires forall i :: 0 <= i < |taken| ==> taken[i] <= |offered[i]|
  {
    if offered == [] then []
    else
      var n := |offered| - 1;
      Taken(offered[..n], taken[..n]) + offered[n][..taken[n]]
  }

  ghost predicate FifoInv(s: Throttler, h: History) {
    && |h.offered| == |h.taken|
    && (forall i :: 0 <= i < |h.taken| ==> h.taken[i] <= |h.offered[i]|)
    && (s.bufferSize == 0 ==> forall i :: 0 <= i < |h.taken| ==> h.taken[i] == |h.offered[i]|)
    && (s.bufferSize > 0 ==> |s.buffer| <= s.bufferSize)
    && h.consumed + s.buffer == Taken(h.offered, h.taken)
  }

  lemma SettleKeepsFifo(s: Throttler, h: History, sent: bool, t: Reads)
    requires FifoInv(s, h) && s.buffer != []
    ensures FifoInv(AfterSettle(s, sent, t), NoteSettle(s, h, sent, t))
  {
    assert s.buffer == [s.buffer[0]] + s.buffer[1..];
    assert (h.consumed + [s.buffer[0]]) + s.buffer[1..] == h.consumed + s.buffer;
  }

  lemma PrepareKeepsFifo(s: Throttler, h: History, packets: seq<PacketWithMeta>, now: nat)
    requires FifoInv(s, h)
    ensures FifoInv(AfterPrepare(s, packets, now), NotePrepare(s, h, packets, now))
  {
    var n := |h.offered|;
    var h1 := NotePrepare(s, h, packets, now);
    assert h1.offered[..n] == h.offered && h1.taken[..n] == h.taken;
    assert h.consumed + (s.buffer + packets[..Accepted(s, |packets|)])
        == (h.consumed + s.buffer) + packets[..Accepted(s, |packets|)];
  }

  lemma {:induction false} StepKeepsFifo(x: Traced, op: Op)
    requires FifoInv(x.s, x.h)
    ensures FifoInv(Step(x, op).s, Step(x, op).h)
  {
    match op
    case Prepare(packets, now) => PrepareKeepsFifo(x.s, x.h, packets, now);
    case SetThrottle(_) =>
    case Reset => assert FifoInv(AfterReset(x.s), Step(x, op).h);
    case Try(t, sent) =>
      if x.s.buffer != [] {
        var size := x.s.buffer[0].packet.length;
        ExceedsWithFrame(x.s, size, t);
        NoteExceedsWithFrame(x.s, x.h, size, t);
        SettleKeepsFifo(AfterExceedsWith(x.s, size, t).0, NoteExceedsWith(x.s, x.h, size, t), sent, t);
      }
  }

  /** FIFO conservation: what was consumed since the last reset, followed by what waits in the buffer,
      is exactly a prefix of each frame handed to `prepare`, in order; nothing is dropped from an
      unbounded buffer, and a bounded one never exceeds its capacity. */
  lemma {:induction false} FifoConservation(theta: real, windowSize: nat, infinite: bool, ops: seq<Op>)
    ensures var x := Run(Fresh(theta, windowSize, infinite), ops);
            && FifoInv(x.s, x.h)
            && x.s.bufferSize == (if infinite then 0 else CYCLED_RATIO * windowSize)
  {
    hide Step;
    if ops != [] {
      FifoConservation(theta, windowSize, infinite, ops[..|ops| - 1]);
      StepKeepsSizes(Run(Fresh(theta, windowSize, infinite), ops[..|ops| - 1]), ops[|ops| - 1]);
      StepKeepsFifo(Run(Fresh(theta, windowSize, infinite), ops[..|ops| - 1]), ops[|ops| - 1]);
    }
  }

  /** Only a full buffer drops, and it drops the tail of the frame. */
  lemma TailDrop(s: Throttler, packets: seq<PacketWithMeta>, now: nat)
    requires Valid(s)
    ensures var k := Accepted(s, |packets|);
            var b := AfterPrepare(s, packets, now).buffer;
            && k <= |packets| && b == s.buffer + packets[..k]
            && (k < |packets| <==> s.bufferSize > 0 && |s.buffer| + |packets| > s.bufferSize)
            && (k < |packets| ==> |b| == s.bufferSize)
  {
  }

  // ---------------------------------------------------------------------------------------------
  // Frame counter

  lemma {:induction false} StepKeepsValid(x: Traced, op: Op)
    requires Valid(x.s)
    requires op.Prepare? ==> LastOnes(op.packets) <= 1
    ensures Valid(Step(x, op).s)
  {
    match op
    case Prepare(packets, now) => PrepareKeepsValid(x.s, packets, now);
    case SetThrottle(_) =>
    case Reset =>
    case Try(t, sent) =>
      if x.s.buffer != [] {
        var size := x.s.buffer[0].packet.length;
        ExceedsWithKeepsValid(x.s, size, t);
        ExceedsWithFrame(x.s, size, t);
        SettleKeepsValid(AfterExceedsWith(x.s, size, t).0, sent, t);
        hide AfterExceedsWith, AfterSettle, Valid;
      }
  }

  lemma {:induction false} RunKeepsValid(s: Throttler, ops: seq<Op>)
    requires Valid(s) && OneLastPerFrame(ops)
    ensures Valid(Run(s, ops).s)
  {
    hide Step, Valid;
    if ops != [] {
      RunKeepsValid(s, ops[..|ops| - 1]);
      StepKeepsValid(Run(s, ops[..|ops| - 1]), ops[|ops| - 1]);
    }
  }

  /** Frame counter: it is the number of prepared frames less the number of last packets consumed, also
      across resets, and never less than the number of last packets still in the buffer; so it can be
      lowered whenever the head of the buffer is a last packet. */
  lemma {:induction false} FrameCounter(theta: real, windowSize: nat, infinite: bool, ops: seq<Op>)
    requires OneLastPerFrame(ops)
    ensures var x := Run(Fresh(theta, windowSize, infinite), ops);
            && x.s.frameCount == x.h.prepares - x.h.lasts
            && 0 <= LastOnes(x.s.buffer) <= x.s.frameCount
            && (x.s.buffer != [] && x.s.buffer[0].lastOne ==> x.s.frameCount >= 1)
  {
    hide Step;
    RunKeepsSizes(Fresh(theta, windowSize, infinite), ops);
    RunKeepsValid(Fresh(theta, windowSize, infinite), ops);
  }
}
