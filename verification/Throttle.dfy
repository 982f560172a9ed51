/** Throttle: the bounded packet queue behind a sliding-window rate limiter (tx/src/throttle.rs).
    Times are nanosecond readings of the system clock; sizes are bytes. */
module Throttle {
  import opened Wrappers
  import opened Packets

  const CYCLED_RATIO := 50

  datatype Entry = Entry(time: nat, size: nat)

  /** A rate in Mbit/s. Bytes over no elapsed time are an unbounded rate. */
  datatype Rate = Mbps(value: real) | Unbounded

  function RateOf(bytes: int, elapsed: int): Rate {
    if elapsed <= 0 then Unbounded else Mbps(8000.0 * bytes as real / elapsed as real)
  }

  predicate BelowThrottle(r: Rate, theta: real) {
    r.Mbps? && r.value < theta
  }

  /** Comparing the rate with the throttle is comparing the bytes with the budget of the elapsed time. */
  lemma BelowThrottleIsBudget(bytes: nat, elapsed: nat, theta: real)
    ensures BelowThrottle(RateOf(bytes, elapsed), theta) <==> 8000.0 * bytes as real < theta * elapsed as real
  {
    if elapsed > 0 {
      var e, b := elapsed as real, 8000.0 * bytes as real;
      assert (b / e) * e == b;
      if b / e < theta {
        assert (theta - b / e) * e > 0.0;
      } else {
        assert (b / e - theta) * e >= 0.0;
      }
    }
  }

  function Sum(w: seq<Entry>): nat {
    if w == [] then 0 else w[0].size + Sum(w[1..])
  }

  lemma {:induction false} SumConcat(a: seq<Entry>, b: seq<Entry>)
    ensures Sum(a + b) == Sum(a) + Sum(b)
  {
    if a == [] {
      assert a + b == b;
    } else {
      SumConcat(a[1..], b);
      assert (a + b)[1..] == a[1..] + b;
    }
  }

  /** The bytes of the entries from index `k` onward. */
  function BytesFrom(a: seq<Entry>, k: nat): nat
    decreases |a| - k
  {
    if k >= |a| then 0 else a[k].size + BytesFrom(a, k + 1)
  }

  lemma {:induction false} BytesFromConcat(a: seq<Entry>, b: seq<Entry>)
    ensures BytesFrom(a + b, |a|) == Sum(b)
    decreases |b|
  {
    if b != [] {
      BytesFromConcat(a + [b[0]], b[1..]);
      assert (a + [b[0]]) + b[1..] == a + b;
    }
  }

  lemma {:induction false} BytesFromSnoc(a: seq<Entry>, e: Entry, k: nat)
    requires k <= |a|
    ensures BytesFrom(a + [e], k) == BytesFrom(a, k) + e.size
    decreases |a| - k
  {
    if k < |a| {
      BytesFromSnoc(a, e, k + 1);
    } else {
      assert BytesFrom(a + [e], k + 1) == 0;
    }
  }

  function LastOnes(q: seq<PacketWithMeta>): nat {
    if q == [] then 0 else (if q[0].lastOne then 1 else 0) + LastOnes(q[1..])
  }

  lemma {:induction false} LastOnesConcat(a: seq<PacketWithMeta>, b: seq<PacketWithMeta>)
    ensures LastOnes(a + b) == LastOnes(a) + LastOnes(b)
  {
    if a == [] {
      assert a + b == b;
    } else {
      LastOnesConcat(a[1..], b);
      assert (a + b)[1..] == a[1..] + b;
    }
  }

  lemma {:induction false} LastOnesOfPrefix(q: seq<PacketWithMeta>, k: nat)
    requires k <= |q|
    ensures LastOnes(q[..k]) <= LastOnes(q)
  {
    if k < |q| {
      var front := q[..|q| - 1];
      LastOnesOfPrefix(front, k);
      LastOnesConcat(front, [q[|q| - 1]]);
      assert front + [q[|q| - 1]] == q && front[..k] == q[..k];
    } else {
      assert q[..k] == q;
    }
  }

  /** The observable state of a throttler. The source's counters are unsigned; they are integers here so
      that their never going below zero is a theorem. */
  datatype Throttler = Throttler(
    windowSize: nat, window: seq<Entry>, bufferSize: nat, buffer: seq<PacketWithMeta>,
    sumBytes: int, accError: int, maxError: nat, frameCount: int,
    throttle: real, lastRate: Rate)

  function Fresh(throttle: real, windowSize: nat, infiniteBuffer: bool): Throttler {
    Throttler(windowSize, [], if infiniteBuffer then 0 else CYCLED_RATIO * windowSize, [],
              0, 0, windowSize / 100 * UDP_MAX_LENGTH, 0, throttle, Mbps(0.0))
  }

  /** The running sum is the sum of the window, and the window and the buffer are within their bounds. */
  ghost predicate Accounted(s: Throttler) {
    && s.sumBytes == Sum(s.window)
    && s.accError >= 0
    && (s.windowSize > 0 ==> |s.window| <= s.windowSize - 1)
    && (s.bufferSize > 0 ==> |s.buffer| <= s.bufferSize)
  }

  /** In addition, every frame whose last packet waits in the buffer is counted. */
  ghost predicate Valid(s: Throttler) {
    Accounted(s) && LastOnes(s.buffer) <= s.frameCount
  }

  /** The clock has not gone behind the window. */
  predicate Timely(s: Throttler, now: nat) {
    forall i :: 0 <= i < |s.window| ==> s.window[i].time <= now
  }

  /** Whether asking for the rate computes it instead of returning the cached one. */
  predicate Evaluates(s: Throttler) {
    s.accError >= s.maxError && s.window != []
  }

  function CurrentRate(s: Throttler, extra: nat, now: nat): (Throttler, Option<Rate>) {
    if s.accError < s.maxError then (s, Some(s.lastRate))
    else if s.window == [] then (s.(accError := 0), None)
    else
      var rate := RateOf(s.sumBytes + extra, now - s.window[0].time);
      (s.(accError := 0, lastRate := rate), Some(rate))
  }

  /** How many of `n` packets still fit the buffer. */
  function Accepted(s: Throttler, n: nat): nat {
    if s.bufferSize == 0 then n
    else if |s.buffer| >= s.bufferSize then 0
    else if n <= s.bufferSize - |s.buffer| then n
    else s.bufferSize - |s.buffer|
  }

  function AfterPrepare(s: Throttler, packets: seq<PacketWithMeta>, now: nat): Throttler {
    var s1 := CurrentRate(s, 0, now).0;
    s1.(buffer := s1.buffer + packets[..Accepted(s1, |packets|)], frameCount := s1.frameCount + 1)
  }

  /** Offering the packets one by one accepts the same prefix. */
  lemma AcceptOneMore(s: Throttler, packets: seq<PacketWithMeta>, i: nat)
    requires i < |packets| && (s.bufferSize > 0 ==> |s.buffer| <= s.bufferSize)
    ensures var q := s.buffer + packets[..Accepted(s, i)];
            s.buffer + packets[..Accepted(s, i + 1)]
            == if s.bufferSize > 0 && |q| == s.bufferSize then q else q + [packets[i]]
  {
  }

  /** Puts an admitted size in the window and evicts the oldest one when the window reaches its size. */
  function Admit(s: Throttler, size: nat, now: nat): Throttler {
    var w := s.window + [Entry(now, size)];
    if s.windowSize > 0 && |w| == s.windowSize then
      s.(window := w[1..], sumBytes := s.sumBytes + size - w[0].size, accError := s.accError + w[0].size)
    else
      s.(window := w, sumBytes := s.sumBytes + size)
  }

  /** The clock readings of one attempt: for the rate, for the window entry and when consuming. */
  datatype Reads = Reads(eval: nat, push: nat, consume: nat)

  function AfterExceedsWith(s: Throttler, size: nat, t: Reads): (Throttler, bool) {
    if s.throttle == 0.0 || s.window == [] then (Admit(s, size, t.push), false)
    else
      var (s1, rate) := CurrentRate(s.(accError := s.accError + size), size, t.eval);
      if rate.Some? && BelowThrottle(rate.value, s.throttle) then (Admit(s1, size, t.push), false)
      else (s1, true)
  }

  function AfterConsume(s: Throttler, now: nat): Throttler {
    var s1 := CurrentRate(s, 0, now).0;
    if s1.buffer == [] then s1 else s1.(buffer := s1.buffer[1..])
  }

  /** What follows the admission of the head packet, given whether its send succeeded. */
  function AfterSettle(s: Throttler, sent: bool, t: Reads): Throttler
    requires s.buffer != []
  {
    if !sent then s
    else AfterConsume(if s.buffer[0].lastOne then s.(frameCount := s.frameCount - 1) else s, t.consume)
  }

  datatype Attempted = Idle | Throttled | Refused | Consumed(packet: PacketWithMeta)

  /** One attempt to consume the head packet; `sent` is the answer of the send callback, which is asked
      only when the throttler admits the packet. */
  function AfterTryConsume(s: Throttler, t: Reads, sent: bool): (Throttler, Attempted) {
    if s.buffer == [] then (s, Idle)
    else
      var (s1, exceeded) := AfterExceedsWith(s, s.buffer[0].packet.length, t);
      if exceeded then (s1, Throttled)
      else (AfterSettle(s1, sent, t), if sent then Consumed(s.buffer[0]) else Refused)
  }

  function AfterReset(s: Throttler): Throttler {
    s.(lastRate := Mbps(0.0), sumBytes := 0, accError := 0, maxError := 0, window := [], buffer := [])
  }

  /** The parts of a throttler that admitting a packet leaves alone. */
  lemma ExceedsWithFrame(s: Throttler, size: nat, t: Reads)
    ensures var s1 := AfterExceedsWith(s, size, t).0;
            && s1.buffer == s.buffer && s1.bufferSize == s.bufferSize && s1.windowSize == s.windowSize
            && s1.maxError == s.maxError && s1.throttle == s.throttle && s1.frameCount == s.frameCount
  {
  }

  lemma ExceedsWithKeepsTimely(s: Throttler, size: nat, t: Reads)
    requires Timely(s, t.push)
    ensures Timely(AfterExceedsWith(s, size, t).0, t.push)
  {
  }

  lemma AdmitKeepsAccounted(s: Throttler, size: nat, now: nat)
    requires Accounted(s)
    ensures Accounted(Admit(s, size, now))
  {
    var w := s.window + [Entry(now, size)];
    SumConcat(s.window, [Entry(now, size)]);
    assert Sum([Entry(now, size)]) == size + Sum([]);
    assert w[0].size + Sum(w[1..]) == Sum(w);
  }

  lemma AdmitKeepsValid(s: Throttler, size: nat, now: nat)
    requires Valid(s)
    ensures Valid(Admit(s, size, now))
  {
    AdmitKeepsAccounted(s, size, now);
    hide Accounted;
  }

  lemma ExceedsWithKeepsValid(s: Throttler, size: nat, t: Reads)
    requires Valid(s)
    ensures Valid(AfterExceedsWith(s, size, t).0)
  {
    if s.throttle == 0.0 || s.window == [] {
      AdmitKeepsValid(s, size, t.push);
    } else {
      AdmitKeepsValid(CurrentRate(s.(accError := s.accError + size), size, t.eval).0, size, t.push);
    }
  }

  lemma PrepareKeepsValid(s: Throttler, packets: seq<PacketWithMeta>, now: nat)
    requires Valid(s) && LastOnes(packets) <= 1
    ensures Valid(AfterPrepare(s, packets, now))
  {
    var k := Accepted(s, |packets|);
    LastOnesOfPrefix(packets, k);
    LastOnesConcat(s.buffer, packets[..k]);
  }

  lemma SettleKeepsValid(s: Throttler, sent: bool, t: Reads)
    requires Valid(s) && s.buffer != []
    ensures Valid(AfterSettle(s, sent, t))
  {
    assert LastOnes(s.buffer) == (if s.buffer[0].lastOne then 1 else 0) + LastOnes(s.buffer[1..]);
  }

  /** A queue over a sequence with the source's two bounded ways to push. */
  class CycledVecDequeue<T> {
    const size: nat
    var fifo: seq<T>

    constructor (size: nat)
      ensures this.size == size && fifo == []
    {
      this.size := size;
      fifo := [];
    }

    /** Evicts as soon as the length equals the size, so at most `size - 1` items stay. */
    method Push(item: T) returns (evicted: Option<T>)
      modifies this
      ensures var all := old(fifo) + [item];
              if size > 0 && |all| == size then fifo == all[1..] && evicted == Some(all[0])
              else fifo == all && evicted == None
    {
      fifo := fifo + [item];
      if size > 0 && |fifo| == size {
        evicted := PopFront();
      } else {
        evicted := None;
      }
    }

    method TryPush(item: T) returns (ok: bool)
      modifies this
      ensures ok == !(size > 0 && old(|fifo|) == size)
      ensures fifo == if ok then old(fifo) + [item] else old(fifo)
    {
      if size > 0 && |fifo| == size {
        return false;
      }
      fifo := fifo + [item];
      ok := true;
    }

    method PopFront() returns (item: Option<T>)
      modifies this
      ensures if old(fifo) == [] then fifo == [] && item == None
              else fifo == old(fifo)[1..] && item == Some(old(fifo)[0])
    {
      if fifo == [] {
        return None;
      }
      item := Some(fifo[0]);
      fifo := fifo[1..];
    }

    method Clear()
      modifies this
      ensures fifo == []
    {
      fifo := [];
    }
  }

  class RateThrottler {
    const window: CycledVecDequeue<Entry>
    const buffer: CycledVecDequeue<PacketWithMeta>
    var sumBytes: nat
    var accError: nat
    var maxError: nat
    var frameCount: nat
    var throttle: real
    var lastRate: Rate

    constructor (throttle: real, windowSize: nat, infiniteBuffer: bool)
      ensures Invariant() && fresh(window) && fresh(buffer)
      ensures Model() == Fresh(throttle, windowSize, infiniteBuffer)
    {
      var b := new CycledVecDequeue<PacketWithMeta>(if infiniteBuffer then 0 else CYCLED_RATIO * windowSize);
      var w := new CycledVecDequeue<Entry>(windowSize);
      buffer := b;
      window := w;
      maxError := windowSize / 100 * UDP_MAX_LENGTH;
      this.throttle, lastRate := throttle, Mbps(0.0);
      sumBytes, accError, frameCount := 0, 0, 0;
    }

    ghost function Model(): Throttler
      reads this, window, buffer
    {
      Throttler(window.size, window.fifo, buffer.size, buffer.fifo,
                sumBytes, accError, maxError, frameCount, throttle, lastRate)
    }

    ghost predicate Invariant()
      reads this, window, buffer
    {
      window as object != buffer as object && Valid(Model())
    }

    method Reset()
      requires Invariant()
      modifies this, window, buffer
      ensures Invariant() && Model() == AfterReset(old(Model()))
    {
      lastRate := Mbps(0.0);
      sumBytes, accError, maxError := 0, 0, 0;
      window.Clear();
      buffer.Clear();
    }

    /** All of the invariant but the frame counter, which `Settle` lowers before it pops the packet. */
    ghost predicate Sound()
      reads this, window, buffer
    {
      window as object != buffer as object && Accounted(Model())
    }

    /** A clock behind the oldest window entry is a panic, hence the precondition. */
    method CurrentRateMbps(extraBytes: Option<nat>, now: nat) returns (rate: Option<Rate>)
      requires Sound() && Timely(Model(), now)
      modifies this`accError, this`lastRate
      ensures Sound()
      ensures (Model(), rate) == CurrentRate(old(Model()), extraBytes.GetOr(0), now)
    {
      if accError < maxError {
        return Some(lastRate);
      }
      accError := 0;
      var accSize := sumBytes + extraBytes.GetOr(0);
      if window.fifo == [] {
        return None;
      }
      var accTime := now - window.fifo[0].time;
      lastRate := RateOf(accSize, accTime);
      rate := Some(lastRate);
    }

    /** The caller hands over the packets of one frame, of which at most one is marked last. */
    method Prepare(packets: seq<PacketWithMeta>, now: nat)
      requires Invariant() && Timely(Model(), now)
      requires LastOnes(packets) <= 1
      modifies this, buffer
      ensures Invariant() && Model() == AfterPrepare(old(Model()), packets, now)
    {
      PrepareKeepsValid(Model(), packets, now);
      hide Valid;
      var _ := CurrentRateMbps(None, now);
      ghost var s := Model();
      for i := 0 to |packets|
        invariant unchanged(window)
        invariant Model() == s.(buffer := s.buffer + packets[..Accepted(s, i)])
      {
        AcceptOneMore(s, packets, i);
        var _ := buffer.TryPush(packets[i]);
      }
      frameCount := frameCount + 1;
    }

    /** Counts `sizeBytes` towards the rate when it is admitted. */
    method ExceedsWith(sizeBytes: nat, t: Reads) returns (exceeded: bool)
      requires Invariant() && Timely(Model(), t.eval)
      modifies this, window
      ensures Invariant()
      ensures (Model(), exceeded) == AfterExceedsWith(old(Model()), sizeBytes, t)
    {
      if throttle == 0.0 || window.fifo == [] {
        Record(sizeBytes, t.push);
        return false;
      }
      accError := accError + sizeBytes;
      var rate := CurrentRateMbps(Some(sizeBytes), t.eval);
      if BelowThrottle(rate.value, throttle) {
        Record(sizeBytes, t.push);
        exceeded := false;
      } else {
        exceeded := true;
      }
    }

    /** The window push shared by both admissions of `ExceedsWith`. */
    method Record(sizeBytes: nat, now: nat)
      requires Invariant()
      modifies this`sumBytes, this`accError, window
      ensures Invariant() && Model() == Admit(old(Model()), sizeBytes, now)
    {
      AdmitKeepsValid(Model(), sizeBytes, now);
      sumBytes := sumBytes + sizeBytes;
      var evicted := window.Push(Entry(now, sizeBytes));
      if evicted.Some? {
        sumBytes := sumBytes - evicted.value.size;
        accError := accError + evicted.value.size;
      }
    }

    method Consume(now: nat) returns (packet: Option<PacketWithMeta>)
      requires Sound() && Timely(Model(), now)
      modifies this`accError, this`lastRate, buffer
      ensures Sound() && Model() == AfterConsume(old(Model()), now)
      ensures packet == if old(buffer.fifo) == [] then None else Some(old(buffer.fifo)[0])
    {
      var _ := CurrentRateMbps(None, now);
      packet := buffer.PopFront();
    }

    /** What `TryConsume` does with the answer of the send callback. */
    method Settle(packet: PacketWithMeta, sent: bool, t: Reads)
      requires Invariant() && Timely(Model(), t.consume)
      requires buffer.fifo != [] && buffer.fifo[0] == packet
      modifies this`accError, this`lastRate, this`frameCount, buffer
      ensures Invariant() && Model() == AfterSettle(old(Model()), sent, t)
    {
      SettleKeepsValid(Model(), sent, t);
      if sent {
        if packet.lastOne {
          frameCount := frameCount - 1;
        }
        var _ := Consume(t.consume);
      }
    }

    method TryConsume(callback: PacketWithMeta -> bool, t: Reads) returns (outcome: Attempted)
      requires Invariant()
      requires Timely(Model(), t.eval) && t.eval <= t.push <= t.consume
      modifies this, window, buffer
      ensures Invariant()
      ensures var sent := old(buffer.fifo) != [] && callback(old(buffer.fifo)[0]);
              (Model(), outcome) == AfterTryConsume(old(Model()), t, sent)
    {
      if buffer.fifo == [] {
        return Idle;
      }
      var packet := buffer.fifo[0];
      var exceeded := ExceedsWith(packet.packet.length, t);
      if exceeded {
        return Throttled;
      }
      var sent := callback(packet);
      Settle(packet, sent, t);
      outcome := if sent then Consumed(packet) else Refused;
    }

    method SetThrottle(throttle: real)
      requires Invariant()
      modifies this`throttle
      ensures Invariant() && Model() == old(Model()).(throttle := throttle)
    {
      this.throttle := throttle;
    }
  }
}
