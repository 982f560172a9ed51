/** RttAverages: what a call of `statistic` returns, over every run of the ring. */
module RttAverages {
  import opened Arithmetic
  import opened Wrappers
  import opened RttRecords
  import opened RttRuns

  /** Adds a value of each slot to the account of its frame. */
  function Spread(slots: Slots, values: seq<real>, n: nat, acc: seq<real>): (r: seq<real>)
    requires n <= |slots| == |values|
    ensures |r| == |acc|
  {
    if n == 0 then acc
    else
      var c := Spread(slots, values, n - 1, acc);
      match slots[n - 1]
      case None => c
      case Some(e) => if 1 <= e.seqNo <= |c| then c[e.seqNo - 1 := c[e.seqNo - 1] + values[n - 1]] else c
  }

  /** The values of the first slots that hold an entry. */
  function SumTo(slots: Slots, values: seq<real>, n: nat): real
    requires n <= |slots| == |values|
  {
    if n == 0 then 0.0 else SumTo(slots, values, n - 1) + if slots[n - 1].Some? then values[n - 1] else 0.0
  }

  lemma {:induction false} SpreadAddsUp(slots: Slots, values: seq<real>, n: nat, acc: seq<real>)
    requires n <= |slots| == |values|
    requires forall i :: 0 <= i < |slots| && slots[i].Some? ==> 1 <= slots[i].value.seqNo <= |acc|
    ensures Total(Spread(slots, values, n, acc)) == Total(acc) + SumTo(slots, values, n)
  {
    if n > 0 {
      SpreadAddsUp(slots, values, n - 1, acc);
      if slots[n - 1].Some? {
        var c, k := Spread(slots, values, n - 1, acc), slots[n - 1].value.seqNo - 1;
        TotalOfUpdate(c, k, c[k] + values[n - 1]);
      }
    }
  }

  lemma {:induction false} SpreadOnce(slots: Slots, values: seq<real>, k: nat, acc: seq<real>, n: nat)
    requires k <= |slots| == |values| && |slots| > 0 && 1 <= n <= |acc|
    requires forall i :: 0 <= i < |slots| && slots[i].Some? ==> Remainder(slots[i].value.seqNo, |slots|) == i
    ensures var i := Remainder(n, |slots|);
            Spread(slots, values, k, acc)[n - 1]
            == acc[n - 1] + if i < k && slots[i].Some? && slots[i].value.seqNo == n then values[i] else 0.0
  {
    hide Remainder;
    if k > 0 {
      SpreadOnce(slots, values, k - 1, acc, n);
    }
  }

  /** The round-trip time an acked entry contributes, and that it counts as one. */
  function RttsOf(slots: Slots): (v: seq<real>)
    ensures |v| == |slots|
  {
    seq(|slots|, i requires 0 <= i < |slots| =>
      if slots[i].Some? && slots[i].value.pongTime.Some? then slots[i].value.pongTime.value - slots[i].value.arrivalTime
      else 0.0)
  }

  function OnesOf(slots: Slots): (v: seq<real>)
    ensures |v| == |slots|
  {
    seq(|slots|, i requires 0 <= i < |slots| =>
      if slots[i].Some? && slots[i].value.pongTime.Some? then 1.0 else 0.0)
  }

  lemma {:induction false} SumsAreSums(slots: Slots, n: nat, now: real)
    requires n <= |slots|
    ensures SumsOf(slots, n, now).rtts == SumTo(slots, RttsOf(slots), n)
    ensures SumsOf(slots, n, now).count as real == SumTo(slots, OnesOf(slots), n)
  {
    if n > 0 {
      SumsAreSums(slots, n - 1, now);
    }
  }

  /** The frames among the first `n` that a call collected, and their round-trip times. */
  predicate Newly(h: History, h': History, n: nat) {
    n in h'.collected && n !in h.collected
  }

  function CountNew(h: History, h': History, n: nat): nat {
    if n == 0 then 0 else CountNew(h, h', n - 1) + if Newly(h, h', n) then 1 else 0
  }

  function RttOf(h: History, n: nat): real {
    if 1 <= n <= |h.arrivals| && n in h.pongs then h.pongs[n] - h.arrivals[n - 1] else 0.0
  }

  function RttNew(h: History, h': History, n: nat): real {
    if n == 0 then 0.0 else RttNew(h, h', n - 1) + if Newly(h, h', n) then RttOf(h, n) else 0.0
  }

  lemma {:induction false} TotalOfNew(q: seq<real>, ones: seq<real>, h: History, h': History, n: nat)
    requires n <= |q| == |ones|
    requires forall k: nat :: 1 <= k <= |q| ==> q[k - 1] == if Newly(h, h', k) then RttOf(h, k) else 0.0
    requires forall k: nat :: 1 <= k <= |q| ==> ones[k - 1] == if Newly(h, h', k) then 1.0 else 0.0
    ensures Total(q[..n]) == RttNew(h, h', n) && Total(ones[..n]) == CountNew(h, h', n) as real
  {
    hide Newly, RttOf;
    if n > 0 {
      TotalOfNew(q, ones, h, h', n - 1);
      assert q[..n][..n - 1] == q[..n - 1] && ones[..n][..n - 1] == ones[..n - 1];
    }
  }

  function Zeros(n: nat): (z: seq<real>)
    ensures |z| == n && Total(z) == 0.0 && forall i :: 0 <= i < n ==> z[i] == 0.0
  {
    if n == 0 then [] else
      var z := Zeros(n - 1) + [0.0];
      assert z[..n - 1] == Zeros(n - 1);
      z
  }

  /** A call collects the recent frames that were acked. */
  lemma NewlyIsRecent(s: State, now: real, n: nat)
    requires |s.slots| > 0 && Agrees(s)
    ensures Newly(s.h, Step(s, Statistic(now)).value.h, n) <==> Recent(s.h, n, |s.slots|) && n in s.h.pongs
  {
    DroppedAreAcked(s);
    hide Agrees, Dropped, Collected, ChargeAll, SumsOf;
  }

  /** What a frame contributes to the sums is what its history says. */
  lemma FrameContributes(s: State, now: real, n: nat)
    requires |s.slots| > 0 && Agrees(s) && 1 <= n <= |s.h.arrivals|
    ensures var h', zeros := Step(s, Statistic(now)).value.h, Zeros(|s.h.arrivals|);
            && Spread(s.slots, RttsOf(s.slots), |s.slots|, zeros)[n - 1]
               == (if Newly(s.h, h', n) then RttOf(s.h, n) else 0.0)
            && Spread(s.slots, OnesOf(s.slots), |s.slots|, zeros)[n - 1] == if Newly(s.h, h', n) then 1.0 else 0.0
  {
    NewlyIsRecent(s, now, n);
    SpreadOnce(s.slots, RttsOf(s.slots), |s.slots|, Zeros(|s.h.arrivals|), n);
    SpreadOnce(s.slots, OnesOf(s.slots), |s.slots|, Zeros(|s.h.arrivals|), n);
    hide Remainder, Spread, Zeros, Step, Newly;
    var i := Remainder(n, |s.slots|);
    if Recent(s.h, n, |s.slots|) {
      assert s.slots[i] == Some(EntryOf(s, n));
    }
  }

  lemma {:induction false} SumsOfNew(s: State, now: real)
    requires |s.slots| > 0 && Agrees(s)
    ensures var h', n := Step(s, Statistic(now)).value.h, |s.h.arrivals|;
            && SumsOf(s.slots, |s.slots|, now).rtts == RttNew(s.h, h', n)
            && SumsOf(s.slots, |s.slots|, now).count == CountNew(s.h, h', n)
  {
    var h', n, zeros := Step(s, Statistic(now)).value.h, |s.h.arrivals|, Zeros(|s.h.arrivals|);
    var rtts := Spread(s.slots, RttsOf(s.slots), |s.slots|, zeros);
    var ones := Spread(s.slots, OnesOf(s.slots), |s.slots|, zeros);
    SumsAreSums(s.slots, |s.slots|, now);
    forall k: nat | 1 <= k <= n
      ensures rtts[k - 1] == if Newly(s.h, h', k) then RttOf(s.h, k) else 0.0
      ensures ones[k - 1] == if Newly(s.h, h', k) then 1.0 else 0.0
    {
      FrameContributes(s, now, k);
    }
    EntriesAreIssued(s);
    hide Agrees, Step, Newly, RttOf, Spread, SumTo, SumsOf, Zeros, RttsOf, OnesOf, Total;
    TotalOfNew(rtts, ones, s.h, h', n);
    assert rtts[..n] == rtts && ones[..n] == ones;
    SpreadAddsUp(s.slots, RttsOf(s.slots), |s.slots|, zeros);
    SpreadAddsUp(s.slots, OnesOf(s.slots), |s.slots|, zeros);
  }

  lemma EntriesAreIssued(s: State)
    requires Agrees(s)
    ensures forall i :: 0 <= i < |s.slots| && s.slots[i].Some? ==> 1 <= s.slots[i].value.seqNo <= |s.h.arrivals|
  {
    hide Remainder;
  }

  /** What `statistic` returns: after any run, the average times the number of frames that the call collects
      is the sum of their times from arrival to pong, and 0 if it collects none; and the outage rate times the
      target is what the call charges the frames, a target of 0 aside. */
  lemma {:induction false} ReportIsExact(maxLength: nat, target: real, ops: seq<Op>, now: real)
    requires maxLength > 0 && target >= 0.0 && WellTimed(ops)
    requires Run(Start(maxLength, target), ops).Some?
    ensures var s := Run(Start(maxLength, target), ops).value;
            var h', n := Step(s, Statistic(now)).value.h, |s.h.arrivals|;
            var (average, rate) := Report(s.slots, now, target);
            && CountNew(s.h, h', n) == |set k: nat | 1 <= k <= n && Newly(s.h, h', k)|
            && average * CountNew(s.h, h', n) as real == RttNew(s.h, h', n)
            && (CountNew(s.h, h', n) == 0 ==> average == 0.0)
            && (target > 0.0 ==> rate.Finite? && rate.value * target == h'.reported - s.h.reported)
            && (target == 0.0 ==> rate == if h'.reported == s.h.reported then NotANumber else Infinite)
  {
    hide AverageOf, RateOfOutages, WellTimed, Run, SumsOf, CountNew, RttNew, Agrees, Settled, Accounted;
    hide ChargeAll, Newly, Collected, Dropped;
    RunIsSound(maxLength, target, ops);
    var s := Run(Start(maxLength, target), ops).value;
    SumsOfNew(s, now);
    CountNewIsSize(s.h, Step(s, Statistic(now)).value.h, |s.h.arrivals|);
    NoneNew(s.h, Step(s, Statistic(now)).value.h, |s.h.arrivals|);
    QuotientsOf(SumsOf(s.slots, |s.slots|, now), target);
  }

  lemma QuotientsOf(sums: Sums, target: real)
    ensures sums.count > 0 ==> AverageOf(sums) * sums.count as real == sums.rtts
    ensures sums.count == 0 ==> AverageOf(sums) == 0.0
    ensures var rate := RateOfOutages(sums.outages, target);
            && (target != 0.0 ==> rate.Finite? && rate.value * target == sums.outages)
            && (target == 0.0 ==> rate == if sums.outages == 0.0 then NotANumber else Infinite)
  {
    QuotientOf(sums.rtts, sums.count as real);
    QuotientOf(sums.outages, target);
  }

  lemma QuotientOf(a: real, b: real)
    ensures b != 0.0 ==> (a / b) * b == a
  {
  }

  lemma {:induction false} NoneNew(h: History, h': History, n: nat)
    ensures CountNew(h, h', n) == 0 ==> RttNew(h, h', n) == 0.0
  {
    hide Newly;
    if n > 0 {
      NoneNew(h, h', n - 1);
    }
  }

  /** The frames collected are counted one by one. */
  lemma {:induction false} CountNewIsSize(h: History, h': History, n: nat)
    ensures CountNew(h, h', n) == |set k: nat | 1 <= k <= n && Newly(h, h', k)|
  {
    hide Newly;
    if n == 0 {
      assert (set k: nat | 1 <= k <= n && Newly(h, h', k)) == {};
    } else {
      CountNewIsSize(h, h', n - 1);
      var before := set k: nat | 1 <= k <= n - 1 && Newly(h, h', k);
      assert (set k: nat | 1 <= k <= n && Newly(h, h', k)) == before + if Newly(h, h', n) then {n} else {};
    }
  }
}
