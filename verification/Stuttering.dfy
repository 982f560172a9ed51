/** Stuttering: how much of the time between the first and the last frame was spent in long gaps
    (rx/src/statistic/stuttering.rs). */
module Stuttering {

  const PERIOD := 0.016

  datatype StutterState = StutterState(startTime: real, endTime: real, ackTimes: seq<real>)

  const NO_STUTTER := StutterState(0.0, 0.0, [])

  function AfterUpdate(s: StutterState, time: real): StutterState {
    var s1 := if s.startTime == 0.0 then s.(startTime := time) else s.(endTime := time);
    s1.(ackTimes := s.ackTimes + [time])
  }

  /** The time between an ack and the one before it. */
  function Gap(times: seq<real>, i: nat): real
    requires 0 < i < |times|
  {
    times[i] - times[i - 1]
  }

  /** The excess of the gap that ends at index `i` over one period, if it exceeds two. */
  function Excess(times: seq<real>, i: nat): real
    requires 0 < i < |times|
  {
    var diff := Gap(times, i) - PERIOD;
    if diff > PERIOD then diff else 0.0
  }

  /** The excesses of the first `n` times. */
  function TotalExcess(times: seq<real>, n: nat): real
    requires n <= |times|
  {
    if n < 2 then 0.0 else TotalExcess(times, n - 1) + Excess(times, n - 1)
  }

  function Ratio(s: StutterState): real {
    var total := TotalExcess(s.ackTimes, |s.ackTimes|);
    if total == 0.0 || s.endTime == s.startTime then 0.0 else total / (s.endTime - s.startTime)
  }

  class Stutter {
    var startTime: real
    var endTime: real
    var ackTimes: seq<real>

    constructor ()
      ensures Model() == NO_STUTTER
    {
      startTime, endTime, ackTimes := 0.0, 0.0, [];
    }

    ghost function Model(): StutterState
      reads this
    {
      StutterState(startTime, endTime, ackTimes)
    }

    method Update(time: real)
      modifies this
      ensures Model() == AfterUpdate(old(Model()), time)
    {
      if startTime == 0.0 {
        startTime := time;
      } else {
        endTime := time;
      }
      ackTimes := ackTimes + [time];
    }

    /** A zero duration would make the quotient infinite; `RatioIsAFraction` shows it does not occur. */
    method GetStuttering() returns (ratio: real)
      requires TotalExcess(ackTimes, |ackTimes|) != 0.0 ==> endTime != startTime
      ensures ratio == Ratio(Model())
    {
      if |ackTimes| < 2 {
        return 0.0;
      }
      var stuttering := 0.0;
      for i := 1 to |ackTimes|
        invariant stuttering == TotalExcess(ackTimes, i)
      {
        var diff := ackTimes[i] - ackTimes[i - 1] - PERIOD;
        if diff > PERIOD {
          stuttering := stuttering + diff;
        }
      }
      if stuttering == 0.0 {
        return 0.0;
      }
      ratio := stuttering / (endTime - startTime);
    }
  }

  /** The tracker after a sequence of acks. */
  function AfterAcks(times: seq<real>): StutterState {
    if times == [] then NO_STUTTER else AfterUpdate(AfterAcks(times[..|times| - 1]), times[|times| - 1])
  }

  predicate Nondecreasing(times: seq<real>) {
    forall i, j :: 0 <= i <= j < |times| ==> times[i] <= times[j]
  }

  /** The tracker keeps the first and the last time. */
  lemma {:induction false} TracksFirstAndLast(times: seq<real>)
    requires Nondecreasing(times) && (times != [] ==> times[0] > 0.0)
    ensures AfterAcks(times).ackTimes == times
    ensures times != [] ==> AfterAcks(times).startTime == times[0]
    ensures |times| >= 2 ==> AfterAcks(times).endTime == times[|times| - 1]
  {
    if times != [] {
      var front, last := times[..|times| - 1], times[|times| - 1];
      TracksFirstAndLast(front);
      assert Nondecreasing(front) && 0.0 < times[0] <= last;
      hide Nondecreasing;
      assert AfterAcks(times) == AfterUpdate(AfterAcks(front), last);
      assert front + [last] == times;
      if front != [] {
        assert front[0] == times[0];
      }
    }
  }

  /** The excesses leave out a period for every gap they count. */
  lemma {:induction false} ExcessBelowSpan(times: seq<real>, n: nat)
    requires Nondecreasing(times) && 0 < n <= |times|
    ensures 0.0 <= TotalExcess(times, n) <= times[n - 1] - times[0]
    ensures TotalExcess(times, n) > 0.0 ==> TotalExcess(times, n) < times[n - 1] - times[0]
    ensures TotalExcess(times, n) == 0.0 <==> forall i :: 0 < i < n ==> Gap(times, i) <= 2.0 * PERIOD
  {
    if n > 1 {
      ExcessBelowSpan(times, n - 1);
    }
  }

  lemma Scaling(q: real, span: real, total: real)
    requires span > 0.0 && q * span == total
    ensures q <= 0.0 ==> total <= 0.0
    ensures q >= 1.0 ==> total >= span
  {
    if q <= 0.0 {
      assert -q * span >= 0.0;
    } else if q >= 1.0 {
      assert (q - 1.0) * span >= 0.0;
    }
  }

  lemma FractionBelowOne(total: real, span: real)
    requires 0.0 < total < span
    ensures 0.0 < total / span < 1.0
  {
    var q := total / span;
    assert q * span == total;
    Scaling(q, span, total);
  }

  /** Stuttering ratio: for any nondecreasing acks after time zero the ratio is at least 0 and below 1, it
      is 0 exactly when no gap exceeds two periods, and it is never a quotient by zero. */
  lemma RatioIsAFraction(times: seq<real>)
    requires Nondecreasing(times) && (times != [] ==> times[0] > 0.0)
    ensures var s := AfterAcks(times);
            && 0.0 <= Ratio(s) < 1.0
            && (Ratio(s) == 0.0 <==> forall i :: 0 < i < |times| ==> Gap(times, i) <= 2.0 * PERIOD)
            && (TotalExcess(s.ackTimes, |s.ackTimes|) != 0.0 ==> s.endTime != s.startTime)
  {
    hide AfterAcks, TotalExcess, Gap, Nondecreasing;
    TracksFirstAndLast(times);
    if times == [] {
      NoAcksNoExcess();
    } else {
      ExcessBelowSpan(times, |times|);
      var s := AfterAcks(times);
      var total, span := TotalExcess(times, |times|), s.endTime - s.startTime;
      OneAckNoExcess(times);
      if total > 0.0 {
        FractionBelowOne(total, span);
      }
    }
  }

  lemma NoAcksNoExcess()
    ensures AfterAcks([]) == NO_STUTTER && TotalExcess([], 0) == 0.0
  {
  }

  lemma OneAckNoExcess(times: seq<real>)
    ensures |times| == 1 ==> TotalExcess(times, |times|) == 0.0
  {
  }

  /** How many of the first gaps are longer than 32 ms, and how long they are together. */
  function LongGaps(times: seq<real>, n: nat): nat
    requires n <= |times|
  {
    if n < 2 then 0 else LongGaps(times, n - 1) + if times[n - 1] - times[n - 2] > 0.032 then 1 else 0
  }

  function LongTime(times: seq<real>, n: nat): real
    requires n <= |times|
  {
    if n < 2 then 0.0
    else
      var gap := times[n - 1] - times[n - 2];
      LongTime(times, n - 1) + if gap > 0.032 then gap else 0.0
  }

  lemma {:induction false} ExcessOfLongGaps(times: seq<real>, n: nat)
    requires n <= |times|
    ensures TotalExcess(times, n) == LongTime(times, n) - 0.016 * LongGaps(times, n) as real
  {
    if n >= 2 {
      ExcessOfLongGaps(times, n - 1);
    }
  }

  /** The ratio from the gaps: times the span of the acks it is the length of the gaps longer than 32 ms, less
      16 ms for each of them. */
  lemma RatioFromGaps(times: seq<real>)
    requires Nondecreasing(times) && |times| >= 2 && times[0] > 0.0
    ensures Ratio(AfterAcks(times)) * (times[|times| - 1] - times[0])
            == LongTime(times, |times|) - 0.016 * LongGaps(times, |times|) as real
  {
    hide AfterAcks, TotalExcess, Gap, Nondecreasing, LongTime, LongGaps;
    TracksFirstAndLast(times);
    ExcessOfLongGaps(times, |times|);
    ExcessBelowSpan(times, |times|);
    var total, span := TotalExcess(times, |times|), times[|times| - 1] - times[0];
    if total > 0.0 {
      assert (total / span) * span == total;
    }
  }
}
