/** RttRuns: over every run, the ring is a window on the recent frames, and the outages it reports add up. */
module RttRuns {
  import opened Arithmetic
  import opened Wrappers
  import opened RttRecords

  /** Frames arrive under consecutive sequence numbers from 1. */
  datatype Op =
    | Arrive(now: real)
    | Ack(seqNo: nat, pong: real, delta: real)
    | Statistic(now: real)

  /** What happened: when each frame arrived, its pong, the time of the last `statistic` call before the one
      that collected it or before its entry was overwritten, what it was charged, the last call and the sum of
      all reported outages. */
  datatype History = History(
    arrivals: seq<real>, pongs: map<nat, real>, deltas: map<nat, real>, collected: map<nat, real>,
    overwritten: map<nat, real>, charged: seq<real>, lastCall: real, reported: real)

  datatype State = State(slots: Slots, target: real, h: History)

  function Start(maxLength: nat, target: real): State {
    State(seq(maxLength, _ => None), target, History([], map[], map[], map[], map[], [], 0.0, 0.0))
  }

  /** A frame the ring must still hold: issued, fewer than its length behind the newest, not collected. */
  predicate Recent(h: History, seqNo: nat, maxLength: nat) {
    1 <= seqNo <= |h.arrivals| < seqNo + maxLength && seqNo !in h.collected
  }

  function Deadline(s: State, seqNo: nat): real
    requires 1 <= seqNo <= |s.h.arrivals|
  {
    s.h.arrivals[seqNo - 1] + s.target
  }

  /** The entry of a recent frame, from the history alone. */
  function EntryOf(s: State, seqNo: nat): RTTEntry
    requires 1 <= seqNo <= |s.h.arrivals|
  {
    RTTEntry(seqNo, s.h.arrivals[seqNo - 1], Max(Deadline(s, seqNo), s.h.lastCall),
             if seqNo in s.h.pongs then Some(s.h.pongs[seqNo]) else None,
             if seqNo in s.h.pongs && seqNo in s.h.deltas then s.h.deltas[seqNo] else 0.0)
  }

  /** Adds to each frame's account what one `statistic` call charges for the first `n` slots. */
  function ChargeAll(slots: Slots, n: nat, now: real, charged: seq<real>): (r: seq<real>)
    requires n <= |slots|
    ensures |r| == |charged|
  {
    if n == 0 then charged
    else
      var c := ChargeAll(slots, n - 1, now, charged);
      match slots[n - 1]
      case None => c
      case Some(e) =>
        if 1 <= e.seqNo <= |c| then c[e.seqNo - 1 := c[e.seqNo - 1] + Charge(e, now)] else c
  }

  /** The frames whose acked entry a `statistic` call drops. */
  function Dropped(slots: Slots): set<nat> {
    set i | 0 <= i < |slots| && slots[i].Some? && slots[i].value.pongTime.Some? :: slots[i].value.seqNo
  }

  /** Notes the frame whose entry in slot `i` is overwritten, if there is one. */
  function NoteOverwritten(s: State, i: nat): map<nat, real>
    requires i < |s.slots|
  {
    if s.slots[i].None? then s.h.overwritten else s.h.overwritten[s.slots[i].value.seqNo := s.h.lastCall]
  }

  function Step(s: State, op: Op): Option<State>
    requires |s.slots| > 0
  {
    match op
    case Arrive(now) =>
      var n := |s.h.arrivals| + 1;
      Some(s.(slots := AfterArrival(s.slots, n, now, s.target),
              h := s.h.(arrivals := s.h.arrivals + [now], charged := s.h.charged + [0.0],
                        overwritten := NoteOverwritten(s, Remainder(n, |s.slots|)))))
    case Ack(n, pong, delta) =>
      var (slots, _) :- AfterUpdate(s.slots, n, pong, delta);
      Some(s.(slots := slots, h := s.h.(pongs := s.h.pongs[n := pong], deltas := s.h.deltas[n := delta])))
    case Statistic(now) =>
      Some(s.(slots := Collected(s.slots, now),
              h := s.h.(charged := ChargeAll(s.slots, |s.slots|, now, s.h.charged),
                        collected := s.h.collected + map n | n in Dropped(s.slots) :: s.h.lastCall,
                        lastCall := now,
                        reported := s.h.reported + SumsOf(s.slots, |s.slots|, now).outages)))
  }

  /** The state after a run, if no update panicked. */
  function Run(start: State, ops: seq<Op>): (r: Option<State>)
    requires |start.slots| > 0
    ensures r.Some? ==> |r.value.slots| == |start.slots| && r.value.target == start.target
  {
    if ops == [] then Some(start)
    else
      var s :- Run(start, ops[..|ops| - 1]);
      Step(s, ops[|ops| - 1])
  }

  /** Arrivals and calls under a clock that does not go backwards. A pong is read off the clock before the
      update gets the lock, so its time may be earlier than calls that came in between. */
  function Clock(ops: seq<Op>): real {
    if ops == [] then 0.0
    else
      match ops[|ops| - 1]
      case Arrive(now) => now
      case Statistic(now) => now
      case Ack(_, _, _) => Clock(ops[..|ops| - 1])
  }

  ghost predicate WellTimed(ops: seq<Op>) {
    ops != [] ==>
      && WellTimed(ops[..|ops| - 1])
      && match ops[|ops| - 1]
         case Arrive(now) => Clock(ops[..|ops| - 1]) <= now
         case Statistic(now) => Clock(ops[..|ops| - 1]) <= now
         case Ack(_, _, _) => true
  }

  // ---------------------------------------------------------------------------------------------
  // The ring is a map of the recent frames

  ghost predicate Agrees(s: State) {
    && |s.slots| > 0
    && (forall n :: Recent(s.h, n, |s.slots|) ==> s.slots[Remainder(n, |s.slots|)] == Some(EntryOf(s, n)))
    && (forall i :: 0 <= i < |s.slots| && s.slots[i].Some? ==>
          var n := s.slots[i].value.seqNo; Recent(s.h, n, |s.slots|) && Remainder(n, |s.slots|) == i)
    && (forall n :: n in s.h.pongs || n in s.h.collected ==> 1 <= n <= |s.h.arrivals|)
    && (forall n :: n in s.h.pongs ==> n in s.h.deltas)
    && (forall n :: n in s.h.collected ==> n in s.h.pongs)
  }

  lemma {:induction false} ArriveKeepsAgrees(s: State, now: real, clock: real)
    requires Agrees(s) && s.target >= 0.0 && s.h.lastCall <= clock <= now
    ensures Agrees(Step(s, Arrive(now)).value)
  {
    hide Remainder;
    var size, newest := |s.slots|, |s.h.arrivals| + 1;
    var s' := Step(s, Arrive(now)).value;
    forall n: nat | Recent(s'.h, n, size)
      ensures s'.slots[Remainder(n, size)] == Some(EntryOf(s', n))
    {
      if n < newest {
        NearRemaindersDiffer(n, newest, size);
        assert Recent(s.h, n, size);
      }
    }
    forall i | 0 <= i < size && s'.slots[i].Some?
      ensures var n := s'.slots[i].value.seqNo; Recent(s'.h, n, size) && Remainder(n, size) == i
    {
      if i != Remainder(newest, size) {
        var n := s.slots[i].value.seqNo;
        if n + size == newest {
          RemainderShift(n, size);
        }
      }
    }
  }

  /** An update finds the entry of its frame exactly when the frame is recent. */
  lemma UpdateFindsRecent(s: State, n: nat, pong: real, delta: real)
    requires Agrees(s)
    ensures AfterUpdate(s.slots, n, pong, delta).Some? <==> Recent(s.h, n, |s.slots|)
    ensures Recent(s.h, n, |s.slots|) ==> AfterUpdate(s.slots, n, pong, delta).value.1 == pong - s.h.arrivals[n - 1]
  {
    hide Remainder;
  }

  lemma AckKeepsAgrees(s: State, n: nat, pong: real, delta: real)
    requires Agrees(s) && AfterUpdate(s.slots, n, pong, delta).Some?
    ensures Agrees(Step(s, Ack(n, pong, delta)).value)
  {
    hide Remainder;
    UpdateFindsRecent(s, n, pong, delta);
    var s', i := Step(s, Ack(n, pong, delta)).value, Remainder(n, |s.slots|);
    assert s.slots[i] == Some(EntryOf(s, n)) && s'.slots[i] == Some(EntryOf(s', n));
    assert forall k :: 0 <= k < |s.slots| && k != i ==> s'.slots[k] == s.slots[k];
    hide AfterUpdate;
    forall m: nat | Recent(s'.h, m, |s.slots|)
      ensures s'.slots[Remainder(m, |s.slots|)] == Some(EntryOf(s', m))
    {
      assert Recent(s.h, m, |s.slots|);
      if m != n {
        assert s.slots[Remainder(m, |s.slots|)].value.seqNo == m;
      }
    }
  }

  lemma StatisticKeepsEntries(s: State, now: real)
    requires Agrees(s) && s.h.lastCall <= now
    ensures var s' := Step(s, Statistic(now)).value;
            forall n: nat :: Recent(s'.h, n, |s.slots|) ==>
              s'.slots[Remainder(n, |s.slots|)] == Some(EntryOf(s', n))
  {
    hide Remainder, ChargeAll, SumsOf, Dropped;
    DroppedAreAcked(s);
    var s' := Step(s, Statistic(now)).value;
    forall n: nat | Recent(s'.h, n, |s.slots|)
      ensures s'.slots[Remainder(n, |s.slots|)] == Some(EntryOf(s', n))
    {
      assert Recent(s.h, n, |s.slots|);
    }
  }

  lemma {:induction false} StatisticKeepsAgrees(s: State, now: real)
    requires Agrees(s) && s.h.lastCall <= now
    ensures Agrees(Step(s, Statistic(now)).value)
  {
    hide Remainder, ChargeAll, SumsOf, Dropped, EntryOf;
    StatisticKeepsEntries(s, now);
    DroppedAreAcked(s);
    var s' := Step(s, Statistic(now)).value;
    forall i | 0 <= i < |s.slots| && s'.slots[i].Some?
      ensures var n := s'.slots[i].value.seqNo; Recent(s'.h, n, |s.slots|) && Remainder(n, |s.slots|) == i
    {
      StaysWhereItWas(s, now, i);
    }
  }

  lemma StaysWhereItWas(s: State, now: real, i: nat)
    requires Agrees(s) && i < |s.slots| && Collected(s.slots, now)[i].Some?
    ensures s.slots[i].Some? && Collected(s.slots, now)[i].value.seqNo == s.slots[i].value.seqNo
    ensures s.slots[i].value.seqNo !in Dropped(s.slots)
  {
    DroppedAreAcked(s);
    hide Remainder, Dropped;
    assert s.slots[i] == Some(EntryOf(s, s.slots[i].value.seqNo));
  }

  /** What a call drops is the recent frames that were acked. */
  lemma DroppedAreAcked(s: State)
    requires Agrees(s)
    ensures forall n :: n in Dropped(s.slots) <==> Recent(s.h, n, |s.slots|) && n in s.h.pongs
  {
    hide Remainder;
    forall n: nat | Recent(s.h, n, |s.slots|) && n in s.h.pongs
      ensures n in Dropped(s.slots)
    {
      var i := Remainder(n, |s.slots|);
      assert s.slots[i].Some? && s.slots[i].value.pongTime.Some? && s.slots[i].value.seqNo == n;
    }
  }

  // ---------------------------------------------------------------------------------------------
  // Outage accounting

  /** How far `t` is past a deadline. */
  function Past(t: real, deadline: real): real {
    Max(t - deadline, 0.0)
  }

  function Total(charged: seq<real>): real {
    if charged == [] then 0.0 else Total(charged[..|charged| - 1]) + charged[|charged| - 1]
  }

  lemma {:induction false} TotalOfUpdate(charged: seq<real>, i: nat, v: real)
    requires i < |charged|
    ensures Total(charged[i := v]) == Total(charged) - charged[i] + v
  {
    var n := |charged| - 1;
    if i < n {
      TotalOfUpdate(charged[..n], i, v);
      assert charged[i := v][..n] == charged[..n][i := v];
    } else {
      assert charged[i := v][..n] == charged[..n];
    }
  }

  /** One call charges the frames together exactly what it reports. */
  lemma {:induction false} ChargesAddUp(slots: Slots, n: nat, now: real, charged: seq<real>)
    requires n <= |slots|
    requires forall i :: 0 <= i < |slots| && slots[i].Some? ==> 1 <= slots[i].value.seqNo <= |charged|
    ensures Total(ChargeAll(slots, n, now, charged)) == Total(charged) + SumsOf(slots, n, now).outages
  {
    hide Charge;
    if n > 0 {
      ChargesAddUp(slots, n - 1, now, charged);
      match slots[n - 1]
      case None =>
      case Some(e) =>
        var c := ChargeAll(slots, n - 1, now, charged);
        TotalOfUpdate(c, e.seqNo - 1, c[e.seqNo - 1] + Charge(e, now));
    }
  }

  /** What one call charges a frame: nothing but the charge of its own slot. */
  lemma {:induction false} ChargedOnce(slots: Slots, k: nat, now: real, charged: seq<real>, n: nat)
    requires k <= |slots| && |slots| > 0 && 1 <= n <= |charged|
    requires forall i :: 0 <= i < |slots| && slots[i].Some? ==> Remainder(slots[i].value.seqNo, |slots|) == i
    ensures var i := Remainder(n, |slots|);
            ChargeAll(slots, k, now, charged)[n - 1]
            == charged[n - 1] + (if i < k && slots[i].Some? && slots[i].value.seqNo == n
                                 then Charge(slots[i].value, now) else 0.0)
  {
    hide Remainder, Charge;
    if k > 0 {
      ChargedOnce(slots, k - 1, now, charged, n);
    }
  }

  /** An entry that is still there has been charged up to the last call, and one that was collected up to
      its pong or the last call before, whichever is later. All charges together are what was reported. */
  ghost predicate Settled(s: State) {
    && |s.h.charged| == |s.h.arrivals|
    && (forall n: nat :: Recent(s.h, n, |s.slots|) ==> s.h.charged[n - 1] == Past(s.h.lastCall, Deadline(s, n)))
    && (forall n: nat :: n in s.h.collected && 1 <= n <= |s.h.arrivals| && n in s.h.pongs ==>
          s.h.charged[n - 1] == Past(Max(s.h.pongs[n], s.h.collected[n]), Deadline(s, n)))
    && Total(s.h.charged) == s.h.reported
  }

  lemma ArriveKeepsSettled(s: State, now: real)
    requires Agrees(s) && Settled(s) && s.target >= 0.0 && s.h.lastCall <= now
    ensures Settled(Step(s, Arrive(now)).value)
  {
    hide Remainder;
    var s' := Step(s, Arrive(now)).value;
    assert s'.h.charged[..|s.h.charged|] == s.h.charged;
    forall n: nat | Recent(s'.h, n, |s.slots|)
      ensures s'.h.charged[n - 1] == Past(s'.h.lastCall, Deadline(s', n))
    {
      if n <= |s.h.arrivals| {
        assert Recent(s.h, n, |s.slots|);
      }
    }
  }

  lemma AckKeepsSettled(s: State, n: nat, pong: real, delta: real)
    requires Agrees(s) && Settled(s) && AfterUpdate(s.slots, n, pong, delta).Some?
    ensures Settled(Step(s, Ack(n, pong, delta)).value)
  {
    UpdateFindsRecent(s, n, pong, delta);
    hide Remainder, AfterUpdate, Total, Agrees;
    var s' := Step(s, Ack(n, pong, delta)).value;
    forall m: nat | Recent(s'.h, m, |s.slots|)
      ensures s'.h.charged[m - 1] == Past(s'.h.lastCall, Deadline(s', m))
    {
      assert Recent(s.h, m, |s.slots|);
    }
  }

  /** The charge of a recent frame in the next call, and its account afterwards. */
  lemma {:induction false} ChargeIsExact(s: State, now: real, n: nat)
    requires Agrees(s) && Settled(s) && s.h.lastCall <= now && Recent(s.h, n, |s.slots|)
    ensures ChargeAll(s.slots, |s.slots|, now, s.h.charged)[n - 1]
            == Past(if n in s.h.pongs then Max(s.h.pongs[n], s.h.lastCall) else now, Deadline(s, n))
  {
    ChargedOnce(s.slots, |s.slots|, now, s.h.charged, n);
    hide Remainder, ChargeAll, Total;
    assert s.slots[Remainder(n, |s.slots|)] == Some(EntryOf(s, n));
  }

  lemma ChargeIsNone(s: State, now: real, n: nat)
    requires Agrees(s) && Settled(s) && 1 <= n <= |s.h.arrivals| && !Recent(s.h, n, |s.slots|)
    ensures ChargeAll(s.slots, |s.slots|, now, s.h.charged)[n - 1] == s.h.charged[n - 1]
  {
    ChargedOnce(s.slots, |s.slots|, now, s.h.charged, n);
    hide Remainder, ChargeAll, Total;
  }

  lemma StatisticKeepsSettled(s: State, now: real)
    requires |s.slots| > 0 && Agrees(s) && Settled(s) && s.h.lastCall <= now
    ensures Settled(Step(s, Statistic(now)).value)
  {
    hide Remainder, ChargeAll, Total, Agrees, SumsOf, Dropped, Past, Deadline;
    StatisticTotals(s, now);
    DroppedAreAcked(s);
    var s' := Step(s, Statistic(now)).value;
    forall n: nat | Recent(s'.h, n, |s.slots|)
      ensures s'.h.charged[n - 1] == Past(s'.h.lastCall, Deadline(s, n))
    {
      assert Recent(s.h, n, |s.slots|);
      ChargeIsExact(s, now, n);
    }
    forall n: nat | n in s'.h.collected && 1 <= n <= |s.h.arrivals| && n in s.h.pongs
      ensures s'.h.charged[n - 1] == Past(Max(s.h.pongs[n], s'.h.collected[n]), Deadline(s, n))
    {
      if n in Dropped(s.slots) {
        ChargeIsExact(s, now, n);
      } else {
        ChargeIsNone(s, now, n);
      }
    }
    assert forall n: nat :: 1 <= n <= |s.h.arrivals| ==> Deadline(s', n) == Deadline(s, n) by { DeadlineKept(s, s'); }
  }

  lemma StatisticTotals(s: State, now: real)
    requires Agrees(s) && Settled(s)
    ensures Total(ChargeAll(s.slots, |s.slots|, now, s.h.charged))
            == s.h.reported + SumsOf(s.slots, |s.slots|, now).outages
  {
    hide Remainder, ChargeAll, Total, SumsOf;
    ChargesAddUp(s.slots, |s.slots|, now, s.h.charged);
  }

  lemma DeadlineKept(s: State, s': State)
    requires s'.h.arrivals == s.h.arrivals && s'.target == s.target
    ensures forall n: nat :: 1 <= n <= |s.h.arrivals| ==> Deadline(s', n) == Deadline(s, n)
  {
  }

  /** The frames that left the ring: each was collected or overwritten, and an overwritten one was charged
      up to the last call before that. */
  ghost predicate Accounted(s: State) {
    && |s.h.charged| == |s.h.arrivals|
    && (forall n: nat :: n in s.h.overwritten ==>
          && 1 <= n && n + |s.slots| <= |s.h.arrivals| && n !in s.h.collected
          && s.h.charged[n - 1] == Past(s.h.overwritten[n], Deadline(s, n)))
    && (forall n: nat :: 1 <= n && n + |s.slots| <= |s.h.arrivals| ==> n in s.h.overwritten || n in s.h.collected)
  }

  /** A new arrival overwrites the entry of the frame a ring length before it, unless it was collected. */
  lemma {:induction false} ArriveOverwrites(s: State)
    requires Agrees(s)
    ensures var newest, size := |s.h.arrivals| + 1, |s.slots|;
            var i := Remainder(newest, size);
            && (s.slots[i].Some? ==> s.slots[i].value.seqNo + size == newest && s.slots[i].value.seqNo >= 1
                                     && Recent(s.h, s.slots[i].value.seqNo, size))
            && (s.slots[i].None? && newest > size ==> newest - size in s.h.collected)
  {
    hide Remainder, EntryOf;
    var newest, size := |s.h.arrivals| + 1, |s.slots|;
    var i := Remainder(newest, size);
    if s.slots[i].Some? {
      var n := s.slots[i].value.seqNo;
      assert Recent(s.h, n, size) && Remainder(n, size) == i;
      if newest < n + size {
        NearRemaindersDiffer(n, newest, size);
      }
    } else if newest > size {
      RemainderShift(newest - size, size);
      assert !Recent(s.h, newest - size, size);
    }
  }

  lemma ArriveKeepsAccounted(s: State, now: real)
    requires |s.slots| > 0 && Agrees(s) && Settled(s) && Accounted(s)
    ensures Accounted(Step(s, Arrive(now)).value)
  {
    ArriveOverwrites(s);
    hide Remainder, Agrees, Total, Past, AfterArrival;
    var s' := Step(s, Arrive(now)).value;
    forall n: nat | 1 <= n <= |s.h.arrivals|
      ensures Deadline(s', n) == Deadline(s, n) && s'.h.charged[n - 1] == s.h.charged[n - 1]
    {
    }
    hide Deadline;
  }

  lemma AckKeepsAccounted(s: State, n: nat, pong: real, delta: real)
    requires |s.slots| > 0 && Accounted(s) && AfterUpdate(s.slots, n, pong, delta).Some?
    ensures Accounted(Step(s, Ack(n, pong, delta)).value)
  {
    hide Remainder, Past;
  }

  lemma StatisticKeepsAccounted(s: State, now: real)
    requires |s.slots| > 0 && Agrees(s) && Settled(s) && Accounted(s)
    ensures Accounted(Step(s, Statistic(now)).value)
  {
    hide Remainder, ChargeAll, Total, Agrees, SumsOf, Dropped, Past, Deadline;
    DroppedAreAcked(s);
    var s' := Step(s, Statistic(now)).value;
    DeadlineKept(s, s');
    forall n: nat | n in s'.h.overwritten
      ensures 1 <= n && n + |s.slots| <= |s.h.arrivals| && n !in s'.h.collected
      ensures s'.h.charged[n - 1] == Past(s'.h.overwritten[n], Deadline(s', n))
    {
      ChargeIsNone(s, now, n);
    }
  }

  // ---------------------------------------------------------------------------------------------
  // Every run

  ghost predicate Sound(s: State, clock: real) {
    Agrees(s) && Settled(s) && Accounted(s) && s.target >= 0.0 && s.h.lastCall <= clock
  }

  lemma {:induction false} StepKeepsSound(s: State, op: Op, clock: real, now: real)
    requires Sound(s, clock) && Step(s, op).Some?
    requires now == (match op case Arrive(t) => t case Statistic(t) => t case Ack(_, _, _) => clock) >= clock
    ensures Sound(Step(s, op).value, now)
  {
    match op
    case Arrive(t) =>
      ArriveKeepsAgrees(s, t, clock);
      ArriveKeepsSettled(s, t);
      ArriveKeepsAccounted(s, t);
      hide Agrees, Settled, Accounted;
    case Ack(n, pong, delta) =>
      AckKeepsAgrees(s, n, pong, delta);
      AckKeepsSettled(s, n, pong, delta);
      AckKeepsAccounted(s, n, pong, delta);
      hide Agrees, Settled, Accounted, AfterUpdate;
    case Statistic(t) =>
      StatisticKeepsAgrees(s, t);
      StatisticKeepsSettled(s, t);
      StatisticKeepsAccounted(s, t);
      hide Agrees, Settled, Accounted;
  }

  lemma {:induction false} RunIsSound(maxLength: nat, target: real, ops: seq<Op>)
    requires maxLength > 0 && target >= 0.0 && WellTimed(ops)
    requires Run(Start(maxLength, target), ops).Some?
    ensures Sound(Run(Start(maxLength, target), ops).value, Clock(ops))
  {
    hide Sound, Step;
    if ops == [] {
      StartIsSound(maxLength, target);
    } else {
      RunIsSound(maxLength, target, ops[..|ops| - 1]);
      StepKeepsSound(Run(Start(maxLength, target), ops[..|ops| - 1]).value, ops[|ops| - 1],
                     Clock(ops[..|ops| - 1]), Clock(ops));
    }
  }

  lemma StartIsSound(maxLength: nat, target: real)
    requires maxLength > 0 && target >= 0.0
    ensures Sound(Start(maxLength, target), 0.0)
  {
  }

  /** The recent frames and their entries as a plain map. */
  ghost function RecentMap(s: State): map<nat, RTTEntry> {
    map n: nat | 1 <= n <= |s.h.arrivals| && Recent(s.h, n, |s.slots|) :: EntryOf(s, n)
  }

  /** The ring agrees with a map: after any run a slot holds the entry of the recent frame that belongs
      there, and whatever it holds is the entry of such a frame. */
  lemma {:induction false} RingIsRecentMap(maxLength: nat, target: real, ops: seq<Op>, i: nat)
    requires maxLength > 0 && target >= 0.0 && WellTimed(ops) && i < maxLength
    requires Run(Start(maxLength, target), ops).Some?
    ensures var s := Run(Start(maxLength, target), ops).value;
            && (forall n: nat :: Recent(s.h, n, maxLength) && Remainder(n, maxLength) == i ==>
                  s.slots[i] == Some(EntryOf(s, n)))
            && (s.slots[i].Some? ==>
                  var n := s.slots[i].value.seqNo; Recent(s.h, n, maxLength) && Remainder(n, maxLength) == i)
  {
    hide WellTimed, Settled, Remainder;
    RunIsSound(maxLength, target, ops);
    hide Run;
  }

  /** After any run an update panics exactly when its frame is not recent: never issued, a ring length or
      more behind the newest, or collected already; otherwise it returns the time from that frame's arrival
      to the pong. */
  lemma {:induction false} UpdatePanicsIff(maxLength: nat, target: real, ops: seq<Op>, n: nat, pong: real, delta: real)
    requires maxLength > 0 && target >= 0.0 && WellTimed(ops)
    requires Run(Start(maxLength, target), ops).Some?
    ensures var s := Run(Start(maxLength, target), ops).value;
            && (AfterUpdate(s.slots, n, pong, delta).None? <==> !Recent(s.h, n, maxLength))
            && (Recent(s.h, n, maxLength) ==>
                  AfterUpdate(s.slots, n, pong, delta).value.1 == pong - s.h.arrivals[n - 1])
  {
    hide WellTimed, Settled, AfterUpdate, Agrees;
    RunIsSound(maxLength, target, ops);
    UpdateFindsRecent(Run(Start(maxLength, target), ops).value, n, pong, delta);
  }

  /** Outage accounting: all reported outages are the frames' charges, and every frame is in the ring,
      collected or overwritten. One that is still in the ring has been charged its time past the deadline up
      to the last call; one that was overwritten, acked or not, up to the last call before that and nothing
      later; and a collected one exactly its time past the deadline up to its pong, if no call came in
      between the reading of the pong and its update or that call was still before the deadline, and
      otherwise up to that call. */
  lemma OutagesTelescope(maxLength: nat, target: real, ops: seq<Op>)
    requires maxLength > 0 && target >= 0.0 && WellTimed(ops)
    requires Run(Start(maxLength, target), ops).Some?
    ensures var s := Run(Start(maxLength, target), ops).value;
            && |s.h.charged| == |s.h.arrivals| && Total(s.h.charged) == s.h.reported
            && (forall n: nat :: 1 <= n <= |s.h.arrivals| ==>
                  n in RecentMap(s) || n in s.h.collected || n in s.h.overwritten)
            && (forall n :: n in RecentMap(s) ==> s.h.charged[n - 1] == Past(s.h.lastCall, Deadline(s, n)))
            && (forall n :: n in s.h.overwritten ==>
                  && 1 <= n <= |s.h.arrivals| && n !in s.h.collected && n !in RecentMap(s)
                  && s.h.charged[n - 1] == Past(s.h.overwritten[n], Deadline(s, n)))
            && (forall n :: n in s.h.collected ==>
                  && 1 <= n <= |s.h.arrivals| && n in s.h.pongs
                  && s.h.charged[n - 1] == Past(Max(s.h.pongs[n], s.h.collected[n]), Deadline(s, n))
                  && (s.h.charged[n - 1] == Past(s.h.pongs[n], Deadline(s, n))
                      <==> s.h.collected[n] <= s.h.pongs[n] || s.h.collected[n] <= Deadline(s, n)))
  {
    RunIsSound(maxLength, target, ops);
    hide Run, WellTimed, Total;
  }

  // ---------------------------------------------------------------------------------------------
  // The discipline of the threads excludes the panic

  function Issued(ops: seq<Op>): nat {
    if ops == [] then 0 else Issued(ops[..|ops| - 1]) + if ops[|ops| - 1].Arrive? then 1 else 0
  }

  predicate Acks(ops: seq<Op>, n: nat) {
    exists i :: 0 <= i < |ops| && ops[i].Ack? && ops[i].seqNo == n
  }

  /** Every ack is for a frame issued before, fewer than the ring's length behind the newest, and the first
      for its frame. */
  predicate Disciplined(maxLength: nat, ops: seq<Op>) {
    ops != [] ==>
      var before, op := ops[..|ops| - 1], ops[|ops| - 1];
      && Disciplined(maxLength, before)
      && (op.Ack? ==> 1 <= op.seqNo <= Issued(before) < op.seqNo + maxLength && !Acks(before, op.seqNo))
  }

  /** The history counts the arrivals and knows only acks that happened. */
  ghost predicate Follows(s: State, ops: seq<Op>) {
    |s.h.arrivals| == Issued(ops) && forall n :: n in s.h.pongs ==> Acks(ops, n)
  }

  lemma AcksStay(ops: seq<Op>, op: Op, n: nat)
    ensures Acks(ops, n) || (op.Ack? && op.seqNo == n) ==> Acks(ops + [op], n)
  {
    var all := ops + [op];
    assert all[|ops|] == op;
    if Acks(ops, n) {
      var i :| 0 <= i < |ops| && ops[i].Ack? && ops[i].seqNo == n;
      assert all[i].Ack? && all[i].seqNo == n;
    }
  }

  lemma {:induction false} RunFollows(maxLength: nat, target: real, ops: seq<Op>)
    requires maxLength > 0 && Run(Start(maxLength, target), ops).Some?
    ensures Follows(Run(Start(maxLength, target), ops).value, ops)
  {
    hide Acks, AfterUpdate, ChargeAll, SumsOf, Dropped;
    if ops != [] {
      var before, op := ops[..|ops| - 1], ops[|ops| - 1];
      RunFollows(maxLength, target, before);
      assert ops == before + [op];
      var s := Run(Start(maxLength, target), before).value;
      forall n | n in s.h.pongs || (op.Ack? && n == op.seqNo)
        ensures Acks(ops, n)
      {
        AcksStay(before, op, n);
      }
    }
  }

  /** Frame `n` was acked to the ring, and `statistic` was called since. */
  predicate CalledSince(ops: seq<Op>, n: nat) {
    exists j :: 0 <= j < |ops| && ops[j].Statistic? && Acks(ops[..j], n)
  }

  lemma CalledSinceSnoc(ops: seq<Op>, op: Op, n: nat)
    ensures CalledSince(ops + [op], n) <==> CalledSince(ops, n) || (op.Statistic? && Acks(ops, n))
  {
    hide Acks;
    var all := ops + [op];
    assert all[..|ops|] == ops && all[|ops|] == op;
    assert forall j :: 0 <= j < |ops| ==> all[..j] == ops[..j] && all[j] == ops[j];
    if CalledSince(ops, n) {
      var j :| 0 <= j < |ops| && ops[j].Statistic? && Acks(ops[..j], n);
      assert all[j].Statistic? && Acks(all[..j], n);
    }
    if CalledSince(all, n) {
      var j :| 0 <= j < |all| && all[j].Statistic? && Acks(all[..j], n);
      if j < |ops| {
        assert ops[j].Statistic? && Acks(ops[..j], n);
      }
    }
  }

  lemma CalledSinceAcked(ops: seq<Op>, n: nat)
    requires CalledSince(ops, n)
    ensures Acks(ops, n)
  {
    var j :| 0 <= j < |ops| && ops[j].Statistic? && Acks(ops[..j], n);
    var i :| 0 <= i < j && ops[..j][i].Ack? && ops[..j][i].seqNo == n;
    assert ops[i].Ack? && ops[i].seqNo == n;
  }

  lemma AcksSnoc(ops: seq<Op>, op: Op, n: nat)
    ensures Acks(ops + [op], n) <==> Acks(ops, n) || (op.Ack? && op.seqNo == n)
  {
    AcksStay(ops, op, n);
    if Acks(ops + [op], n) {
      var i :| 0 <= i < |ops + [op]| && (ops + [op])[i].Ack? && (ops + [op])[i].seqNo == n;
      if i < |ops| {
        assert ops[i].Ack? && ops[i].seqNo == n;
      }
    }
  }

  /** The entry of a frame fewer than a ring length behind the newest is collected exactly by the first call
      after its first ack. */
  lemma {:induction false} CollectedIff(maxLength: nat, target: real, ops: seq<Op>, n: nat)
    requires maxLength > 0 && target >= 0.0 && WellTimed(ops) && Run(Start(maxLength, target), ops).Some?
    requires |Run(Start(maxLength, target), ops).value.h.arrivals| < n + maxLength
    ensures var h := Run(Start(maxLength, target), ops).value.h;
            && (n in h.pongs <==> Acks(ops, n))
            && (n in h.collected <==> CalledSince(ops, n))
  {
    hide Acks, CalledSince, AfterUpdate, ChargeAll, SumsOf, Dropped, Collected, AfterArrival;
    if ops == [] {
      NothingYet(n);
    } else {
      var before, op := ops[..|ops| - 1], ops[|ops| - 1];
      CollectedIff(maxLength, target, before, n);
      RunIsSound(maxLength, target, before);
      assert ops == before + [op];
      AcksSnoc(before, op, n);
      CalledSinceSnoc(before, op, n);
      DroppedAreAcked(Run(Start(maxLength, target), before).value);
      hide WellTimed, Settled;
    }
  }

  lemma NothingYet(n: nat)
    ensures !Acks([], n) && !CalledSince([], n)
  {
  }

  /** Never panics: with consecutive frames, `statistic` called at any time, and acks only for issued
      frames less than a ring length behind the newest, each acked once, no run panics. */
  lemma {:induction false} DisciplinedNeverPanics(maxLength: nat, target: real, ops: seq<Op>)
    requires maxLength > 0 && target >= 0.0 && WellTimed(ops) && Disciplined(maxLength, ops)
    ensures Run(Start(maxLength, target), ops).Some?
  {
    hide Acks;
    if ops != [] {
      var before, op := ops[..|ops| - 1], ops[|ops| - 1];
      DisciplinedNeverPanics(maxLength, target, before);
      RunIsSound(maxLength, target, before);
      RunFollows(maxLength, target, before);
      hide WellTimed, Settled, Total, ChargeAll, SumsOf, Dropped;
      var s := Run(Start(maxLength, target), before).value;
      if op.Ack? {
        UpdateFindsRecent(s, op.seqNo, op.pong, op.delta);
      }
      hide AfterUpdate, Agrees;
    }
  }

  // ---------------------------------------------------------------------------------------------
  // A pong recorded late

  /** A call between the reading of a pong and its update. */
  function LatePong(delta: real): seq<Op> {
    [Arrive(0.0), Statistic(10.0), Ack(1, 5.0, delta), Statistic(20.0)]
  }

  lemma LatePongIsOrderly(maxLength: nat, delta: real)
    requires maxLength > 0
    ensures WellTimed(LatePong(delta)) && Disciplined(maxLength, LatePong(delta))
  {
    var ops := LatePong(delta);
    assert ops[..4] == ops && ops[..4][..3] == ops[..3] && ops[..3][..2] == ops[..2] && ops[..2][..1] == ops[..1];
    assert ops[..1][..0] == [] && WellTimed([]) && Disciplined(maxLength, []);
    assert Clock(ops[..1]) == 0.0 && Issued(ops[..1]) == 1 && WellTimed(ops[..1]) && Disciplined(maxLength, ops[..1]);
    assert Clock(ops[..2]) == 10.0 && Issued(ops[..2]) == 1 && WellTimed(ops[..2]) && Disciplined(maxLength, ops[..2]);
    assert !Acks(ops[..2], 1);
    assert Clock(ops[..3]) == 10.0 && WellTimed(ops[..3]) && Disciplined(maxLength, ops[..3]);
  }

  /** What a call that finds no acked entry, and one that finds them, collect. */
  lemma CallHistory(maxLength: nat, ops: seq<Op>, now: real)
    requires maxLength > 0 && WellTimed(ops) && Clock(ops) <= now && Run(Start(maxLength, 1.0), ops).Some?
    ensures var h, h' := Run(Start(maxLength, 1.0), ops).value.h,
                         Step(Run(Start(maxLength, 1.0), ops).value, Statistic(now)).value.h;
            && h'.arrivals == h.arrivals && h'.pongs == h.pongs && h'.lastCall == now
            && (forall n :: n in h'.collected <==>
                  n in h.collected || (Recent(h, n, maxLength) && n in h.pongs))
            && (forall n :: n in h'.collected && n !in h.collected ==> h'.collected[n] == h.lastCall)
  {
    RunIsSound(maxLength, 1.0, ops);
    hide Collected, ChargeAll, SumsOf, Settled, WellTimed, Agrees, Dropped;
    DroppedAreAcked(Run(Start(maxLength, 1.0), ops).value);
  }

  lemma LatePongHistory(maxLength: nat, delta: real)
    requires maxLength > 0 && WellTimed(LatePong(delta)) && Run(Start(maxLength, 1.0), LatePong(delta)).Some?
    ensures var h := Run(Start(maxLength, 1.0), LatePong(delta)).value.h;
            h.arrivals == [0.0] && h.pongs == map[1 := 5.0] && 1 in h.collected && h.collected[1] == 10.0
  {
    var s0, ops := Start(maxLength, 1.0), LatePong(delta);
    assert ops[..4] == ops && ops[..4][..3] == ops[..3] && ops[..3][..2] == ops[..2] && ops[..2][..1] == ops[..1];
    assert ops[..1][..0] == [];
    hide AfterArrival, AfterUpdate, Collected, ChargeAll, SumsOf, Dropped;
    assert Run(s0, ops[..1]) == Step(s0, ops[0]);
    assert Run(s0, ops[..2]) == Step(Run(s0, ops[..1]).value, ops[1]);
    assert Run(s0, ops[..3]) == Step(Run(s0, ops[..2]).value, ops[2]);
    assert Run(s0, ops) == Step(Run(s0, ops[..3]).value, ops[3]);
    assert WellTimed(ops[..3]) && WellTimed(ops[..2]) && WellTimed(ops[..1]);
    CallHistory(maxLength, ops[..1], 10.0);
    var h1, h2, h3 := Run(s0, ops[..1]).value.h, Run(s0, ops[..2]).value.h, Run(s0, ops[..3]).value.h;
    assert h1.arrivals == [0.0] && h1.pongs == map[] && h1.collected == map[];
    assert h2.arrivals == [0.0] && h2.pongs == map[] && h2.lastCall == 10.0 && h2.collected.Keys == {};
    assert h3.arrivals == [0.0] && h3.pongs == map[1 := 5.0] && h3.lastCall == 10.0 && h3.collected.Keys == {};
    CallHistory(maxLength, ops[..3], 20.0);
    assert Recent(h3, 1, maxLength);
  }

  /** An overcharge: a frame due at 1 whose pong is read at 5 but recorded after a call at 10 is charged 9
      and not 4. */
  lemma {:induction false} LatePongIsOvercharged(maxLength: nat, delta: real)
    requires maxLength > 0
    ensures WellTimed(LatePong(delta)) && Run(Start(maxLength, 1.0), LatePong(delta)).Some?
    ensures var s := Run(Start(maxLength, 1.0), LatePong(delta)).value;
            && |s.h.charged| == |s.h.arrivals| == 1 && s.h.pongs == map[1 := 5.0] && 1 in s.h.collected
            && s.h.charged[0] == 9.0 > Past(s.h.pongs[1], Deadline(s, 1)) == 4.0
  {
    var s0, ops := Start(maxLength, 1.0), LatePong(delta);
    LatePongIsOrderly(maxLength, delta);
    DisciplinedNeverPanics(maxLength, 1.0, ops);
    OutagesTelescope(maxLength, 1.0, ops);
    LatePongHistory(maxLength, delta);
  }
}
