/** QueueLoop: the queue loop of a sender thread is the attempts of the step protocol. */
module QueueLoop {
  import opened Wrappers
  import opened Packets
  import opened Throttle
  import opened Source
  import opened Destination
  import opened EndToEnd

  /** One attempt for every tick. */
  function Attempts(ticks: seq<Tick>): seq<Event> {
    seq(|ticks|, i requires 0 <= i < |ticks| => Attempt(ticks[i]))
  }

  lemma AttemptsFirst(events: seq<Event>, ticks: seq<Tick>)
    requires ticks != []
    ensures events + Attempts(ticks) == (events + [Attempt(ticks[0])]) + Attempts(ticks[1..])
  {
  }

  lemma AttemptsNone(events: seq<Event>)
    ensures events + Attempts([]) == events
  {
  }

  ghost predicate Leaves(d: seq<byte>, p: PacketWithMeta) {
    exists t :: IsDatagramOf(d, p, t)
  }

  /** What is sent is the datagrams of the head packets in order, and they are what leaves the queue. */
  ghost predicate SentInOrder(before: seq<PacketWithMeta>, wire: seq<seq<byte>>, after: seq<PacketWithMeta>) {
    && |wire| <= |before| && after == before[|wire|..]
    && forall k :: 0 <= k < |wire| ==> Leaves(wire[k], before[k])
  }

  lemma {:induction false} ProcessSendsInOrder(s: Sender, ticks: seq<Tick>, links: nat)
    requires Process(s, ticks, links).Some?
    ensures var (s', wire) := Process(s, ticks, links).value;
            SentInOrder(s.thr.buffer, wire, s'.thr.buffer)
    decreases |ticks|
  {
    hide Iterate, AfterTryConsume, IsDatagramOf;
    if ticks != [] {
      IterateIsTryConsume(s, ticks[0], links);
      var i := Iterate(s, ticks[0], links).value;
      if !i.idle {
        ProcessSendsInOrder(i.sender, ticks[1..], links);
        var (s1, rest) := Process(i.sender, ticks[1..], links).value;
        if i.wire.Some? {
          SentFirst(s.thr.buffer, i.wire.value, rest, s1.thr.buffer);
        } else {
          assert [] + rest == rest;
        }
      } else {
        IdleChangesNothing(s, ticks[0], links);
      }
    }
  }

  lemma SentFirst(before: seq<PacketWithMeta>, d: seq<byte>, rest: seq<seq<byte>>, after: seq<PacketWithMeta>)
    requires before != [] && Leaves(d, before[0]) && SentInOrder(before[1..], rest, after)
    ensures SentInOrder(before, [d] + rest, after)
  {
    hide Leaves;
    var wire := [d] + rest;
    assert before[1..][|rest|..] == before[|wire|..];
    forall k | 0 <= k < |wire|
      ensures Leaves(wire[k], before[k])
    {
      if k > 0 {
        assert wire[k] == rest[k - 1] && before[k] == before[1..][k - 1];
      }
    }
  }

  lemma IdleChangesNothing(s: Sender, tick: Tick, links: nat)
    requires Iterate(s, tick, links).Some? && Iterate(s, tick, links).value.idle
    ensures s.thr.buffer == [] && Iterate(s, tick, links) == Some(Iteration(s, None, true))
  {
    hide AfterExceedsWith, SendCallback, AfterSettle;
  }

  lemma EmptyIsIdle(s: Sender, tick: Tick, links: nat)
    requires s.thr.buffer == []
    ensures Iterate(s, tick, links) == Some(Iteration(s, None, true))
  {
  }

  /** The system `s` with the sender and the network after the loop. */
  function Afterwards(s: System, sender: Sender, wire: seq<seq<byte>>): System {
    s.(sender := sender, net := s.net + multiset(wire))
  }

  /** Attempts on an empty queue change nothing. */
  lemma {:induction false} IdleAttempts(cfg: Config, start: System, events: seq<Event>, ticks: seq<Tick>)
    requires |start.buffer| == BUFFER_SIZE && Run(cfg, start, events).Some?
    requires Run(cfg, start, events).value.sender.thr.buffer == []
    ensures Run(cfg, start, events + Attempts(ticks)) == Run(cfg, start, events)
    decreases |ticks|
  {
    hide Run, Iterate, Attempts;
    if ticks == [] {
      AttemptsNone(events);
    } else {
      AttemptsFirst(events, ticks);
      var s := Run(cfg, start, events).value;
      EmptyIsIdle(s.sender, ticks[0], cfg.links);
      RunSnoc(cfg, start, events, Attempt(ticks[0]));
      assert s.net + multiset{} == s.net;
      IdleAttempts(cfg, start, events + [Attempt(ticks[0])], ticks[1..]);
    }
  }

  /** Once an attempt panics, so does the run. */
  lemma {:induction false} PanicStays(cfg: Config, start: System, events: seq<Event>, more: seq<Event>)
    requires |start.buffer| == BUFFER_SIZE && Run(cfg, start, events).None?
    ensures Run(cfg, start, events + more).None?
  {
    if more == [] {
      assert events + more == events;
    } else {
      var front := more[..|more| - 1];
      PanicStays(cfg, start, events, front);
      assert (events + more)[..|events + more| - 1] == events + front;
      hide Step, Enabled;
    }
  }

  /** The queue loop in the step protocol: after any run, working the queue off with a sequence of ticks does
      what an attempt for every tick does, the ticks after the queue is found empty included: the same sender,
      and the datagrams of the loop and no others put on the network; and one panics if the other does. So
      the loop ends at the deadline or with an empty queue, and not before. */
  lemma {:induction false} ProcessIsAttempts(cfg: Config, start: System, events: seq<Event>, ticks: seq<Tick>)
    requires |start.buffer| == BUFFER_SIZE && Run(cfg, start, events).Some?
    ensures var s := Run(cfg, start, events).value;
            Run(cfg, start, events + Attempts(ticks))
            == match Process(s.sender, ticks, cfg.links)
               case None => None
               case Some((sender, wire)) => Some(Afterwards(s, sender, wire))
    decreases |ticks|
  {
    hide Run, Iterate, Attempts;
    var s := Run(cfg, start, events).value;
    if ticks == [] {
      AttemptsNone(events);
      assert s.net + multiset([]) == s.net;
    } else {
      AttemptsFirst(events, ticks);
      var more := events + [Attempt(ticks[0])];
      RunSnoc(cfg, start, events, Attempt(ticks[0]));
      if Iterate(s.sender, ticks[0], cfg.links).None? {
        PanicStays(cfg, start, more, Attempts(ticks[1..]));
      } else {
        var i := Iterate(s.sender, ticks[0], cfg.links).value;
        var first := if i.wire.Some? then [i.wire.value] else [];
        assert s.net + (if i.wire.Some? then multiset{i.wire.value} else multiset{}) == s.net + multiset(first);
        if i.idle {
          IdleChangesNothing(s.sender, ticks[0], cfg.links);
          IdleAttempts(cfg, start, more, ticks[1..]);
        } else {
          ProcessIsAttempts(cfg, start, more, ticks[1..]);
          if Process(i.sender, ticks[1..], cfg.links).Some? {
            var rest := Process(i.sender, ticks[1..], cfg.links).value.1;
            assert multiset(first + rest) == multiset(first) + multiset(rest);
            assert (s.net + multiset(first)) + multiset(rest) == s.net + (multiset(first) + multiset(rest));
          }
        }
      }
    }
  }
}
