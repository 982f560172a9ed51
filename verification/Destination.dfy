/** Destination: the receiver's per-frame records, its acks and its counters (rx/src/destination.rs). */
module Destination {
  import opened Wrappers
  import opened Packets
  import opened Record
  import opened Stuttering

  const BUFFER_SIZE := 2048

  datatype Args = Args(sampleRate: nat, rxMode: bool)

  datatype Receiver = Receiver(records: map<nat, Rec>, lastSeq: nat, recevied: nat, stutter: StutterState, hasTx: bool)

  function NewReceiver(hasTx: bool): Receiver {
    Receiver(map[], 0, 0, NO_STUTTER, hasTx)
  }

  /** What one datagram led to: nothing, a stored fragment, or an ack together with the gathered frame
      when frames are forwarded. */
  datatype Reaction = Skipped | Stored | Acked(ack: seq<byte>, gathered: Option<seq<byte>>)

  /** The eight bytes of a floating-point number. */
  type Bytes8 = b: seq<byte> | |b| == 8 witness [0, 0, 0, 0, 0, 0, 0, 0]

  /** The clock readings of one call, and how a number is laid out in bytes. */
  datatype Env = Env(recordTime: real, ackTime: real, encode: real -> Bytes8)

  /** The delay overwrites bytes 19 to 26 of the buffer. */
  function WithDelta(buffer: seq<byte>, delta: seq<byte>): (r: seq<byte>)
    requires |buffer| == BUFFER_SIZE && |delta| == 8
    ensures |r| == |buffer| && r[..19] == buffer[..19]
  {
    buffer[..19] + delta + buffer[27..]
  }

  /** One call of the handler on the receive buffer: the receiver, the buffer and the reaction.
      `None` is a panic: a zero sample rate, an unknown indicator or a failed gather. */
  function AfterHandleRtt(x: Receiver, args: Args, buffer: seq<byte>, env: Env)
    : (r: Option<(Receiver, seq<byte>, Reaction)>)
    requires |buffer| == BUFFER_SIZE
    ensures r.Some? ==> |r.value.1| == BUFFER_SIZE
  {
    var seqNo := SeqOf(buffer);
    var x1 := x.(lastSeq := if seqNo > x.lastSeq then seqNo else x.lastSeq);
    if args.sampleRate == 0 then None
    else if seqNo % args.sampleRate != 0 then Some((x1, buffer, Skipped))
    else
      var record :- AfterRecord(Before(x1, seqNo), FromBuffer(buffer), env.recordTime);
      var x2 := x1.(records := x1.records[seqNo := record]);
      if record.complete then Finish(x2, args, seqNo, buffer, env) else Some((x2, buffer, Stored))
  }

  /** The record a fragment of frame `seqNo` is added to. */
  function Before(x: Receiver, seqNo: nat): Rec {
    if seqNo in x.records then x.records[seqNo] else EMPTY_REC
  }

  /** Acks, forwards and forgets a complete record. */
  function Finish(x: Receiver, args: Args, seqNo: nat, buffer: seq<byte>, env: Env)
    : (r: Option<(Receiver, seq<byte>, Reaction)>)
    requires |buffer| == BUFFER_SIZE && seqNo in x.records
    ensures r.Some? ==> |r.value.1| == BUFFER_SIZE
  {
    var ack := WithDelta(buffer, env.encode(DeltaOf(x.records[seqNo])));
    var packets := x.records[seqNo].packets;
    var gathered := if args.rxMode && x.hasTx then GatherUpTo(packets, |packets|) else None;
    if args.rxMode && x.hasTx && gathered.None? then None
    else
      Some((x.(records := x.records - {seqNo}, recevied := x.recevied + 1,
               stutter := AfterUpdate(x.stutter, env.ackTime)),
            ack, Acked(ack, gathered)))
  }

  /** What is handed up with a complete record: the gathered frame when frames are forwarded. */
  function HandedUp(args: Args, hasTx: bool, r: Rec): Option<seq<byte>> {
    if args.rxMode && hasTx then GatherUpTo(r.packets, |r.packets|) else None
  }

  /** What a call does to the records, the counters and the ack times, given the record it leaves: a
      skipped frame leaves them alone, an incomplete record is stored, and a complete one is acked, counted
      and forgotten, and handed up exactly when the receiver forwards frames. */
  lemma HandlerOutcome(x: Receiver, args: Args, buffer: seq<byte>, env: Env, r: Rec)
    requires |buffer| == BUFFER_SIZE && args.sampleRate > 0
    requires var n := SeqOf(buffer);
             AfterRecord(Before(x, n), FromBuffer(buffer), env.recordTime) == Some(r)
    requires r.complete ==> GatherUpTo(r.packets, |r.packets|).Some?
    ensures AfterHandleRtt(x, args, buffer, env).Some?
    ensures var n := SeqOf(buffer);
            var (y, _, reaction) := AfterHandleRtt(x, args, buffer, env).value;
            && y.lastSeq == (if n > x.lastSeq then n else x.lastSeq) && y.hasTx == x.hasTx
            && y.stutter == (if reaction.Acked? then AfterUpdate(x.stutter, env.ackTime) else x.stutter)
            && (n % args.sampleRate != 0 ==> y.records == x.records && y.recevied == x.recevied && reaction == Skipped)
            && (n % args.sampleRate == 0 && !r.complete ==>
                  y.records == x.records[n := r] && y.recevied == x.recevied && reaction == Stored)
            && (n % args.sampleRate == 0 && r.complete ==>
                  && y.records == x.records - {n} && y.recevied == x.recevied + 1 && reaction.Acked?
                  && reaction.gathered == HandedUp(args, x.hasTx, r))
  {
    hide AfterRecord, FromBuffer, GatherUpTo, SeqOf, WithDelta, AfterUpdate;
    var n := SeqOf(buffer);
    assert x.records[n := r] - {n} == x.records - {n};
  }

  /** When a call panics: with a sample rate of zero, and for a sampled frame on an unknown indicator or, if the
      frame is complete and frames are forwarded, when a payload cannot be gathered. */
  lemma HandlerPanicsIff(x: Receiver, args: Args, buffer: seq<byte>, env: Env)
    requires |buffer| == BUFFER_SIZE
    ensures AfterHandleRtt(x, args, buffer, env).None? <==>
            || args.sampleRate == 0
            || (SeqOf(buffer) % args.sampleRate == 0 &&
                var record := AfterRecord(Before(x, SeqOf(buffer)), FromBuffer(buffer), env.recordTime);
                record.None? || (record.value.complete && args.rxMode && x.hasTx
                                 && GatherUpTo(record.value.packets, |record.value.packets|).None?))
  {
    hide AfterRecord, FromBuffer, GatherUpTo, SeqOf, WithDelta, AfterUpdate;
  }

  /** The ack the sender reads names the frame that completed and carries the delay between the links of
      the record that this call completed: it is written behind the header, and read back from there. */
  lemma AckRoundTrip(x: Receiver, args: Args, buffer: seq<byte>, env: Env)
    requires |buffer| == BUFFER_SIZE
    requires AfterHandleRtt(x, args, buffer, env).Some? && AfterHandleRtt(x, args, buffer, env).value.2.Acked?
    ensures var ack := AfterHandleRtt(x, args, buffer, env).value.2.ack;
            var record := AfterRecord(Before(x, SeqOf(buffer)), FromBuffer(buffer), env.recordTime);
            && |ack| == BUFFER_SIZE && SeqOf(ack) == SeqOf(buffer)
            && record.Some? && record.value.complete && ack[19..27] == env.encode(DeltaOf(record.value))
  {
    hide AfterRecord, FromBuffer, GatherUpTo, DeltaOf;
    var ack := AfterHandleRtt(x, args, buffer, env).value.2.ack;
    var record := AfterRecord(Before(x, SeqOf(buffer)), FromBuffer(buffer), env.recordTime).value;
    assert ack == WithDelta(buffer, env.encode(DeltaOf(record)));
    assert ack[0..4] == buffer[0..4];
  }

  ghost predicate Distinct(records: map<nat, RecvRecord>) {
    forall s, t :: s in records && t in records && s != t ==> records[s] != records[t]
  }

  lemma DistinctMinus(records: map<nat, RecvRecord>, seqNo: nat)
    requires Distinct(records)
    ensures Distinct(records - {seqNo})
  {
  }

  class RecvData {
    var recvRecords: map<nat, RecvRecord>
    var lastSeq: nat
    var recevied: nat
    const stutter: Stutter
    const hasTx: bool

    constructor (hasTx: bool)
      ensures Invariant() && Model() == NewReceiver(hasTx)
    {
      var s := new Stutter();
      stutter := s;
      recvRecords, lastSeq, recevied, this.hasTx := map[], 0, 0, hasTx;
    }

    /** The records are objects of their own. */
    ghost predicate Invariant()
      reads this
    {
      Distinct(recvRecords)
    }

    ghost function Model(): Receiver
      reads this, stutter, recvRecords.Values
    {
      Receiver(map s | s in recvRecords :: recvRecords[s].Model(), lastSeq, recevied, stutter.Model(), hasTx)
    }

    /** Finds or makes the record of `seqNo` and records the buffer in it. */
    method RecordBuffer(seqNo: nat, buffer: array<byte>, now: real) returns (record: RecvRecord)
      requires Invariant() && buffer.Length == BUFFER_SIZE
      requires AfterRecord(Before(Model(), seqNo), FromBuffer(buffer[..]), now).Some?
      modifies this`recvRecords, recvRecords.Values
      ensures Invariant()
      ensures seqNo in recvRecords && recvRecords[seqNo] == record
      ensures record.Model() == AfterRecord(Before(old(Model()), seqNo), FromBuffer(buffer[..]), now).value
      ensures Model() == old(Model()).(records := old(Model()).records[seqNo := record.Model()])
      ensures fresh(recvRecords.Values - old(recvRecords.Values))
    {
      hide AfterRecord, FromBuffer;
      ghost var x := Model();
      if seqNo !in recvRecords {
        var r := new RecvRecord();
        recvRecords := recvRecords[seqNo := r];
      }
      record := recvRecords[seqNo];
      record.Record(buffer, now);
      assert forall s :: s in recvRecords && s != seqNo ==> recvRecords[s] != record;
      assert Model().records == x.records[seqNo := record.Model()];
    }

    method HandleRtt(args: Args, buffer: array<byte>, env: Env) returns (reaction: Reaction)
      requires Invariant()
      requires buffer.Length == BUFFER_SIZE
      requires AfterHandleRtt(Model(), args, buffer[..], env).Some?
      modifies this, stutter, recvRecords.Values, buffer
      ensures Invariant()
      ensures (Model(), buffer[..], reaction) == AfterHandleRtt(old(Model()), args, old(buffer[..]), env).value
    {
      hide AfterRecord, FromBuffer, Finish, SeqOf;
      var seqNo := SeqOf(buffer[..]);
      lastSeq := if seqNo > lastSeq then seqNo else lastSeq;
      assert Model() == old(Model()).(lastSeq := lastSeq);
      if seqNo % args.sampleRate != 0 {
        return Skipped;
      }
      var record := RecordBuffer(seqNo, buffer, env.recordTime);
      if !record.isComplete {
        return Stored;
      }
      reaction := FinishRecord(args, seqNo, record, buffer, env);
    }

    method FinishRecord(args: Args, seqNo: nat, record: RecvRecord, buffer: array<byte>, env: Env)
      returns (reaction: Reaction)
      requires Invariant() && seqNo in recvRecords && recvRecords[seqNo] == record
      requires buffer.Length == BUFFER_SIZE
      requires Finish(Model(), args, seqNo, buffer[..], env).Some?
      modifies this, stutter, buffer
      ensures Invariant()
      ensures (Model(), buffer[..], reaction) == Finish(old(Model()), args, seqNo, old(buffer[..]), env).value
    {
      hide GatherUpTo, WithDelta, AfterUpdate, Distinct;
      Acknowledge(buffer, env, record.Delta());
      var ack := buffer[..];
      assert record.Model() == Model().records[seqNo];
      var gathered := None;
      if args.rxMode && hasTx {
        gathered := record.Gather();
      }
      Forget(seqNo);
      reaction := Acked(ack, gathered);
    }

    /** Notes the ack and writes the delay into the buffer that is sent back. */
    method Acknowledge(buffer: array<byte>, env: Env, delta: real)
      requires Invariant() && buffer.Length == BUFFER_SIZE
      modifies stutter, buffer
      ensures Invariant() && buffer[..] == WithDelta(old(buffer[..]), env.encode(delta))
      ensures Model() == old(Model()).(stutter := AfterUpdate(old(Model()).stutter, env.ackTime))
    {
      hide WithDelta, AfterUpdate, Distinct;
      stutter.Update(env.ackTime);
      WriteDelta(buffer, env.encode(delta));
      assert Model().records == old(Model()).records;
    }

    /** Removes a record and counts its frame. */
    method Forget(seqNo: nat)
      requires Invariant()
      modifies this`recvRecords, this`recevied
      ensures Invariant()
      ensures Model() == old(Model()).(records := old(Model()).records - {seqNo}, recevied := old(recevied) + 1)
    {
      DistinctMinus(recvRecords, seqNo);
      hide Distinct;
      recvRecords := recvRecords - {seqNo};
      recevied := recevied + 1;
      assert Model().records == old(Model()).records - {seqNo};
    }
  }

  method WriteDelta(buffer: array<byte>, delta: seq<byte>)
    requires buffer.Length == BUFFER_SIZE && |delta| == 8
    modifies buffer
    ensures buffer[..] == WithDelta(old(buffer[..]), delta)
  {
    forall i | 0 <= i < 8 {
      buffer[19 + i] := delta[i];
    }
    assert buffer[..] == old(buffer[..])[..19] + delta + old(buffer[..])[27..];
  }
}
