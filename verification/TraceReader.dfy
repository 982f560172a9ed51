/** TraceReader: the length-prefixed packet trace (tx/src/utils/trace_reader.rs). */
module TraceReader {
  import opened Packets

  const METADATA := 16

  datatype TracePacket = TracePacket(intervalNs: nat, data: seq<byte>)

  /** `UnexpectedEof` is the error of a data block that is cut short. */
  datatype ReadResult = Ok(packets: seq<TracePacket>) | UnexpectedEof

  /** Big-endian numbers. */
  function FromBe(b: seq<byte>): nat {
    if b == [] then 0 else FromBe(b[..|b| - 1]) * 0x100 + b[|b| - 1] as nat
  }

  function ToBe(x: nat, n: nat): (b: seq<byte>)
    ensures |b| == n
  {
    if n == 0 then [] else ToBe(x / 0x100, n - 1) + [x % 0x100]
  }

  function Pow256(n: nat): nat {
    if n == 0 then 1 else 0x100 * Pow256(n - 1)
  }

  lemma {:induction false} FromBeInverts(x: nat, n: nat)
    requires x < Pow256(n)
    ensures FromBe(ToBe(x, n)) == x
  {
    if n > 0 {
      var b := ToBe(x, n);
      FromBeInverts(x / 0x100, n - 1);
      assert b[..n - 1] == ToBe(x / 0x100, n - 1);
    }
  }

  lemma {:induction false} ToBeInverts(b: seq<byte>)
    ensures FromBe(b) < Pow256(|b|)
    ensures ToBe(FromBe(b), |b|) == b
  {
    if b != [] {
      var front, last := b[..|b| - 1], b[|b| - 1];
      ToBeInverts(front);
      assert FromBe(b) / 0x100 == FromBe(front) && FromBe(b) % 0x100 == last;
      assert front + [last] == b;
    }
  }

  /** Both numbers of a packet's metadata fit 64 bits. */
  predicate Fits(p: TracePacket) {
    p.intervalNs < Pow256(8) && |p.data| < Pow256(8)
  }

  function Encode(p: TracePacket): (b: seq<byte>)
    ensures |b| == METADATA + |p.data|
  {
    ToBe(p.intervalNs, 8) + ToBe(|p.data|, 8) + p.data
  }

  function EncodeAll(packets: seq<TracePacket>): seq<byte> {
    if packets == [] then [] else Encode(packets[0]) + EncodeAll(packets[1..])
  }

  /** The packet at the head of the bytes. */
  predicate HasHead(b: seq<byte>) {
    |b| >= METADATA && |b| - METADATA >= FromBe(b[8..16])
  }

  function Head(b: seq<byte>): (p: TracePacket)
    requires HasHead(b)
    ensures METADATA + |p.data| <= |b|
  {
    TracePacket(FromBe(b[0..8]), b[METADATA..METADATA + FromBe(b[8..16])])
  }

  function Tail(b: seq<byte>): seq<byte>
    requires HasHead(b)
  {
    b[METADATA + FromBe(b[8..16])..]
  }

  function Parse(b: seq<byte>): ReadResult
    decreases |b|
  {
    if |b| < METADATA then Ok([])
    else if !HasHead(b) then UnexpectedEof
    else
      match Parse(Tail(b))
      case UnexpectedEof => UnexpectedEof
      case Ok(rest) => Ok([Head(b)] + rest)
  }

  /** The parse of the whole is what was read so far and the parse of the rest. */
  ghost predicate Resumes(file: seq<byte>, read: seq<TracePacket>, rest: seq<byte>) {
    Parse(file) == match Parse(rest)
                   case UnexpectedEof => UnexpectedEof
                   case Ok(more) => Ok(read + more)
  }

  /** The reading loop over the bytes of the file; it ends on every file. */
  method ReadPackets(file: seq<byte>) returns (r: ReadResult)
    ensures r == Parse(file)
  {
    var stored: seq<TracePacket> := [];
    var rest := file;
    assert forall more: seq<TracePacket> :: stored + more == more;
    while |rest| >= METADATA
      invariant Resumes(file, stored, rest)
      decreases |rest|
    {
      if !HasHead(rest) {
        return UnexpectedEof;
      }
      var p := Head(rest);
      assert forall more :: (stored + [p]) + more == stored + ([p] + more);
      stored := stored + [p];
      rest := Tail(rest);
    }
    assert stored + [] == stored;
    r := Ok(stored);
  }

  /** A head that is there is the decoding of its own bytes. */
  lemma EncodeHead(b: seq<byte>)
    requires HasHead(b)
    ensures Fits(Head(b)) && b == Encode(Head(b)) + Tail(b)
  {
    ToBeInverts(b[0..8]);
    ToBeInverts(b[8..16]);
    hide FromBe, ToBe, Pow256;
    var n := FromBe(b[8..16]);
    assert b == b[0..8] + b[8..16] + b[METADATA..METADATA + n] + b[METADATA + n..];
  }

  lemma HeadOfEncoding(p: TracePacket, rest: seq<byte>)
    requires Fits(p)
    ensures HasHead(Encode(p) + rest) && Head(Encode(p) + rest) == p && Tail(Encode(p) + rest) == rest
  {
    FromBeInverts(p.intervalNs, 8);
    FromBeInverts(|p.data|, 8);
    hide FromBe, Pow256;
    var b := Encode(p) + rest;
    assert b[0..8] == ToBe(p.intervalNs, 8);
    assert b[8..16] == ToBe(|p.data|, 8);
    assert b[METADATA..METADATA + |p.data|] == p.data;
    assert b[METADATA + |p.data|..] == rest;
  }

  lemma {:induction false} ParseGivesEncoding(b: seq<byte>) returns (tail: seq<byte>)
    requires Parse(b).Ok?
    ensures |tail| < METADATA && b == EncodeAll(Parse(b).packets) + tail
    ensures forall p :: p in Parse(b).packets ==> Fits(p)
    decreases |b|
  {
    hide Fits, Encode;
    if |b| < METADATA {
      tail := b;
    } else {
      EncodeHead(b);
      tail := ParseGivesEncoding(Tail(b));
      var rest := Parse(Tail(b)).packets;
      assert Parse(b).packets[1..] == rest;
      assert Encode(Head(b)) + (EncodeAll(rest) + tail) == (Encode(Head(b)) + EncodeAll(rest)) + tail;
    }
  }

  lemma {:induction false} EncodingParses(packets: seq<TracePacket>, tail: seq<byte>)
    requires |tail| < METADATA && forall p :: p in packets ==> Fits(p)
    ensures Parse(EncodeAll(packets) + tail) == Ok(packets)
  {
    hide Fits, HasHead, Head, Tail;
    if packets == [] {
      assert EncodeAll(packets) + tail == tail;
    } else {
      var rest := EncodeAll(packets[1..]) + tail;
      EncodingParses(packets[1..], tail);
      HeadOfEncoding(packets[0], rest);
      assert EncodeAll(packets) + tail == Encode(packets[0]) + rest;
      assert [packets[0]] + packets[1..] == packets;
    }
  }

  /** Trace parsing is exact: a file reads as `packets` if and only if it is their encoding followed by
      fewer bytes than a metadata block; so no file reads in two ways. */
  lemma ParseIsExact(file: seq<byte>, packets: seq<TracePacket>)
    ensures Parse(file) == Ok(packets) <==>
            (forall p :: p in packets ==> Fits(p))
            && exists tail :: |tail| < METADATA && file == EncodeAll(packets) + tail
  {
    hide Fits, Parse, EncodeAll;
    if Parse(file) == Ok(packets) {
      var tail := ParseGivesEncoding(file);
    }
    forall tail | (forall p :: p in packets ==> Fits(p)) && |tail| < METADATA && file == EncodeAll(packets) + tail
      ensures Parse(file) == Ok(packets)
    {
      EncodingParses(packets, tail);
    }
  }

  lemma EncodingIsUnique(packets: seq<TracePacket>, others: seq<TracePacket>, tail: seq<byte>, tail': seq<byte>)
    requires (forall p :: p in packets ==> Fits(p)) && forall p :: p in others ==> Fits(p)
    requires |tail| < METADATA && |tail'| < METADATA
    requires EncodeAll(packets) + tail == EncodeAll(others) + tail'
    ensures packets == others && tail == tail'
  {
    hide Fits, EncodeAll, Parse;
    EncodingParses(packets, tail);
    EncodingParses(others, tail');
    var code := EncodeAll(packets);
    assert (code + tail)[|code|..] == tail && (code + tail')[|code|..] == tail';
  }

  /** The number in the eight bytes from `i` on, highest byte first. */
  function Number(b: seq<byte>, i: nat): nat
    requires i + 8 <= |b|
  {
    0x100_0000_0000_0000 * b[i] as nat + 0x1_0000_0000_0000 * b[i + 1] as nat
    + 0x100_0000_0000 * b[i + 2] as nat + 0x1_0000_0000 * b[i + 3] as nat
    + 0x100_0000 * b[i + 4] as nat + 0x1_0000 * b[i + 5] as nat + 0x100 * b[i + 6] as nat + b[i + 7] as nat
  }

  lemma FromBeStep(b: seq<byte>, i: nat, k: nat)
    requires 0 < k && i + k <= |b|
    ensures FromBe(b[i..i + k]) == FromBe(b[i..i + k - 1]) * 0x100 + b[i + k - 1] as nat
  {
    assert b[i..i + k][..k - 1] == b[i..i + k - 1];
  }

  lemma {:induction false} FromBeIsNumber(b: seq<byte>, i: nat)
    requires i + 8 <= |b|
    ensures FromBe(b[i..i + 8]) == Number(b, i)
  {
    hide FromBe;
    FromBeStep(b, i, 8);
    FromBeStep(b, i, 7);
    FromBeStep(b, i, 6);
    FromBeStep(b, i, 5);
    FromBeStep(b, i, 4);
    FromBeStep(b, i, 3);
    FromBeStep(b, i, 2);
    FromBeStep(b, i, 1);
    NothingIsZero(b[i..i]);
  }

  lemma NothingIsZero(b: seq<byte>)
    requires b == []
    ensures FromBe(b) == 0
  {
  }

  /** The first packet of a file, byte by byte: the interval in the first eight bytes, the length of the data in
      the next eight, and the data; a file that is cut short of its length is an error, and the rest is read
      the same way. */
  lemma {:induction false} FirstPacket(file: seq<byte>)
    requires |file| >= 16
    ensures var n := Number(file, 8);
            if |file| < 16 + n then Parse(file) == UnexpectedEof
            else
              match Parse(file[16 + n..])
              case UnexpectedEof => Parse(file) == UnexpectedEof
              case Ok(rest) => Parse(file) == Ok([TracePacket(Number(file, 0), file[16..16 + n])] + rest)
  {
    FromBeIsNumber(file, 0);
    FromBeIsNumber(file, 8);
    hide FromBe, Number;
  }
}
