/** Packets: the wire layout, the link indicator and the mutable packet template (core/src/packet.rs). */
module Packets {
  import opened Wrappers

  type byte = x: int | 0 <= x < 0x100
  type u16 = x: int | 0 <= x < 0x1_0000
  type u32 = x: int | 0 <= x < 0x1_0000_0000

  const APP_HEADER_LENGTH := 9
  const UDP_MAX_LENGTH := 1500 - 20 - 8
  const MAX_PAYLOAD_LEN := UDP_MAX_LENGTH - APP_HEADER_LENGTH

  datatype PacketType = FirstLink | SecondLink | LastPacketInFirstLink | LastPacketInSecondLink

  /** The link a packet type stands for: 0 is the first link, 1 the second. */
  function LinkOf(t: PacketType): nat {
    if t.FirstLink? || t.LastPacketInFirstLink? then 0 else 1
  }

  predicate MarksLast(t: PacketType) {
    t.LastPacketInFirstLink? || t.LastPacketInSecondLink?
  }

  function ToIndicator(t: PacketType): byte {
    match t
    case FirstLink => 0
    case SecondLink => 1
    case LastPacketInFirstLink => 2
    case LastPacketInSecondLink => 3
  }

  /** `None` is the explicit panic on an unknown indicator. */
  function GetPacketType(indicators: byte): Option<PacketType> {
    if indicators == 0 then Some(FirstLink)
    else if indicators == 1 then Some(SecondLink)
    else if indicators == 2 then Some(LastPacketInFirstLink)
    else if indicators == 3 then Some(LastPacketInSecondLink)
    else None
  }

  /** The lowest bit of the indicator. */
  function ChannelInfo(indicator: byte): nat {
    indicator % 2
  }

  /** The indicator codec inverts in both directions, panics on nothing it wrote, and keeps the link in its
      lowest bit and the mark in the next. */
  lemma IndicatorCodec(t: PacketType, b: byte)
    ensures GetPacketType(ToIndicator(t)) == Some(t)
    ensures ChannelInfo(ToIndicator(t)) == LinkOf(t)
    ensures ToIndicator(t) == LinkOf(t) + if MarksLast(t) then 2 else 0
    ensures GetPacketType(b).Some? <==> b < 4
    ensures GetPacketType(b).Some? ==> ToIndicator(GetPacketType(b).value) == b
  {
  }

  type Payload = s: seq<byte> | |s| == MAX_PAYLOAD_LEN witness seq(MAX_PAYLOAD_LEN, _ => 0)

  datatype PacketStruct = PacketStruct(seqNo: u32, offset: u16, length: u16, indicators: byte, payload: Payload)

  datatype PacketWithMeta = PacketWithMeta(packet: PacketStruct, port: u16, num: nat, arrivalTime: real,
                                           channel: nat, lastOne: bool)

  /** Stamping a packet with its type also selects the outgoing channel. */
  function SetIndicator(p: PacketWithMeta, t: PacketType): PacketWithMeta {
    p.(packet := p.packet.(indicators := ToIndicator(t)), channel := ChannelInfo(ToIndicator(t)))
  }

  // Little-endian integers, as a packed struct is laid out on the hosts the program runs on.

  function Le16(x: u16): (b: seq<byte>)
    ensures |b| == 2
  {
    [x % 0x100, x / 0x100]
  }

  function Le32(x: u32): (b: seq<byte>)
    ensures |b| == 4
  {
    Le16(x % 0x1_0000) + Le16(x / 0x1_0000)
  }

  function FromLe16(b: seq<byte>): u16
    requires |b| == 2
  {
    b[0] as int + 0x100 * (b[1] as int)
  }

  function FromLe32(b: seq<byte>): u32
    requires |b| == 4
  {
    FromLe16(b[0..2]) as int + 0x1_0000 * (FromLe16(b[2..4]) as int)
  }

  lemma LittleEndianInverts(x: u16, y: u32)
    ensures FromLe16(Le16(x)) == x
    ensures FromLe32(Le32(y)) == y
  {
    assert Le32(y)[0..2] == Le16(y % 0x1_0000);
    assert Le32(y)[2..4] == Le16(y / 0x1_0000);
  }

  /** The whole packed struct as bytes. */
  function ToBytes(p: PacketStruct): (b: seq<byte>)
    ensures |b| == UDP_MAX_LENGTH
  {
    Le32(p.seqNo) + Le16(p.offset) + Le16(p.length) + [p.indicators] + p.payload
  }

  /** The bytes handed to the socket: the header and the used part of the payload. Slicing past the
      struct is a panic in the source, hence the precondition. */
  function Datagram(p: PacketStruct): (d: seq<byte>)
    requires p.length <= MAX_PAYLOAD_LEN
    ensures |d| == APP_HEADER_LENGTH + p.length
  {
    ToBytes(p)[..APP_HEADER_LENGTH + p.length]
  }

  /** The raw copy of the first bytes of a receive buffer into a packet. */
  function FromBuffer(b: seq<byte>): PacketStruct
    requires |b| >= UDP_MAX_LENGTH
  {
    PacketStruct(FromLe32(b[0..4]), FromLe16(b[4..6]), FromLe16(b[6..8]), b[8],
                 b[APP_HEADER_LENGTH..UDP_MAX_LENGTH])
  }

  /** A datagram received into a buffer that still holds the bytes of earlier datagrams; what does not
      fit is cut off. */
  function Overlay(buffer: seq<byte>, d: seq<byte>): (r: seq<byte>)
    ensures |r| == |buffer|
  {
    if |d| <= |buffer| then d + buffer[|d|..] else d[..|buffer|]
  }

  /** Header fields as read off a datagram, and the payload it carries. */
  function SeqOf(d: seq<byte>): u32
    requires |d| >= APP_HEADER_LENGTH
  {
    FromLe32(d[0..4])
  }

  function OffsetOf(d: seq<byte>): u16
    requires |d| >= APP_HEADER_LENGTH
  {
    FromLe16(d[4..6])
  }

  function LengthOf(d: seq<byte>): u16
    requires |d| >= APP_HEADER_LENGTH
  {
    FromLe16(d[6..8])
  }

  /** What a datagram says about the packet it was cut from. */
  lemma DatagramFields(p: PacketStruct)
    requires p.length <= MAX_PAYLOAD_LEN
    ensures var d := Datagram(p);
            && SeqOf(d) == p.seqNo && OffsetOf(d) == p.offset && LengthOf(d) == p.length
            && d[8] == p.indicators
            && d[APP_HEADER_LENGTH..] == p.payload[..p.length]
  {
    var d := Datagram(p);
    LittleEndianInverts(p.offset, p.seqNo);
    LittleEndianInverts(p.length, p.seqNo);
    assert ToBytes(p)[0..4] == Le32(p.seqNo);
    assert ToBytes(p)[4..6] == Le16(p.offset);
    assert ToBytes(p)[6..8] == Le16(p.length);
    assert d[0..4] == Le32(p.seqNo);
    assert d[4..6] == Le16(p.offset);
    assert d[6..8] == Le16(p.length);
  }

  /** The layout on the wire, byte by byte: the sequence number, the offset and the length with the lowest byte
      first, the indicator, and the payload. */
  lemma {:induction false} WireLayout(p: PacketStruct)
    requires p.length <= MAX_PAYLOAD_LEN
    ensures var d := Datagram(p);
            && |d| == 9 + p.length
            && p.seqNo as int == d[0] as int + 0x100 * d[1] as int + 0x1_0000 * d[2] as int + 0x100_0000 * d[3] as int
            && p.offset as int == d[4] as int + 0x100 * d[5] as int
            && p.length as int == d[6] as int + 0x100 * d[7] as int
            && p.indicators == d[8] && d[9..] == p.payload[..p.length]
  {
    DatagramFields(p);
    var d := Datagram(p);
    assert d[0..4][0..2] == d[0..2] && d[0..4][2..4] == d[2..4];
    hide Datagram;
  }

  /** Reading a buffer sees exactly the datagram last received into it, whatever was there before. */
  lemma ReadBack(buffer: seq<byte>, d: seq<byte>)
    requires APP_HEADER_LENGTH <= |d| <= UDP_MAX_LENGTH <= |buffer|
    requires LengthOf(d) == |d| - APP_HEADER_LENGTH
    ensures var q := FromBuffer(Overlay(buffer, d));
            && q.seqNo == SeqOf(d) && q.offset == OffsetOf(d) && q.length == LengthOf(d)
            && q.indicators == d[8]
            && q.payload[..q.length] == d[APP_HEADER_LENGTH..]
  {
    var b := Overlay(buffer, d);
    assert b[0..4] == d[0..4];
    assert b[4..6] == d[4..6];
    assert b[6..8] == d[6..8];
  }

  /** Wire round trip: sending a packet and reading it out of any stale receive buffer returns every
      header field and the used payload. */
  lemma WireRoundTrip(p: PacketStruct, buffer: seq<byte>)
    requires p.length <= MAX_PAYLOAD_LEN
    requires |buffer| >= UDP_MAX_LENGTH
    ensures var q := FromBuffer(Overlay(buffer, Datagram(p)));
            && q.seqNo == p.seqNo && q.offset == p.offset && q.length == p.length
            && q.indicators == p.indicators
            && q.payload[..q.length] == p.payload[..p.length]
  {
    DatagramFields(p);
    ReadBack(buffer, Datagram(p));
  }

  /** The packet template a sender thread keeps and mutates while it cuts frames. */
  class PacketTemplate {
    var packet: PacketStruct
    const port: u16
    var num: nat
    var arrivalTime: real
    var channel: nat
    var lastOne: bool

    constructor (port: u16)
      ensures this.port == port && packet.seqNo == 0 && packet.offset == 0 && packet.length == 0
      ensures packet.indicators == 0 && num == 0 && channel == 0 && !lastOne
      ensures forall i :: 0 <= i < MAX_PAYLOAD_LEN ==> packet.payload[i] == i % 0x100
    {
      packet := PacketStruct(0, 0, 0, 0, seq(MAX_PAYLOAD_LEN, i => i % 0x100));
      this.port := port;
      num, arrivalTime, channel, lastOne := 0, 0.0, 0, false;
    }

    /** The copy pushed into the queue. */
    function Clone(): PacketWithMeta
      reads this
    {
      PacketWithMeta(packet, port, num, arrivalTime, channel, lastOne)
    }

    /** Overflow of the 32-bit sequence number is a panic, hence the precondition. */
    method NextSeq(num: nat)
      requires packet.seqNo < 0xFFFF_FFFF
      modifies this
      ensures this.num == num
      ensures packet == old(packet).(seqNo := old(packet.seqNo) + 1, offset := num % 0x1_0000)
      ensures unchanged(`arrivalTime) && unchanged(`channel) && unchanged(`lastOne)
    {
      this.num := num;
      packet := packet.(seqNo := packet.seqNo + 1, offset := num % 0x1_0000);
    }

    method SetLength(length: u16)
      modifies `packet
      ensures packet == old(packet).(length := length)
    {
      packet := packet.(length := length);
    }

    /** `num - 1` underflows on a template without fragments. */
    method SetOffset(offset: u16)
      requires num > 0
      modifies `packet, `lastOne
      ensures packet == old(packet).(offset := offset)
      ensures lastOne == (offset == (num - 1) % 0x1_0000)
    {
      lastOne := offset == (num - 1) % 0x1_0000;
      packet := packet.(offset := offset);
    }

    /** Only the prefix is overwritten: later payload bytes stay from the previous fragment. */
    method SetPayload(payload: seq<byte>)
      requires |payload| <= MAX_PAYLOAD_LEN
      modifies `packet
      ensures packet == old(packet).(payload := payload + old(packet.payload)[|payload|..])
    {
      packet := packet.(payload := payload + packet.payload[|payload|..]);
    }
  }
}
