/** The 20-byte voice packet header: backend/internal/audio/packet.go and protocol.go. */
module PacketCodec {
  import opened Basics

  const HEADER_SIZE := 20
  const MAX_PAYLOAD_SIZE := 4076
  const MAX_PACKET_SIZE := 4096
  const MAGIC_BYTE: byte := 0x56
  const PROTOCOL_VERSION: byte := 0x01

  const TYPE_VOICE: byte := 0x01
  const TYPE_PING: byte := 0x02
  const TYPE_PONG: byte := 0x03
  const TYPE_HANDSHAKE: byte := 0x04

  // ---------------------------------------------------------------------------
  // Flags and big-endian integers.  Bytes are the integers 0..255; masks and shifts are written as % and /.

  /** Bit 0 is the speaking bit (mask 0x01), bits 4-7 the energy level (mask 0xF0), bits 1-3 are reserved (0x0E). */
  function EncodeFlags(vad: bool, energy: byte): byte {
    (if vad then 1 else 0) + energy % 0x10 * 0x10
  }

  function DecodeFlags(flags: byte): (bool, byte) {
    (flags % 2 == 1, flags / 0x10)
  }

  /** The byte with its reserved bits 1-3 cleared. */
  function ClearReserved(flags: byte): byte {
    flags / 0x10 * 0x10 + flags % 2
  }

  /** Packing then unpacking keeps the low nibble of the level; the other way round clears only reserved bits. */
  lemma FlagsRoundTrip(vad: bool, energy: byte, flags: byte)
    ensures DecodeFlags(EncodeFlags(vad, energy)) == (vad, energy % 0x10)
    ensures EncodeFlags(DecodeFlags(flags).0, DecodeFlags(flags).1) == ClearReserved(flags)
  {
  }

  predicate IsValidPacketType(t: byte) {
    t == TYPE_VOICE || t == TYPE_PING || t == TYPE_PONG || t == TYPE_HANDSHAKE
  }

  function Put16(v: uint16): seq<byte> {
    [v / 0x100, v % 0x100]
  }

  function Get16(s: seq<byte>): uint16
    requires |s| == 2
  {
    var hi: int, lo: int := s[0], s[1];
    hi * 0x100 + lo
  }

  function Put32(v: uint32): (s: seq<byte>)
    ensures |s| == 4
  {
    Put16(v / 0x1_0000) + Put16(v % 0x1_0000)
  }

  function Get32(s: seq<byte>): uint32
    requires |s| == 4
  {
    Get16(s[..2]) * 0x1_0000 + Get16(s[2..])
  }

  lemma RoundTrip16(v: uint16, s: seq<byte>)
    requires |s| == 2
    ensures Get16(Put16(v)) == v && Put16(Get16(s)) == s
  {
  }

  lemma RoundTrip32(v: uint32, s: seq<byte>)
    requires |s| == 4
    ensures Get32(Put32(v)) == v && Put32(Get32(s)) == s
  {
    RoundTrip16(v / 0x1_0000, s[..2]);
    RoundTrip16(v % 0x1_0000, s[2..]);
    assert Put32(v)[..2] == Put16(v / 0x1_0000);
    assert Put32(v)[2..] == Put16(v % 0x1_0000);
    var hi: int, lo: int := Get16(s[..2]), Get16(s[2..]);
    assert Get32(s) / 0x1_0000 == hi && Get32(s) % 0x1_0000 == lo;
    assert s == s[..2] + s[2..];
  }

  // ---------------------------------------------------------------------------
  // Packets

  datatype Fields = Fields(
    magic: byte,
    version: byte,
    ptype: byte,
    flags: byte,
    vad: bool,
    energy: byte,
    senderId: uint32,
    channelId: uint32,
    sequence: uint16,
    payloadLen: uint16,
    timestamp: uint32,
    payload: seq<byte>)

  const BLANK := Fields(0, 0, 0, 0, false, 0, 0, 0, 0, 0, 0, [])

  /** Why a datagram is refused, in the order the decoder tests. */
  function DecodeError(data: seq<byte>): Option<AudioError> {
    if |data| < HEADER_SIZE then Some(PacketTooShort)
    else if data[0] != MAGIC_BYTE then Some(InvalidMagic)
    else if data[1] != PROTOCOL_VERSION then Some(InvalidVersion)
    else if !IsValidPacketType(data[2]) then Some(InvalidType)
    else if Get16(data[14..16]) > MAX_PAYLOAD_SIZE then Some(PayloadTooLarge)
    else if |data| < HEADER_SIZE + Get16(data[14..16]) then Some(PayloadLengthMismatch)
    else None
  }

  /** The packet an accepted datagram carries. */
  function Decoded(data: seq<byte>): Fields
    requires DecodeError(data).None?
  {
    Fields(data[0], data[1], data[2], data[3], DecodeFlags(data[3]).0, DecodeFlags(data[3]).1,
           Get32(data[4..8]), Get32(data[8..12]), Get16(data[12..14]), Get16(data[14..16]), Get32(data[16..20]),
           data[HEADER_SIZE..HEADER_SIZE + Get16(data[14..16])])
  }

  function OrDefault(b: byte, default: byte): byte {
    if b == 0 then default else b
  }

  /** The header of a packet.  The length field is a 16-bit truncation of the payload length. */
  function HeaderBytes(p: Fields): (s: seq<byte>)
    ensures |s| == HEADER_SIZE
  {
    [OrDefault(p.magic, MAGIC_BYTE), OrDefault(p.version, PROTOCOL_VERSION), p.ptype, EncodeFlags(p.vad, p.energy)]
    + Put32(p.senderId) + Put32(p.channelId) + Put16(p.sequence) + Put16(|p.payload| % 0x1_0000) + Put32(p.timestamp)
  }

  function Encoding(p: Fields): seq<byte> {
    HeaderBytes(p) + p.payload
  }

  lemma EncodingParts(p: Fields)
    ensures var s := Encoding(p);
      && s[0] == OrDefault(p.magic, MAGIC_BYTE) && s[1] == OrDefault(p.version, PROTOCOL_VERSION)
      && s[2] == p.ptype && s[3] == EncodeFlags(p.vad, p.energy)
      && s[..4] == [s[0], s[1], s[2], s[3]]
      && s[4..8] == Put32(p.senderId) && s[8..12] == Put32(p.channelId) && s[12..14] == Put16(p.sequence)
      && s[14..16] == Put16(|p.payload| % 0x1_0000) && s[16..20] == Put32(p.timestamp) && s[20..] == p.payload
  {
  }

  ghost predicate Encodable(p: Fields) {
    && (p.magic == 0 || p.magic == MAGIC_BYTE)
    && (p.version == 0 || p.version == PROTOCOL_VERSION)
    && IsValidPacketType(p.ptype)
    && |p.payload| % 0x1_0000 <= MAX_PAYLOAD_SIZE
  }

  /** The packet with what encoding fills in: defaults, the packed flags, and the 16-bit length. */
  ghost function Normalized(p: Fields): Fields {
    p.(magic := MAGIC_BYTE, version := PROTOCOL_VERSION, flags := EncodeFlags(p.vad, p.energy),
       energy := p.energy % 0x10, payloadLen := |p.payload| % 0x1_0000, payload := p.payload[..|p.payload| % 0x1_0000])
  }

  /**
  Decoding an encoding succeeds exactly for encodable packets and gives the packet back, normalized; the payload
  survives whole exactly when it fits the 16-bit length field.
  */
  lemma DecodeOfEncoding(p: Fields)
    ensures DecodeError(Encoding(p)).None? <==> Encodable(p)
    ensures Encodable(p) ==> Decoded(Encoding(p)) == Normalized(p)
    ensures Encodable(p) ==> (Decoded(Encoding(p)).payload == p.payload <==> |p.payload| <= MAX_PAYLOAD_SIZE)
  {
    var s := Encoding(p);
    EncodingParts(p);
    RoundTrip32(p.senderId, s[4..8]);
    RoundTrip32(p.channelId, s[8..12]);
    RoundTrip16(p.sequence, s[12..14]);
    RoundTrip16(|p.payload| % 0x1_0000, s[14..16]);
    RoundTrip32(p.timestamp, s[16..20]);
    FlagsRoundTrip(p.vad, p.energy, 0);
    assert |p.payload| % 0x1_0000 <= |p.payload|;
    if Encodable(p) {
      assert s[20..20 + |p.payload| % 0x1_0000] == p.payload[..|p.payload| % 0x1_0000];
    }
  }

  /** Why a datagram is refused: the tests in order, byte by byte. */
  lemma RefusedExactly(data: seq<byte>)
    ensures DecodeError(data) == Some(PacketTooShort) <==> |data| < 20
    ensures |data| >= 20 ==>
      var err, len := DecodeError(data), 256 * (data[14] as int) + data[15];
      && (err == Some(InvalidMagic) <==> data[0] != 0x56)
      && (err == Some(InvalidVersion) <==> data[0] == 0x56 && data[1] != 1)
      && (err == Some(InvalidType) <==> data[0] == 0x56 && data[1] == 1 && !(1 <= data[2] <= 4))
      && (data[0] == 0x56 && data[1] == 1 && 1 <= data[2] <= 4 ==>
           && (err == Some(PayloadTooLarge) <==> len > 4076)
           && (err == Some(PayloadLengthMismatch) <==> len <= 4076 && |data| < 20 + len)
           && (err == None <==> len <= 4076 && |data| >= 20 + len))
  {
    if |data| >= 20 {
      assert Get16(data[14..16]) == 256 * (data[14] as int) + data[15];
    }
  }

  /** Every field of an accepted datagram is put back as it was, the flags with their reserved bits cleared. */
  lemma FieldsRoundTrip(data: seq<byte>)
    requires DecodeError(data).None?
    ensures var p := Decoded(data);
      && EncodeFlags(p.vad, p.energy) == ClearReserved(data[3])
      && Put32(p.senderId) == data[4..8] && Put32(p.channelId) == data[8..12] && Put16(p.sequence) == data[12..14]
      && Put16(|p.payload| % 0x1_0000) == data[14..16] && Put32(p.timestamp) == data[16..20]
  {
    var p := Decoded(data);
    assert |p.payload| == p.payloadLen && |p.payload| % 0x1_0000 == p.payloadLen;
    RoundTrip32(0, data[4..8]);
    RoundTrip32(0, data[8..12]);
    RoundTrip16(0, data[12..14]);
    RoundTrip16(0, data[14..16]);
    RoundTrip32(0, data[16..20]);
    FlagsRoundTrip(true, 0, data[3]);
  }

  lemma PartsOfUpdate(s: seq<byte>, n: nat, flags: byte)
    requires HEADER_SIZE <= n <= |s|
    ensures var t := s[..n][3 := flags];
      && t[..4] == [s[0], s[1], s[2], flags] && t[4..8] == s[4..8] && t[8..12] == s[8..12] && t[12..14] == s[12..14]
      && t[14..16] == s[14..16] && t[16..20] == s[16..20] && t[20..] == s[20..n]
  {
  }

  /** Two datagrams are equal when they agree field by field. */
  lemma SameDatagram(s: seq<byte>, t: seq<byte>)
    requires |s| == |t| >= HEADER_SIZE
    requires s[..4] == t[..4] && s[4..8] == t[4..8] && s[8..12] == t[8..12] && s[12..14] == t[12..14]
    requires s[14..16] == t[14..16] && s[16..20] == t[16..20] && s[20..] == t[20..]
    ensures s == t
  {
  }

  /** Encoding an accepted datagram gives its meaningful prefix back with only the reserved flag bits cleared. */
  lemma EncodeOfDecoding(data: seq<byte>)
    requires DecodeError(data).None?
    ensures Encoding(Decoded(data)) == data[..HEADER_SIZE + Decoded(data).payloadLen][3 := ClearReserved(data[3])]
  {
    var p := Decoded(data);
    var n := HEADER_SIZE + p.payloadLen;
    FieldsRoundTrip(data);
    EncodingParts(p);
    PartsOfUpdate(data, n, ClearReserved(data[3]));
    SameDatagram(Encoding(p), data[..n][3 := ClearReserved(data[3])]);
  }

  // ---------------------------------------------------------------------------
  // Ping and pong

  /** The answer to a ping. */
  function Pong(ping: Fields): Fields {
    Fields(MAGIC_BYTE, PROTOCOL_VERSION, TYPE_PONG, 0, false, 0, 0, ping.channelId, ping.sequence,
           |ping.payload| % 0x1_0000, ping.timestamp, ping.payload)
  }

  /** Every accepted ping has an answer that fits the pooled buffer and echoes channel, sequence, time and payload. */
  lemma PongEchoesPing(data: seq<byte>)
    requires DecodeError(data).None? && Decoded(data).ptype == TYPE_PING
    ensures var ping := Decoded(data); var reply := Encoding(Pong(ping));
      && |reply| <= MAX_PACKET_SIZE && DecodeError(reply).None?
      && Decoded(reply) == Pong(ping)
      && Decoded(reply).channelId == ping.channelId && Decoded(reply).sequence == ping.sequence
      && Decoded(reply).timestamp == ping.timestamp && Decoded(reply).payload == ping.payload
      && Decoded(reply).payloadLen == ping.payloadLen
      && Decoded(reply).ptype == 0x03 && Decoded(reply).senderId == 0 && reply[3] == 0
  {
    var pong := Pong(Decoded(data));
    assert |pong.payload| <= MAX_PAYLOAD_SIZE;
    DecodeOfEncoding(pong);
    assert pong.payload[..|pong.payload|] == pong.payload;
  }

  // ---------------------------------------------------------------------------
  // The code, field by field

  class Packet {
    var magic: byte
    var version: byte
    var ptype: byte
    var flags: byte
    var vad: bool
    var energy: byte
    var senderId: uint32
    var channelId: uint32
    var sequence: uint16
    var payloadLen: uint16
    var timestamp: uint32
    var payload: seq<byte>

    constructor ()
      ensures View() == BLANK
    {
      magic, version, ptype, flags, vad, energy := 0, 0, 0, 0, false, 0;
      senderId, channelId, sequence, payloadLen, timestamp, payload := 0, 0, 0, 0, 0, [];
    }

    function View(): Fields
      reads this
    {
      Fields(magic, version, ptype, flags, vad, energy, senderId, channelId, sequence, payloadLen, timestamp, payload)
    }

    /** Encodes into a caller's buffer; writes nothing and returns 0 when it does not fit. */
    method EncodeInto(dst: array<byte>) returns (n: nat)
      modifies dst
      ensures n == if dst.Length < HEADER_SIZE + |payload| then 0 else HEADER_SIZE + |payload|
      ensures n != 0 ==> dst[..n] == Encoding(View())
      ensures forall i :: n <= i < dst.Length ==> dst[i] == old(dst[i])
    {
      var total := HEADER_SIZE + |payload|;
      if dst.Length < total {
        return 0;
      }
      PutHeader(dst);
      if |payload| > 0 {
        Write(dst, HEADER_SIZE, payload);
      }
      return total;
    }

    method PutHeader(dst: array<byte>)
      requires dst.Length >= HEADER_SIZE
      modifies dst
      ensures dst[..HEADER_SIZE] == HeaderBytes(View())
      ensures forall i :: HEADER_SIZE <= i < dst.Length ==> dst[i] == old(dst[i])
    {
      var m := magic;
      if m == 0 {
        m := MAGIC_BYTE;
      }
      var v := version;
      if v == 0 {
        v := PROTOCOL_VERSION;
      }
      dst[0], dst[1], dst[2], dst[3] := m, v, ptype, EncodeFlags(vad, energy);
      assert dst[..4] == [m, v, ptype, EncodeFlags(vad, energy)];
      Write(dst, 4, Put32(senderId));
      Write(dst, 8, Put32(channelId));
      Write(dst, 12, Put16(sequence));
      Write(dst, 14, Put16(|payload| % 0x1_0000));
      Write(dst, 16, Put32(timestamp));
    }
  }

  /** copy(dst[at:], bytes) */
  method Write(dst: array<byte>, at: nat, bytes: seq<byte>)
    requires at + |bytes| <= dst.Length
    modifies dst
    ensures dst[..at + |bytes|] == old(dst[..at]) + bytes
    ensures forall i :: at + |bytes| <= i < dst.Length ==> dst[i] == old(dst[i])
  {
    forall i | 0 <= i < |bytes| {
      dst[at + i] := bytes[i];
    }
  }

  /** The packet with the fields of bytes 3 to 19 parsed. */
  function WithHeader(p: Fields, data: seq<byte>): Fields
    requires |data| >= HEADER_SIZE
  {
    p.(flags := data[3], vad := DecodeFlags(data[3]).0, energy := DecodeFlags(data[3]).1,
       senderId := Get32(data[4..8]), channelId := Get32(data[8..12]), sequence := Get16(data[12..14]),
       payloadLen := Get16(data[14..16]), timestamp := Get32(data[16..20]))
  }

  /**
  What the decoder leaves in a packet: the fields are filled in as they are parsed, so a refused datagram overwrites
  those that precede the failed test.
  */
  function Filled(p: Fields, data: seq<byte>): Fields {
    match DecodeError(data)
    case Some(PacketTooShort) => p
    case Some(InvalidMagic) => if |data| > 0 then p.(magic := data[0]) else p
    case Some(InvalidVersion) => if |data| > 1 then p.(magic := data[0], version := data[1]) else p
    case Some(InvalidType) => if |data| > 2 then p.(magic := data[0], version := data[1], ptype := data[2]) else p
    case Some(_) =>
      if |data| < HEADER_SIZE then p else
        WithHeader(p.(magic := data[0], version := data[1], ptype := data[2]), data)
    case None => Decoded(data)
  }

  method ParseHeader(data: seq<byte>, pkt: Packet)
    requires |data| >= HEADER_SIZE
    modifies pkt
    ensures pkt.View() == WithHeader(old(pkt.View()), data)
  {
    pkt.flags := data[3];
    pkt.vad := DecodeFlags(pkt.flags).0;
    pkt.energy := DecodeFlags(pkt.flags).1;
    pkt.senderId := Get32(data[4..8]);
    pkt.channelId := Get32(data[8..12]);
    pkt.sequence := Get16(data[12..14]);
    pkt.payloadLen := Get16(data[14..16]);
    pkt.timestamp := Get32(data[16..20]);
  }

  method DecodeInto(data: seq<byte>, pkt: Packet) returns (err: Option<AudioError>)
    modifies pkt
    ensures err == DecodeError(data)
    ensures pkt.View() == Filled(old(pkt.View()), data)
  {
    if |data| < HEADER_SIZE {
      return Some(PacketTooShort);
    }
    pkt.magic := data[0];
    if pkt.magic != MAGIC_BYTE {
      return Some(InvalidMagic);
    }
    pkt.version := data[1];
    if pkt.version != PROTOCOL_VERSION {
      return Some(InvalidVersion);
    }
    pkt.ptype := data[2];
    if !IsValidPacketType(pkt.ptype) {
      return Some(InvalidType);
    }
    ParseHeader(data, pkt);
    if pkt.payloadLen > MAX_PAYLOAD_SIZE {
      return Some(PayloadTooLarge);
    }
    var expected := HEADER_SIZE + pkt.payloadLen;
    if |data| < expected {
      return Some(PayloadLengthMismatch);
    }
    pkt.payload := data[HEADER_SIZE..expected];
    return None;
  }
}
