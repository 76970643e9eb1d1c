/** The datagrams of the P2P transport (pkg/baichuan/udp.go): their byte layout and their parser. */
module UdpPacket {
  import opened Bytes
  import UdpChecksum

  const MAGIC_DISCOVERY: u32 := 0x2A87CF3A
  const MAGIC_ACK: u32 := 0x2A87CF20
  const MAGIC_DATA: u32 := 0x2A87CF10

  datatype Packet =
    | Discovery(tid: u32, payload: seq<byte>)
    | Ack(connectionID: i32, packetID: u32, payload: seq<byte>)
    | Data(connectionID: i32, packetID: u32, payload: seq<byte>)

  datatype ParseError = Short | ShortPayload | ChecksumMismatch | UnknownMagic

  datatype ParseResult = Parsed(packet: Packet) | Rejected(error: ParseError)

  /** The length field holds the payload length modulo 2^32. */
  function LengthField(payload: seq<byte>): u32 { |payload| % TWO32 }

  /** The 32-bit words in front of the payload. */
  function HeaderWords(p: Packet): (ws: seq<u32>)
    ensures |ws| == if p.Ack? then 7 else 5
  {
    match p
    case Discovery(tid, payload) => [MAGIC_DISCOVERY, LengthField(payload), 1, tid, UdpChecksum.Checksum(payload)]
    case Ack(connectionID, packetID, payload) =>
      [MAGIC_ACK, OfI32(connectionID), 0, 0, packetID, 0, LengthField(payload)]
    case Data(connectionID, packetID, payload) =>
      [MAGIC_DATA, OfI32(connectionID), 0, packetID, LengthField(payload)]
  }

  function Header(p: Packet): seq<byte> { Words(HeaderWords(p)) }

  function Encode(p: Packet): seq<byte> { Header(p) + p.payload }

  /** marshalUDPPacket: the buffer is allocated once and filled in place. */
  method MarshalUdpPacket(p: Packet) returns (buf: array<byte>)
    ensures fresh(buf) && buf[..] == Encode(p)
  {
    match p {
      case Discovery(tid, payload) => buf := MarshalDiscovery(tid, payload);
      case Ack(connectionID, packetID, payload) => buf := MarshalAck(connectionID, packetID, payload);
      case Data(connectionID, packetID, payload) => buf := MarshalData(connectionID, packetID, payload);
    }
  }

  method MarshalDiscovery(tid: u32, payload: seq<byte>) returns (buf: array<byte>)
    ensures fresh(buf) && buf[..] == Encode(Discovery(tid, payload))
  {
    hide Words, UdpChecksum.Checksum;
    var checksum := UdpChecksum.UdpCrc32(payload);
    buf := new byte[20 + |payload|](_ => 0);
    ghost var ws := HeaderWords(Discovery(tid, payload));
    PutWord(buf, 0, MAGIC_DISCOVERY, ws, 0);
    PutWord(buf, 4, LengthField(payload), ws, 1);
    PutWord(buf, 8, 1, ws, 2);
    PutWord(buf, 12, tid, ws, 3);
    PutWord(buf, 16, checksum, ws, 4);
    CopyInto(buf, 20, payload);
    assert ws[..5] == ws && buf[..] == buf[..20] + buf[20..];
  }

  method MarshalAck(connectionID: i32, packetID: u32, payload: seq<byte>) returns (buf: array<byte>)
    ensures fresh(buf) && buf[..] == Encode(Ack(connectionID, packetID, payload))
  {
    hide Words, UdpChecksum.Checksum;
    buf := new byte[28 + |payload|](_ => 0);
    ghost var ws := HeaderWords(Ack(connectionID, packetID, payload));
    PutWord(buf, 0, MAGIC_ACK, ws, 0);
    PutWord(buf, 4, OfI32(connectionID), ws, 1);
    PutWord(buf, 8, 0, ws, 2);
    PutWord(buf, 12, 0, ws, 3);
    PutWord(buf, 16, packetID, ws, 4);
    PutWord(buf, 20, 0, ws, 5);
    PutWord(buf, 24, LengthField(payload), ws, 6);
    CopyInto(buf, 28, payload);
    assert ws[..7] == ws && buf[..] == buf[..28] + buf[28..];
  }

  method MarshalData(connectionID: i32, packetID: u32, payload: seq<byte>) returns (buf: array<byte>)
    ensures fresh(buf) && buf[..] == Encode(Data(connectionID, packetID, payload))
  {
    hide Words, UdpChecksum.Checksum;
    buf := new byte[20 + |payload|](_ => 0);
    ghost var ws := HeaderWords(Data(connectionID, packetID, payload));
    PutWord(buf, 0, MAGIC_DATA, ws, 0);
    PutWord(buf, 4, OfI32(connectionID), ws, 1);
    PutWord(buf, 8, 0, ws, 2);
    PutWord(buf, 12, packetID, ws, 3);
    PutWord(buf, 16, LengthField(payload), ws, 4);
    CopyInto(buf, 20, payload);
    assert ws[..5] == ws && buf[..] == buf[..20] + buf[20..];
  }

  /** parseUDPPacket. */
  function Parse(buf: seq<byte>): ParseResult
  {
    if |buf| < 4 then Rejected(Short)
    else
      var magic := GetU32(buf, 0);
      if magic == MAGIC_DISCOVERY then ParseDiscovery(buf)
      else if magic == MAGIC_ACK then ParseAck(buf)
      else if magic == MAGIC_DATA then ParseData(buf)
      else Rejected(UnknownMagic)
  }

  function ParseDiscovery(buf: seq<byte>): ParseResult
  {
    if |buf| < 20 then Rejected(Short)
    else
      var n := GetU32(buf, 4);
      if |buf| < 20 + n then Rejected(ShortPayload)
      else if UdpChecksum.Checksum(buf[20..20 + n]) != GetU32(buf, 16) then Rejected(ChecksumMismatch)
      else Parsed(Discovery(GetU32(buf, 12), buf[20..20 + n]))
  }

  function ParseAck(buf: seq<byte>): ParseResult
  {
    if |buf| < 28 then Rejected(Short)
    else
      var n := GetU32(buf, 24);
      if |buf| < 28 + n then Rejected(ShortPayload)
      else Parsed(Ack(ToI32(GetU32(buf, 4)), GetU32(buf, 16), buf[28..28 + n]))
  }

  function ParseData(buf: seq<byte>): ParseResult
  {
    if |buf| < 20 then Rejected(Short)
    else
      var n := GetU32(buf, 16);
      if |buf| < 20 + n then Rejected(ShortPayload)
      else Parsed(Data(ToI32(GetU32(buf, 4)), GetU32(buf, 12), buf[20..20 + n]))
  }

  function WithPayload(p: Packet, payload: seq<byte>): Packet
  {
    match p
    case Discovery(tid, _) => Discovery(tid, payload)
    case Ack(connectionID, packetID, _) => Ack(connectionID, packetID, payload)
    case Data(connectionID, packetID, _) => Data(connectionID, packetID, payload)
  }

  /** What the parser makes of a header followed by any body. */
  function Reading(p: Packet, body: seq<byte>): ParseResult
  {
    var n := |p.payload|;
    if |body| < n then Rejected(ShortPayload)
    else if p.Discovery? && UdpChecksum.Checksum(body[..n]) != UdpChecksum.Checksum(p.payload) then
      Rejected(ChecksumMismatch)
    else Parsed(WithPayload(p, body[..n]))
  }

  lemma DiscoveryAfterHeader(p: Packet, body: seq<byte>)
    requires p.Discovery? && |p.payload| < TWO32
    ensures ParseDiscovery(Header(p) + body) == Reading(p, body)
  {
    hide UdpChecksum.Checksum, GetU32, Words, OfI32, ToI32;
    WordAt(HeaderWords(p), body, 1);
    WordAt(HeaderWords(p), body, 3);
    WordAt(HeaderWords(p), body, 4);
    if |body| >= |p.payload| {
      BodyAfterHeader(p, body);
    }
  }

  lemma AckFields(p: Packet, body: seq<byte>)
    requires p.Ack? && |p.payload| < TWO32
    ensures var b := Header(p) + body;
      && |Header(p)| == 28 && GetU32(b, 4) == OfI32(p.connectionID) && GetU32(b, 16) == p.packetID
      && GetU32(b, 24) == |p.payload|
  {
    hide GetU32, Words, OfI32;
    WordAt(HeaderWords(p), body, 1);
    WordAt(HeaderWords(p), body, 4);
    WordAt(HeaderWords(p), body, 6);
  }

  lemma AckAfterHeader(p: Packet, body: seq<byte>)
    requires p.Ack? && |p.payload| < TWO32
    ensures ParseAck(Header(p) + body) == Reading(p, body)
  {
    hide GetU32, OfI32, ToI32, Header;
    AckFields(p, body);
    if |body| >= |p.payload| {
      BodyBehind(Header(p), body, |p.payload|);
    }
  }

  lemma DataFields(p: Packet, body: seq<byte>)
    requires p.Data? && |p.payload| < TWO32
    ensures var b := Header(p) + body;
      && |Header(p)| == 20 && GetU32(b, 4) == OfI32(p.connectionID) && GetU32(b, 12) == p.packetID
      && GetU32(b, 16) == |p.payload|
  {
    hide GetU32, Words, OfI32;
    WordAt(HeaderWords(p), body, 1);
    WordAt(HeaderWords(p), body, 3);
    WordAt(HeaderWords(p), body, 4);
  }

  lemma DataAfterHeader(p: Packet, body: seq<byte>)
    requires p.Data? && |p.payload| < TWO32
    ensures ParseData(Header(p) + body) == Reading(p, body)
  {
    hide GetU32, OfI32, ToI32, Header;
    DataFields(p, body);
    if |body| >= |p.payload| {
      BodyBehind(Header(p), body, |p.payload|);
    }
  }

  lemma BodyBehind(header: seq<byte>, body: seq<byte>, n: nat)
    requires n <= |body|
    ensures (header + body)[|header|..|header| + n] == body[..n]
  {
  }

  lemma BodyAfterHeader(p: Packet, body: seq<byte>)
    requires |p.payload| <= |body|
    ensures var h := 4 * |HeaderWords(p)|; (Header(p) + body)[h..h + |p.payload|] == body[..|p.payload|]
  {
  }

  lemma ParseAfterHeader(p: Packet, body: seq<byte>)
    requires |p.payload| < TWO32
    ensures Parse(Header(p) + body) == Reading(p, body)
  {
    WordAt(HeaderWords(p), body, 0);
    match p
    case Discovery(_, _) => DiscoveryAfterHeader(p, body);
    case Ack(_, _, _) => AckAfterHeader(p, body);
    case Data(_, _, _) => DataAfterHeader(p, body);
  }

  /** Every packet is read back as itself; bytes after the announced payload do not matter. */
  lemma RoundTrip(p: Packet, trailing: seq<byte>)
    requires |p.payload| < TWO32
    ensures Parse(Encode(p) + trailing) == Parsed(p)
  {
    hide Parse;
    hide UdpChecksum.Checksum;
    assert Encode(p) + trailing == Header(p) + (p.payload + trailing);
    ParseAfterHeader(p, p.payload + trailing);
    assert (p.payload + trailing)[..|p.payload|] == p.payload;
  }

  lemma RoundTripExact(p: Packet)
    requires |p.payload| < TWO32
    ensures Parse(Encode(p)) == Parsed(p)
  {
    RoundTrip(p, []);
    assert Encode(p) + [] == Encode(p);
  }

  /** A datagram cut anywhere before its end, as a too small receive buffer does, is rejected. */
  lemma TruncatedIsRejected(p: Packet, n: nat)
    requires |p.payload| < TWO32 && n < |Encode(p)|
    ensures Parse(Encode(p)[..n]).Rejected?
  {
    var cut, h := Encode(p)[..n], |Header(p)|;
    if n >= h {
      assert cut == Header(p) + p.payload[..n - h];
      ParseAfterHeader(p, p.payload[..n - h]);
    } else if n >= 4 {
      WordAt(HeaderWords(p), p.payload, 0);
      assert GetU32(cut, 0) == GetU32(Encode(p), 0);
    }
  }

  /** A discovery datagram whose payload was changed inside a window of at most four bytes is rejected. */
  lemma CorruptedDiscoveryIsRejected(tid: u32, before: seq<byte>, v: seq<byte>, w: seq<byte>, after: seq<byte>)
    requires |v| == |w| <= 4 && v != w && |before + v + after| < TWO32
    ensures var sent := Discovery(tid, before + v + after);
            Parse(Header(sent) + before + w + after) == Rejected(ChecksumMismatch)
  {
    hide Parse;
    hide UdpChecksum.Checksum;
    var sent := Discovery(tid, before + v + after);
    var damaged := before + w + after;
    assert Header(sent) + before + w + after == Header(sent) + damaged;
    ParseAfterHeader(sent, damaged);
    UdpChecksum.DetectsWindow(before, v, w, after);
    assert damaged[..|damaged|] == damaged;
  }

  // ---- the layout, offset by offset

  /** Where everything of a packet is in its datagram. The words not mentioned are ignored by the parser. */
  predicate LaidOut(buf: seq<byte>, p: Packet)
  {
    var n := |p.payload|;
    match p
    case Discovery(tid, payload) =>
      && |buf| >= 20 + n && n < TWO32
      && buf[0..4] == [0x3A, 0xCF, 0x87, 0x2A] && buf[4..8] == Le32(n) && buf[12..16] == Le32(tid)
      && buf[16..20] == Le32(UdpChecksum.Checksum(payload)) && buf[20..20 + n] == payload
    case Ack(connectionID, packetID, payload) =>
      && |buf| >= 28 + n && n < TWO32
      && buf[0..4] == [0x20, 0xCF, 0x87, 0x2A] && buf[4..8] == Le32(OfI32(connectionID))
      && buf[16..20] == Le32(packetID) && buf[24..28] == Le32(n) && buf[28..28 + n] == payload
    case Data(connectionID, packetID, payload) =>
      && |buf| >= 20 + n && n < TWO32
      && buf[0..4] == [0x10, 0xCF, 0x87, 0x2A] && buf[4..8] == Le32(OfI32(connectionID))
      && buf[12..16] == Le32(packetID) && buf[16..20] == Le32(n) && buf[20..20 + n] == payload
  }

  lemma WordIs(buf: seq<byte>, i: nat, v: u32)
    requires i + 4 <= |buf|
    ensures GetU32(buf, i) == v <==> buf[i..i + 4] == Le32(v)
  {
    hide Le32, GetU32;
    if buf[i..i + 4] == Le32(v) {
      ReadBackU32(buf, i, v);
    }
    Le32OfWord(buf, i);
  }

  lemma MagicBytes()
    ensures Le32(MAGIC_DISCOVERY) == [0x3A, 0xCF, 0x87, 0x2A]
    ensures Le32(MAGIC_ACK) == [0x20, 0xCF, 0x87, 0x2A] && Le32(MAGIC_DATA) == [0x10, 0xCF, 0x87, 0x2A]
  {
  }

  lemma SameID(v: u32, id: i32)
    ensures ToI32(v) == id <==> v == OfI32(id)
  {
  }

  lemma DiscoveryIsLaidOut(buf: seq<byte>, p: Packet)
    requires p.Discovery? && |buf| >= 20
    ensures ParseDiscovery(buf) == Parsed(p) && GetU32(buf, 0) == MAGIC_DISCOVERY <==> LaidOut(buf, p)
  {
    hide Le32, GetU32, UdpChecksum.Checksum;
    MagicBytes();
    WordIs(buf, 0, MAGIC_DISCOVERY);
    WordIs(buf, 12, p.tid);
    WordIs(buf, 16, UdpChecksum.Checksum(p.payload));
    if |p.payload| < TWO32 {
      WordIs(buf, 4, |p.payload|);
    }
  }

  lemma AckIsLaidOut(buf: seq<byte>, p: Packet)
    requires p.Ack? && |buf| >= 28
    ensures ParseAck(buf) == Parsed(p) && GetU32(buf, 0) == MAGIC_ACK <==> LaidOut(buf, p)
  {
    hide Le32, GetU32, ToI32, OfI32;
    MagicBytes();
    WordIs(buf, 0, MAGIC_ACK);
    WordIs(buf, 4, OfI32(p.connectionID));
    SameID(GetU32(buf, 4), p.connectionID);
    WordIs(buf, 16, p.packetID);
    if |p.payload| < TWO32 {
      WordIs(buf, 24, |p.payload|);
    }
  }

  lemma DataIsLaidOut(buf: seq<byte>, p: Packet)
    requires p.Data? && |buf| >= 20
    ensures ParseData(buf) == Parsed(p) && GetU32(buf, 0) == MAGIC_DATA <==> LaidOut(buf, p)
  {
    hide Le32, GetU32, ToI32, OfI32;
    MagicBytes();
    WordIs(buf, 0, MAGIC_DATA);
    WordIs(buf, 4, OfI32(p.connectionID));
    SameID(GetU32(buf, 4), p.connectionID);
    WordIs(buf, 12, p.packetID);
    if |p.payload| < TWO32 {
      WordIs(buf, 16, |p.payload|);
    }
  }

  /** The parser takes a datagram for a packet exactly if the packet is laid out in it; trailing bytes are ignored. */
  lemma ParsesExactly(buf: seq<byte>, p: Packet)
    ensures Parse(buf) == Parsed(p) <==> LaidOut(buf, p)
  {
    hide GetU32, Le32, ToI32, OfI32, UdpChecksum.Checksum;
    if |buf| >= 20 {
      match p
      case Discovery(_, _) => DiscoveryIsLaidOut(buf, p);
      case Ack(_, _, _) => if |buf| >= 28 { AckIsLaidOut(buf, p); }
      case Data(_, _, _) => DataIsLaidOut(buf, p);
    }
  }

  /** And every packet that fits its length field is laid out in its own datagram, with nothing behind it. */
  lemma EncodedIsLaidOut(p: Packet)
    requires |p.payload| < TWO32
    ensures LaidOut(Encode(p), p) && |Encode(p)| == (if p.Ack? then 28 else 20) + |p.payload|
    ensures p.Discovery? ==> Encode(p)[8..12] == [1, 0, 0, 0]
    ensures p.Data? ==> Encode(p)[8..12] == [0, 0, 0, 0]
    ensures p.Ack? ==> Encode(p)[8..16] == [0, 0, 0, 0, 0, 0, 0, 0] && Encode(p)[20..24] == [0, 0, 0, 0]
  {
    hide Parse, LaidOut;
    RoundTripExact(p);
    ParsesExactly(Encode(p), p);
    UnusedWords(p);
  }

  lemma UnusedWords(p: Packet)
    ensures p.Discovery? ==> Encode(p)[8..12] == [1, 0, 0, 0]
    ensures p.Data? ==> Encode(p)[8..12] == [0, 0, 0, 0]
    ensures p.Ack? ==> Encode(p)[8..16] == [0, 0, 0, 0, 0, 0, 0, 0] && Encode(p)[20..24] == [0, 0, 0, 0]
  {
    hide GetU32, Le32, OfI32, UdpChecksum.Checksum, HeaderWords;
    SmallWords();
    var e := Encode(p);
    UnusedWordsAre(p);
    WordAt(HeaderWords(p), p.payload, 2);
    WordIs(e, 8, HeaderWords(p)[2]);
    if p.Ack? {
      WordAt(HeaderWords(p), p.payload, 3);
      WordAt(HeaderWords(p), p.payload, 5);
      WordIs(e, 12, 0);
      WordIs(e, 20, 0);
      assert e[8..16] == e[8..12] + e[12..16];
    }
  }

  lemma UnusedWordsAre(p: Packet)
    ensures var ws := HeaderWords(p);
      ws[2] == (if p.Discovery? then 1 else 0) && (p.Ack? ==> ws[3] == 0 && ws[5] == 0)
  {
    hide UdpChecksum.Checksum;
  }

  lemma SmallWords()
    ensures Le32(0) == [0, 0, 0, 0] && Le32(1) == [1, 0, 0, 0]
  {
  }
}
