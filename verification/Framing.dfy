/**
 Message framing on the control connection (pkg/baichuan/message.go): requests are built in place, replies
 are read off a byte stream. Times are in nanoseconds; the reader of the XML documents stays open.
 */
module Framing {
  import opened Bytes
  import opened Cipher

  const MAGIC: u32 := 0x0ABCDEF0
  const LEGACY: u16 := 0x6514
  const MODERN_WITH_OFFSET: u16 := 0x6414
  const MODERN_ALT: u16 := 0x0000
  const LOGIN: u32 := 1
  const MAX_BODY := 50 * 1024 * 1024
  const BINARY_TTL := 300_000_000_000

  predicate HasPayloadOffset(cls: u16) { cls == MODERN_WITH_OFFSET || cls == MODERN_ALT }

  datatype Request = Request(
    msgID: u32, channelID: byte, streamType: byte, cls: u16, msgNum: u16, responseCode: u16,
    extension: seq<byte>, body: seq<byte>, binary: bool, forceBC: bool)

  datatype Header = Header(
    msgID: u32, bodyLen: u32, channelID: byte, streamType: byte, msgNum: u16, responseCode: u16, cls: u16,
    payloadOffset: u32)

  /** The fields of a parsed extension that readMessage looks at. */
  datatype Meta = Meta(binaryData: Option<int>, encryptLen: Option<int>)

  /** The XML library: an extension block, the encryptLen of a document, and blanks trimmed off a text. */
  datatype Xml = Xml(
    extension: seq<byte> -> Option<Meta>, encryptLen: seq<byte> -> Option<int>, trim: seq<byte> -> seq<byte>)

  datatype Message = Message(
    header: Header, extension: seq<byte>, payload: seq<byte>, xml: seq<byte>, binary: bool, meta: Option<Meta>)

  datatype ReadError = ShortRead | BadMagic | BodyTooLarge | BadOffset

  datatype Read = Got(message: Message) | Failed(error: ReadError)

  // ---- message numbers whose payload is binary

  type Marks = map<u16, int>

  function Fresh(marks: Marks, now: int): Marks
  {
    map n | n in marks && now - marks[n] <= BINARY_TTL :: marks[n]
  }

  /** markBinaryMsgNum: the number is marked now, and stale marks go. */
  function Mark(marks: Marks, msgNum: u16, now: int): Marks
  {
    Fresh(marks[msgNum := now], now)
  }

  /** Afterwards exactly the numbers used within five minutes are left, this one with the time of its use. */
  lemma MarkLeavesLiveOnes(marks: Marks, msgNum: u16, now: int, n: u16)
    ensures var after := Mark(marks, msgNum, now);
      && (n in after <==> n == msgNum || (n in marks && now - marks[n] <= 300_000_000_000))
      && (n in after ==> after[n] == if n == msgNum then now else marks[n])
  {
  }

  predicate Marked(marks: Marks, msgNum: u16, now: int) { msgNum in marks && now - marks[msgNum] <= BINARY_TTL }

  /** isBinaryMsgNum: a use keeps a mark alive, a stale mark goes. */
  function Touch(marks: Marks, msgNum: u16, now: int): Marks
  {
    if msgNum !in marks then marks
    else if now - marks[msgNum] > BINARY_TTL then marks - {msgNum}
    else marks[msgNum := now]
  }

  /** A message with this number arrived: its extension flags it as binary, or it does not say. */
  datatype Use = Use(msgNum: u16, flagged: bool, now: int)

  function MarksAfter(uses: seq<Use>): Marks
  {
    if uses == [] then map[]
    else
      var marks, u := MarksAfter(uses[..|uses| - 1]), uses[|uses| - 1];
      if u.flagged then Mark(marks, u.msgNum, u.now) else Touch(marks, u.msgNum, u.now)
  }

  predicate InOrder(uses: seq<Use>, now: int)
  {
    uses == [] || (uses[|uses| - 1].now <= now && InOrder(uses[..|uses| - 1], uses[|uses| - 1].now))
  }

  /** The number was flagged once and has been used ever since without a pause above five minutes. */
  predicate Alive(uses: seq<Use>, n: u16, now: int)
  {
    uses != [] &&
    var front, u := uses[..|uses| - 1], uses[|uses| - 1];
    if u.msgNum == n then now - u.now <= 300_000_000_000 && (u.flagged || Alive(front, n, u.now))
    else Alive(front, n, now)
  }

  /** The marks know exactly the numbers of media streams in use, whatever other messages arrive meanwhile. */
  lemma {:induction false} MarkedMeansAlive(uses: seq<Use>, n: u16, now: int)
    requires InOrder(uses, now)
    ensures Marked(MarksAfter(uses), n, now) <==> Alive(uses, n, now)
  {
    if uses != [] {
      var front, u := uses[..|uses| - 1], uses[|uses| - 1];
      MarkedMeansAlive(front, n, u.now);
      assert InOrder(front, now);
      MarkedMeansAlive(front, n, now);
    }
  }

  // ---- writing

  /** The cipher a request is sent with: none for the legacy class, the BC cipher where it is forced. */
  function SessionFor(r: Request, s: Session): Session
  {
    if r.cls == LEGACY then s.(mode := Plain) else if r.forceBC then s.(mode := BcMode) else s
  }

  function EncryptedExtension(r: Request, s: Session): (e: seq<byte>)
    ensures |e| == |r.extension|
  {
    EncryptXml(r.channelID, r.extension, SessionFor(r, s))
  }

  function EncryptedBody(r: Request, s: Session): (b: seq<byte>)
    ensures |b| == |r.body|
  {
    if r.binary then r.body else EncryptXml(r.channelID, r.body, SessionFor(r, s))
  }

  /** A header-only legacy login asks for the nonce and carries a marker. */
  function ResponseCode(r: Request): u16
  {
    if r.cls == LEGACY && r.msgID == LOGIN && r.body == [] then 0xDC12 else r.responseCode
  }

  function FixedHeader(h: Header): (b: seq<byte>)
    ensures |b| == 20
  {
    Le32(MAGIC) + Le32(h.msgID) + Le32(h.bodyLen) + [h.channelID, h.streamType] +
    Le16(h.msgNum) + Le16(h.responseCode) + Le16(h.cls)
  }

  function HeaderBytes(h: Header): (b: seq<byte>)
    ensures |b| == if HasPayloadOffset(h.cls) then 24 else 20
  {
    FixedHeader(h) + if HasPayloadOffset(h.cls) then Le32(h.payloadOffset) else []
  }

  function RequestHeader(r: Request): Header
  {
    Header(r.msgID, (|r.extension| + |r.body|) % TWO32, r.channelID, r.streamType, r.msgNum, ResponseCode(r), r.cls,
      if HasPayloadOffset(r.cls) then |r.extension| % TWO32 else 0)
  }

  function Encoded(r: Request, s: Session): seq<byte>
  {
    HeaderBytes(RequestHeader(r)) + EncryptedExtension(r, s) + EncryptedBody(r, s)
  }

  // ---- reading

  function ParseHeader(b: seq<byte>, payloadOffset: u32): Header
    requires |b| >= 20
  {
    Header(GetU32(b, 4), GetU32(b, 8), b[12], b[13], GetU16(b, 14), GetU16(b, 16), GetU16(b, 18), payloadOffset)
  }

  /** What a connection knows: the negotiated cipher, and the message numbers marked as binary. */
  datatype Peer = Peer(session: Session, negotiated: bool, marks: Marks)

  /** setNegotiatedEncryption: the low byte of the response code selects the mode. */
  function Negotiate(p: Peer, code: u16): Peer
  {
    match code % 0x100
    case 0x00 => p.(session := p.session.(mode := Plain), negotiated := true)
    case 0x01 => p.(session := p.session.(mode := BcMode), negotiated := true)
    case 0x02 => p.(session := p.session.(mode := AesMode), negotiated := true)
    case 0x03 => p.(session := p.session.(mode := AesMode), negotiated := true)
    case 0x12 => p.(session := p.session.(mode := AesMode), negotiated := true)
    case _ => p
  }

  predicate IsNegotiation(h: Header) { h.msgID == LOGIN && h.cls != LEGACY && h.responseCode / 0x100 == 0xDD }

  function Extension(h: Header, data: seq<byte>, p: Peer): seq<byte>
  {
    if data == [] then [] else DecryptAuto(h.channelID, data, p.session)
  }

  function ParseExtension(xml: Xml, extension: seq<byte>): Option<Meta>
  {
    if extension == [] then None else xml.extension(extension)
  }

  predicate FlagsBinary(meta: Option<Meta>) { meta.Some? && meta.value.binaryData == Some(1) }

  /** How much of a binary payload is encrypted; a prefix that is not there, or that no key fits, is left alone. */
  function EncryptedPrefix(xml: Xml, meta: Option<Meta>, extensionText: seq<byte>, data: seq<byte>,
                           s: Session): (n: nat)
    ensures n <= |data| && (n > 0 ==> s.key.Some?)
  {
    var n :=
      if meta.Some? && meta.value.encryptLen.Some? then meta.value.encryptLen.value
      else if extensionText == [] then 0
      else match xml.encryptLen(extensionText) case Some(v) => v case None => 0;
    if n > 0 && s.key.Some? && n <= |data| then n else 0
  }

  function BinaryPayload(data: seq<byte>, n: nat, s: Session): seq<byte>
    requires n <= |data| && (n > 0 ==> s.key.Some?)
  {
    if n > 0 then CfbDecrypt(s.key.value, IV, data[..n]) + data[n..] else data
  }

  /** The message made of a header and its body, and what the connection knows afterwards. */
  function Decoded(h: Header, extData: seq<byte>, data: seq<byte>, xml: Xml, p: Peer, now: int): (Message, Peer)
  {
    var extension := Extension(h, extData, p);
    var extensionText := if extData == [] then [] else xml.trim(extension);
    var meta := ParseExtension(xml, extension);
    var binary := FlagsBinary(meta) || Marked(p.marks, h.msgNum, now);
    var marks := if FlagsBinary(meta) then Mark(p.marks, h.msgNum, now) else Touch(p.marks, h.msgNum, now);
    var payload :=
      if data == [] then []
      else if binary then BinaryPayload(data, EncryptedPrefix(xml, meta, extensionText, data, p.session), p.session)
      else DecryptAuto(h.channelID, data, p.session);
    var text := if data == [] then [] else if binary then extensionText else xml.trim(payload);
    (Message(h, extension, payload, text, binary, meta), p.(marks := marks))
  }

  /** readMessage on the bytes to come: the result, the bytes left over, and what the connection knows then. */
  function ReadMessage(stream: seq<byte>, xml: Xml, p: Peer, now: int): (Read, seq<byte>, Peer)
  {
    if |stream| < 20 then (Failed(ShortRead), [], p)
    else if GetU32(stream, 0) != MAGIC then (Failed(BadMagic), stream[20..], p)
    else
      var cls := GetU16(stream, 18);
      if HasPayloadOffset(cls) && |stream| < 24 then (Failed(ShortRead), [], p)
      else
        var start := if HasPayloadOffset(cls) then 24 else 20;
        var h := ParseHeader(stream, if HasPayloadOffset(cls) then GetU32(stream, 20) else 0);
        ReadBody(h, stream[start..], xml, p, now)
  }

  function ReadBody(h: Header, stream: seq<byte>, xml: Xml, p: Peer, now: int): (Read, seq<byte>, Peer)
  {
    if h.bodyLen > MAX_BODY then (Failed(BodyTooLarge), stream, p)
    else if |stream| < h.bodyLen then (Failed(ShortRead), [], p)
    else
      var body, rest := stream[..h.bodyLen], stream[h.bodyLen..];
      var p1 := if IsNegotiation(h) then Negotiate(p, h.responseCode) else p;
      if h.payloadOffset > h.bodyLen then (Failed(BadOffset), rest, p1)
      else
        var (m, p2) := Decoded(h, body[..h.payloadOffset], body[h.payloadOffset..], xml, p1, now);
        (Got(m), rest, p2)
  }

  // ---- what was written is read back

  /** The header in front of anything is found again. */
  lemma HeaderReadsBack(h: Header, rest: seq<byte>)
    requires !HasPayloadOffset(h.cls) ==> h.payloadOffset == 0
    ensures var b := HeaderBytes(h) + rest;
      && |b| >= |HeaderBytes(h)| && GetU32(b, 0) == MAGIC && GetU16(b, 18) == h.cls
      && ParseHeader(b, if HasPayloadOffset(h.cls) then GetU32(b, 20) else 0) == h
      && b[|HeaderBytes(h)|..] == rest
  {
    hide Le16, Le32, GetU16, GetU32, FixedHeader;
    var fixed, b := FixedHeader(h), HeaderBytes(h) + rest;
    FixedReadsBack(h, b[20..]);
    assert b == fixed + b[20..];
    if HasPayloadOffset(h.cls) {
      assert b[20..20 + 4] == Le32(h.payloadOffset);
      ReadBackU32(b, 20, h.payloadOffset);
    }
  }

  lemma FixedReadsBack(h: Header, rest: seq<byte>)
    ensures var b := FixedHeader(h) + rest;
      && GetU32(b, 0) == MAGIC && ParseHeader(b, h.payloadOffset) == h
  {
    hide Le16, Le32, GetU16, GetU32;
    var b := FixedHeader(h) + rest;
    assert b[0..0 + 4] == Le32(MAGIC);
    assert b[4..4 + 4] == Le32(h.msgID);
    assert b[8..8 + 4] == Le32(h.bodyLen);
    assert b[14..14 + 2] == Le16(h.msgNum);
    assert b[16..16 + 2] == Le16(h.responseCode);
    assert b[18..18 + 2] == Le16(h.cls);
    ReadBackU32(b, 0, MAGIC);
    ReadBackU32(b, 4, h.msgID);
    ReadBackU32(b, 8, h.bodyLen);
    ReadBackU16(b, 14, h.msgNum);
    ReadBackU16(b, 16, h.responseCode);
    ReadBackU16(b, 18, h.cls);
  }

  /** Where everything is in front of a message: 20 bytes, or 24 in the two classes with a payload offset. */
  lemma HeaderLayout(h: Header)
    ensures var b := HeaderBytes(h);
      && |b| == (if h.cls == 0x6414 || h.cls == 0x0000 then 24 else 20)
      && b[0..4] == [0xF0, 0xDE, 0xBC, 0x0A] && b[4..8] == Le32(h.msgID) && b[8..12] == Le32(h.bodyLen)
      && b[12] == h.channelID && b[13] == h.streamType && b[14..16] == Le16(h.msgNum)
      && b[16..18] == Le16(h.responseCode) && b[18..20] == Le16(h.cls)
      && (|b| == 24 ==> b[20..24] == Le32(h.payloadOffset))
  {
    hide Le16, Le32;
    MagicBytes();
  }

  lemma MagicBytes()
    ensures Le32(MAGIC) == [0xF0, 0xDE, 0xBC, 0x0A]
  {
  }

  /** What a request says in its header; the legacy login without a body asks for the nonce with code DC12. */
  lemma RequestFields(r: Request)
    ensures var h := RequestHeader(r);
      && h.msgID == r.msgID && h.channelID == r.channelID && h.streamType == r.streamType
      && h.msgNum == r.msgNum && h.cls == r.cls
      && h.bodyLen == (|r.extension| + |r.body|) % 0x1_0000_0000
      && h.payloadOffset == (if r.cls == 0x6414 || r.cls == 0x0000 then |r.extension| % 0x1_0000_0000 else 0)
      && h.responseCode == if r.cls == 0x6514 && r.msgID == 1 && r.body == [] then 0xDC12 else r.responseCode
  {
  }

  /** Which parts of a request are encrypted, and how. */
  lemma RequestParts(r: Request, s: Session)
    ensures EncryptedExtension(r, s) ==
      if r.cls == 0x6514 then r.extension
      else if r.forceBC then Bc(r.channelID, r.extension) else EncryptXml(r.channelID, r.extension, s)
    ensures EncryptedBody(r, s) ==
      if r.cls == 0x6514 || r.binary then r.body
      else if r.forceBC then Bc(r.channelID, r.body) else EncryptXml(r.channelID, r.body, s)
  {
    hide Bc, CfbEncrypt;
  }

  /** Frames that are not read, and what they use up of the stream. */
  lemma BadFramesFail(h: Header, body: seq<byte>, rest: seq<byte>, xml: Xml, p: Peer, now: int)
    requires !HasPayloadOffset(h.cls) ==> h.payloadOffset == 0
    ensures h.bodyLen > 52_428_800 ==>
      ReadMessage(HeaderBytes(h) + body + rest, xml, p, now) == (Failed(BodyTooLarge), body + rest, p)
    ensures h.bodyLen <= 52_428_800 && |body| + |rest| < h.bodyLen ==>
      ReadMessage(HeaderBytes(h) + body + rest, xml, p, now) == (Failed(ShortRead), [], p)
    ensures h.bodyLen <= 52_428_800 && |body| == h.bodyLen < h.payloadOffset ==>
      ReadMessage(HeaderBytes(h) + body + rest, xml, p, now) == (Failed(BadOffset), rest, PeerThen(h, p))
  {
    hide HeaderBytes, ReadMessage, Decoded, Negotiate, IsNegotiation, HasPayloadOffset;
    FrameReadsBack(h, body, rest, xml, p, now);
    if |body| == h.bodyLen {
      assert (body + rest)[h.bodyLen..] == rest;
    }
  }

  /** A stream that ends inside a header, or whose next four bytes are not the magic number. */
  lemma BadHeadersFail(stream: seq<byte>, xml: Xml, p: Peer, now: int)
    ensures |stream| < 20 ==> ReadMessage(stream, xml, p, now) == (Failed(ShortRead), [], p)
    ensures |stream| >= 20 && stream[..4] != [0xF0, 0xDE, 0xBC, 0x0A] ==>
      ReadMessage(stream, xml, p, now) == (Failed(BadMagic), stream[20..], p)
    ensures 20 <= |stream| < 24 && stream[..4] == [0xF0, 0xDE, 0xBC, 0x0A]
            && (stream[18..20] == [0x14, 0x64] || stream[18..20] == [0x00, 0x00]) ==>
      ReadMessage(stream, xml, p, now) == (Failed(ShortRead), [], p)
  {
    hide ReadBody, Le32, GetU32;
    if |stream| >= 20 {
      MagicBytes();
      Le32OfWord(stream, 0);
      if stream[0..0 + 4] == Le32(MAGIC) {
        ReadBackU32(stream, 0, MAGIC);
      }
      var c := stream[18..20];
      assert c[0] == stream[18] && c[1] == stream[19];
    }
  }

  lemma FrameReadsBack(h: Header, body: seq<byte>, rest: seq<byte>, xml: Xml, p: Peer, now: int)
    requires !HasPayloadOffset(h.cls) ==> h.payloadOffset == 0
    ensures ReadMessage(HeaderBytes(h) + body + rest, xml, p, now) == ReadBody(h, body + rest, xml, p, now)
  {
    hide ReadBody, HeaderBytes, GetU16, GetU32, ParseHeader;
    assert HeaderBytes(h) + body + rest == HeaderBytes(h) + (body + rest);
    HeaderReadsBack(h, body + rest);
  }

  function MetaOf(r: Request, xml: Xml): Option<Meta> { ParseExtension(xml, r.extension) }

  function ExtensionText(r: Request, xml: Xml): seq<byte> { if r.extension == [] then [] else xml.trim(r.extension) }

  /** What the request means to say; the reader's message should be exactly this. */
  function Meant(r: Request, xml: Xml): Message
  {
    var text :=
      if r.body == [] then [] else if r.binary then ExtensionText(r, xml) else xml.trim(r.body);
    Message(RequestHeader(r), r.extension, r.body, text, r.binary, MetaOf(r, xml))
  }

  /** What the reader knows when it decrypts the body: the message itself may have negotiated the cipher. */
  function PeerFor(r: Request, p: Peer): Peer { PeerThen(RequestHeader(r), p) }

  function PeerAfter(r: Request, xml: Xml, p: Peer, now: int): Peer
  {
    var p1 := PeerFor(r, p);
    p1.(marks := if FlagsBinary(MetaOf(r, xml)) then Mark(p.marks, r.msgNum, now) else Touch(p.marks, r.msgNum, now))
  }

  /**
   The parts in front of a binary payload announce that its first n bytes are encrypted: the extension block
   has the length, or it has none and the text does.
   */
  predicate Announces(xml: Xml, meta: Option<Meta>, text: seq<byte>, n: int)
  {
    if meta.Some? && meta.value.encryptLen.Some? then meta.value.encryptLen == Some(n)
    else text != [] && xml.encryptLen(text) == Some(n)
  }

  /** A binary body has no key to be decrypted with, or no such prefix, or one that decrypts to itself. */
  ghost predicate BinarySurvives(r: Request, xml: Xml, s: Session)
  {
    s.key.Some? ==>
      forall n :: Announces(xml, MetaOf(r, xml), ExtensionText(r, xml), n) && 0 < n <= |r.body| ==>
        CfbDecrypt(s.key.value, IV, r.body[..n]) == r.body[..n]
  }

  /** Exactly the announced prefix is decrypted, if there is a key and the payload is that long. */
  lemma PrefixIsAnnounced(xml: Xml, meta: Option<Meta>, text: seq<byte>, data: seq<byte>, s: Session)
    ensures var n := EncryptedPrefix(xml, meta, text, data, s);
      && (n > 0 ==> Announces(xml, meta, text, n))
      && forall m :: s.key.Some? && Announces(xml, meta, text, m) && 0 < m <= |data| ==> m == n
  {
  }

  lemma SurvivingPrefix(r: Request, xml: Xml, s: Session)
    ensures var n := EncryptedPrefix(xml, MetaOf(r, xml), ExtensionText(r, xml), r.body, s);
      BinarySurvives(r, xml, s) <==> (n > 0 ==> CfbDecrypt(s.key.value, IV, r.body[..n]) == r.body[..n])
  {
    hide EncryptedPrefix, Announces, CfbDecrypt;
    PrefixIsAnnounced(xml, MetaOf(r, xml), ExtensionText(r, xml), r.body, s);
  }

  /** A message of the camera: a header, an extension as it is on the wire, and a payload. */
  ghost predicate IsMedia(h: Header, extData: seq<byte>, data: seq<byte>)
  {
    && (HasPayloadOffset(h.cls) || extData == []) && h.payloadOffset == |extData|
    && h.bodyLen == |extData| + |data| && h.bodyLen <= MAX_BODY
  }

  /** What the reader knows when it decrypts the parts of a message. */
  function PeerThen(h: Header, p: Peer): Peer { if IsNegotiation(h) then Negotiate(p, h.responseCode) else p }

  function TextOf(xml: Xml, extension: seq<byte>): seq<byte>
  {
    if extension == [] then [] else xml.trim(extension)
  }

  /** A message as it is on the wire is taken apart at its boundaries. */
  lemma MediaIsRead(h: Header, extData: seq<byte>, data: seq<byte>, rest: seq<byte>, xml: Xml, p: Peer, now: int)
    requires IsMedia(h, extData, data)
    ensures var d := Decoded(h, extData, data, xml, PeerThen(h, p), now);
      ReadMessage(HeaderBytes(h) + (extData + data) + rest, xml, p, now) == (Got(d.0), rest, d.1)
  {
    hide HeaderBytes, Decoded, Negotiate, IsNegotiation, ReadMessage, HasPayloadOffset;
    FrameReadsBack(h, extData + data, rest, xml, p, now);
    assert (extData + data + rest)[..h.bodyLen] == extData + data && (extData + data + rest)[h.bodyLen..] == rest;
    assert (extData + data)[..|extData|] == extData && (extData + data)[|extData|..] == data;
  }

  /**
   Media with an encrypted prefix. A message that is flagged as binary and announces n encrypted bytes, whose
   first n bytes are encrypted and the others not, is read with its payload in plain.
   */
  lemma EncryptedMediaIsRead(h: Header, extData: seq<byte>, plain: seq<byte>, n: nat, rest: seq<byte>, xml: Xml,
                             p: Peer, now: int)
    requires p.session.key.Some? && 0 < n <= |plain|
    requires var data := CfbEncrypt(p.session.key.value, IV, plain[..n]) + plain[n..]; IsMedia(h, extData, data)
    requires var extension := Extension(h, extData, PeerThen(h, p));
      var meta := ParseExtension(xml, extension);
      && (FlagsBinary(meta) || Marked(p.marks, h.msgNum, now))
      && Announces(xml, meta, TextOf(xml, extension), n)
    ensures var data := CfbEncrypt(p.session.key.value, IV, plain[..n]) + plain[n..];
      var (m, left, _) := ReadMessage(HeaderBytes(h) + (extData + data) + rest, xml, p, now);
      && m.Got? && left == rest && m.message.binary && m.message.payload == plain
      && m.message.extension == Extension(h, extData, PeerThen(h, p))
      && m.message.xml == TextOf(xml, m.message.extension)
  {
    hide HeaderBytes, ReadMessage, CfbEncrypt, CfbDecrypt, EncryptedPrefix, Announces, IsMedia, Marked, FlagsBinary;
    hide Mark, Touch, DecryptAuto;
    var cut := CfbEncrypt(p.session.key.value, IV, plain[..n]);
    var data := cut + plain[n..];
    MediaIsRead(h, extData, data, rest, xml, p, now);
    ThenKeepsKey(h, p);
    var extension := Extension(h, extData, PeerThen(h, p));
    PrefixIsAnnounced(xml, ParseExtension(xml, extension), TextOf(xml, extension), data, PeerThen(h, p).session);
    CfbRoundTrip(p.session.key.value, IV, plain[..n]);
    assert data[..n] == cut && data[n..] == plain[n..] && plain[..n] + plain[n..] == plain;
  }

  /** Without a key, or with nothing announced that fits, a binary payload is read as it is. */
  lemma PlainMediaIsRead(h: Header, extData: seq<byte>, data: seq<byte>, rest: seq<byte>, xml: Xml, p: Peer, now: int)
    requires IsMedia(h, extData, data)
    requires var extension := Extension(h, extData, PeerThen(h, p));
      var meta := ParseExtension(xml, extension);
      && (FlagsBinary(meta) || Marked(p.marks, h.msgNum, now))
      && (p.session.key.None? || !exists n :: Announces(xml, meta, TextOf(xml, extension), n) && 0 < n <= |data|)
    ensures var (m, left, _) := ReadMessage(HeaderBytes(h) + (extData + data) + rest, xml, p, now);
      m.Got? && left == rest && m.message.binary && m.message.payload == data
  {
    hide HeaderBytes, ReadMessage, CfbDecrypt, EncryptedPrefix, Announces, IsMedia, Marked, FlagsBinary;
    hide Mark, Touch, DecryptAuto;
    MediaIsRead(h, extData, data, rest, xml, p, now);
    ThenKeepsKey(h, p);
    var extension := Extension(h, extData, PeerThen(h, p));
    PrefixIsAnnounced(xml, ParseExtension(xml, extension), TextOf(xml, extension), data, PeerThen(h, p).session);
  }

  /**
   The answer to a login, a message with ID 1 outside the legacy class whose code begins with DD, selects how
   requests are encrypted from then on: 00 not at all, 01 with the BC cipher, 02, 03 and 12 with AES as soon as
   there is a key. Any other code, and any other message, leaves the cipher as it was.
   */
  lemma LoginSelectsCipher(h: Header, extData: seq<byte>, data: seq<byte>, rest: seq<byte>, xml: Xml, p: Peer,
                           now: int, channel: byte, text: seq<byte>)
    requires IsMedia(h, extData, data)
    ensures var s := ReadMessage(HeaderBytes(h) + (extData + data) + rest, xml, p, now).2.session;
      var answer := h.msgID == 1 && h.cls != 0x6514 && h.responseCode / 0x100 == 0xDD;
      var code := h.responseCode % 0x100;
      && s.key == p.session.key
      && (answer && code == 0x00 ==> EncryptXml(channel, text, s) == text)
      && (answer && code == 0x01 ==> EncryptXml(channel, text, s) == Bc(channel, text))
      && (answer && code in {0x02, 0x03, 0x12} ==>
            EncryptXml(channel, text, s) ==
              if s.key.None? then Bc(channel, text) else CfbEncrypt(s.key.value, IV, text))
      && (!answer || code !in {0x00, 0x01, 0x02, 0x03, 0x12} ==> s == p.session)
  {
    hide HeaderBytes, ReadMessage, CfbEncrypt, Bc, IsMedia, DecryptAuto, EncryptedPrefix, BinaryPayload, Mark, Touch;
    hide Marked, FlagsBinary;
    MediaIsRead(h, extData, data, rest, xml, p, now);
  }

  lemma ThenKeepsKey(h: Header, p: Peer)
    ensures PeerThen(h, p).session.key == p.session.key && PeerThen(h, p).marks == p.marks
  {
  }

  /**
   What it takes for a request of a sender to be read as it was meant: it fits, the reader can tell its
   extension from its body, both sides agree whether the body is binary, and its parts survive the cipher.
   */
  ghost predicate Readable(r: Request, s: Session, xml: Xml, p: Peer, now: int)
  {
    var session := PeerFor(r, p).session;
    && |r.extension| + |r.body| <= 52_428_800 && (r.cls == 0x6414 || r.cls == 0 || r.extension == [])
    && Survives(r.channelID, r.extension, SessionFor(r, s), session)
    && r.binary == (FlagsBinary(MetaOf(r, xml)) || Marked(p.marks, r.msgNum, now))
    && if r.binary then BinarySurvives(r, xml, session) else Survives(r.channelID, r.body, SessionFor(r, s), session)
  }

  /** A modern request made of texts, sent under the session's own cipher; a binary body may be anything. */
  predicate MadeOfTexts(r: Request)
  {
    && r.cls != LEGACY && !r.forceBC && !IsNegotiation(RequestHeader(r))
    && |r.extension| + |r.body| <= MAX_BODY && (HasPayloadOffset(r.cls) || r.extension == [])
    && (r.extension == [] || IsXml(r.extension)) && (r.binary || r.body == [] || IsXml(r.body))
  }

  /**
   Between two sides in the same cipher state such a request is readable exactly if they agree whether its
   body is binary, and the prefix of a binary one survives.
   */
  lemma TextsAreReadable(r: Request, xml: Xml, p: Peer, now: int)
    requires MadeOfTexts(r)
    ensures Readable(r, p.session, xml, p, now) <==>
      && r.binary == (FlagsBinary(MetaOf(r, xml)) || Marked(p.marks, r.msgNum, now))
      && (r.binary ==> BinarySurvives(r, xml, p.session))
  {
    hide IsXml, Survives, BinarySurvives, Marked, FlagsBinary;
    EmptySurvives(r.channelID, p.session, p.session);
    if r.extension != [] {
      SameSessionSurvives(r.channelID, r.extension, p.session);
    }
    if !r.binary && r.body != [] {
      SameSessionSurvives(r.channelID, r.body, p.session);
    }
  }

  /** A part that goes through the cipher is read back exactly if it survives it. */
  lemma TextReadsBack(r: Request, text: seq<byte>, s: Session, p: Peer)
    requires s.key == p.session.key
    ensures DecryptAuto(r.channelID, EncryptXml(r.channelID, text, SessionFor(r, s)),
                        PeerFor(r, p).session) == text <==>
      Survives(r.channelID, text, SessionFor(r, s), PeerFor(r, p).session)
  {
    hide DecryptAuto, EncryptXml, Survives;
    AutoReadsExactly(r.channelID, text, SessionFor(r, s), PeerFor(r, p).session);
  }

  lemma EmptySurvives(offset: byte, sender: Session, reader: Session)
    ensures Survives(offset, [], sender, reader)
  {
  }

  lemma BinaryReadsBack(data: seq<byte>, n: nat, s: Session)
    requires n <= |data| && (n > 0 ==> s.key.Some?)
    ensures |BinaryPayload(data, n, s)| == |data|
    ensures BinaryPayload(data, n, s) == data <==>
      (n > 0 ==> CfbDecrypt(s.key.value, IV, data[..n]) == data[..n])
  {
    hide CfbDecrypt;
    if n > 0 {
      var p := CfbDecrypt(s.key.value, IV, data[..n]);
      assert data[..n] + data[n..] == data;
      assert (p + data[n..])[..n] == p;
    }
  }

  /** The parts of a message are as long as what they were decrypted from. */
  lemma DecodedLengths(h: Header, extData: seq<byte>, data: seq<byte>, xml: Xml, p: Peer, now: int)
    ensures var m := Decoded(h, extData, data, xml, p, now).0;
      |m.extension| == |extData| && |m.payload| == |data|
  {
    hide DecryptAuto, EncryptedPrefix, BinaryPayload, Mark, Touch, Marked, FlagsBinary;
    var m := Decoded(h, extData, data, xml, p, now).0;
    var text := if extData == [] then [] else xml.trim(m.extension);
    BinaryReadsBack(data, EncryptedPrefix(xml, m.meta, text, data, p.session), p.session);
  }

  /** With the boundaries found, the message is the one meant exactly if the parts survive. */
  lemma DecodedExactly(r: Request, s: Session, xml: Xml, p: Peer, now: int)
    requires s.key == p.session.key
    requires |r.extension| + |r.body| <= MAX_BODY && (HasPayloadOffset(r.cls) || r.extension == [])
    ensures var d :=
        Decoded(RequestHeader(r), EncryptedExtension(r, s), EncryptedBody(r, s), xml, PeerFor(r, p), now);
      && (d.0 == Meant(r, xml) <==> Readable(r, s, xml, p, now))
      && (d.0 == Meant(r, xml) ==> d.1 == PeerAfter(r, xml, p, now))
  {
    hide DecryptAuto, EncryptXml, Survives, Mark, Touch, EncryptedPrefix, SessionFor, BinaryPayload, Negotiate;
    hide BinarySurvives;
    TextReadsBack(r, r.extension, s, p);
    EmptySurvives(r.channelID, SessionFor(r, s), PeerFor(r, p).session);
    MarksUntouched(r, p);
    if r.binary {
      var n := EncryptedPrefix(xml, MetaOf(r, xml), ExtensionText(r, xml), r.body, PeerFor(r, p).session);
      BinaryReadsBack(r.body, n, PeerFor(r, p).session);
      SurvivingPrefix(r, xml, PeerFor(r, p).session);
    } else {
      TextReadsBack(r, r.body, s, p);
    }
  }

  lemma MarksUntouched(r: Request, p: Peer)
    ensures PeerFor(r, p).marks == p.marks && PeerFor(r, p).session.key == p.session.key
  {
  }

  /** One that does not fit is never read as it was meant, not even where its length wraps. */
  lemma TooLongIsNotRead(r: Request, s: Session, rest: seq<byte>, xml: Xml, p: Peer, now: int)
    requires |r.extension| + |r.body| > MAX_BODY
    ensures ReadBody(RequestHeader(r), rest, xml, p, now).0 != Got(Meant(r, xml))
  {
    hide Decoded, Negotiate, IsNegotiation;
    var h := RequestHeader(r);
    var m := ReadBody(h, rest, xml, p, now).0;
    if m.Got? {
      var p1 := if IsNegotiation(h) then Negotiate(p, h.responseCode) else p;
      var body := rest[..h.bodyLen];
      DecodedLengths(h, body[..h.payloadOffset], body[h.payloadOffset..], xml, p1, now);
      assert |m.message.extension| + |m.message.payload| == h.bodyLen;
    }
  }

  /** Without a payload offset in its class the reader takes an extension for part of the body. */
  lemma UnmarkedExtensionIsNotRead(r: Request, rest: seq<byte>, xml: Xml, p: Peer, now: int)
    requires !HasPayloadOffset(r.cls) && r.extension != []
    ensures ReadBody(RequestHeader(r), rest, xml, p, now).0 != Got(Meant(r, xml))
  {
    hide Decoded, Negotiate, IsNegotiation;
    var h := RequestHeader(r);
    var m := ReadBody(h, rest, xml, p, now).0;
    if m.Got? {
      var p1 := if IsNegotiation(h) then Negotiate(p, h.responseCode) else p;
      var body := rest[..h.bodyLen];
      DecodedLengths(h, body[..h.payloadOffset], body[h.payloadOffset..], xml, p1, now);
    }
  }

  lemma BodySplits(r: Request, s: Session, rest: seq<byte>, xml: Xml, p: Peer, now: int)
    requires |r.extension| + |r.body| <= MAX_BODY && (HasPayloadOffset(r.cls) || r.extension == [])
    ensures var ext, body := EncryptedExtension(r, s), EncryptedBody(r, s);
      var d := Decoded(RequestHeader(r), ext, body, xml, PeerFor(r, p), now);
      ReadBody(RequestHeader(r), ext + body + rest, xml, p, now) == (Got(d.0), rest, d.1)
  {
    hide EncryptedExtension, EncryptedBody, Decoded, Negotiate, IsNegotiation;
    var h, ext, body := RequestHeader(r), EncryptedExtension(r, s), EncryptedBody(r, s);
    assert (ext + body + rest)[..h.bodyLen] == ext + body && (ext + body + rest)[h.bodyLen..] == rest;
    assert (ext + body)[..|ext|] == ext && (ext + body)[|ext|..] == body;
  }

  /**
   A request of any class, whatever follows it and whatever modes the two sides are in, is read back as it
   was meant exactly if it is readable, and then exactly its own bytes are consumed.
   */
  lemma RequestReadsBack(r: Request, s: Session, rest: seq<byte>, xml: Xml, p: Peer, now: int)
    requires s.key == p.session.key
    ensures var (m, left, p') := ReadMessage(Encoded(r, s) + rest, xml, p, now);
      && (m == Got(Meant(r, xml)) <==> Readable(r, s, xml, p, now))
      && (m == Got(Meant(r, xml)) ==> left == rest && p' == PeerAfter(r, xml, p, now))
  {
    hide ReadMessage, ReadBody, HeaderBytes, EncryptedExtension, EncryptedBody, Decoded, Meant, PeerAfter, Survives;
    hide BinarySurvives, Negotiate, IsNegotiation;
    var h, ext, body := RequestHeader(r), EncryptedExtension(r, s), EncryptedBody(r, s);
    assert Encoded(r, s) + rest == HeaderBytes(h) + (ext + body) + rest;
    FrameReadsBack(h, ext + body, rest, xml, p, now);
    if |r.extension| + |r.body| > MAX_BODY {
      TooLongIsNotRead(r, s, ext + body + rest, xml, p, now);
    } else if !HasPayloadOffset(r.cls) && r.extension != [] {
      UnmarkedExtensionIsNotRead(r, ext + body + rest, xml, p, now);
    } else {
      BodySplits(r, s, rest, xml, p, now);
      DecodedExactly(r, s, xml, p, now);
    }
  }

  /** A request, the sender's cipher state when it is sent, and the time its bytes are read at. */
  datatype Call = Call(request: Request, session: Session, now: int)

  ghost function Wire(calls: seq<Call>): seq<byte>
  {
    if calls == [] then [] else Encoded(calls[0].request, calls[0].session) + Wire(calls[1..])
  }

  ghost predicate AllReadable(calls: seq<Call>, xml: Xml, p: Peer)
    decreases |calls|
  {
    calls == [] ||
    (Readable(calls[0].request, calls[0].session, xml, p, calls[0].now) &&
     AllReadable(calls[1..], xml, PeerAfter(calls[0].request, xml, p, calls[0].now)))
  }

  ghost function AllMeant(calls: seq<Call>, xml: Xml): (ms: seq<Read>)
    ensures |ms| == |calls|
  {
    if calls == [] then [] else [Got(Meant(calls[0].request, xml))] + AllMeant(calls[1..], xml)
  }

  /** As many readMessage calls as there are times, and the bytes left over. */
  function ReadMany(stream: seq<byte>, xml: Xml, p: Peer, nows: seq<int>): (seq<Read>, seq<byte>)
    decreases |nows|
  {
    if nows == [] then ([], stream)
    else
      var (m, rest, p1) := ReadMessage(stream, xml, p, nows[0]);
      var (ms, left) := ReadMany(rest, xml, p1, nows[1..]);
      ([m] + ms, left)
  }

  ghost function Times(calls: seq<Call>): seq<int>
  {
    if calls == [] then [] else [calls[0].now] + Times(calls[1..])
  }

  /** The two sides have the same AES key, or none; their modes may differ. */
  ghost predicate OneKey(calls: seq<Call>, p: Peer)
  {
    forall call :: call in calls ==> call.session.key == p.session.key
  }

  /**
   Any number of requests on one connection are read back one by one, each at its own boundary, exactly if
   each is readable in its turn.
   */
  lemma {:induction false} StreamReadsBack(calls: seq<Call>, tail: seq<byte>, xml: Xml, p: Peer)
    requires OneKey(calls, p)
    ensures var (ms, left) := ReadMany(Wire(calls) + tail, xml, p, Times(calls));
      && (ms == AllMeant(calls, xml) <==> AllReadable(calls, xml, p))
      && (ms == AllMeant(calls, xml) ==> left == tail)
    decreases |calls|
  {
    hide ReadMessage, Readable, Encoded, Meant, Mark, Touch, Negotiate;
    if calls == [] {
      assert Wire(calls) + tail == tail;
    } else {
      var call := calls[0];
      var rest := Wire(calls[1..]) + tail;
      assert Wire(calls) + tail == Encoded(call.request, call.session) + rest;
      RequestReadsBack(call.request, call.session, rest, xml, p, call.now);
      assert Times(calls)[1..] == Times(calls[1..]);
      if Readable(call.request, call.session, xml, p, call.now) {
        var p' := PeerAfter(call.request, xml, p, call.now);
        MarksUntouched(call.request, p);
        StreamReadsBack(calls[1..], tail, xml, p');
        OneMoreRead(calls, tail, xml, p);
      } else {
        assert ReadMany(Wire(calls) + tail, xml, p, Times(calls)).0[0] != AllMeant(calls, xml)[0];
      }
    }
  }

  lemma OneMoreRead(calls: seq<Call>, tail: seq<byte>, xml: Xml, p: Peer)
    requires calls != [] && Times(calls)[1..] == Times(calls[1..])
    requires Wire(calls) + tail == Encoded(calls[0].request, calls[0].session) + (Wire(calls[1..]) + tail)
    requires var call := calls[0];
      ReadMessage(Encoded(call.request, call.session) + (Wire(calls[1..]) + tail), xml, p, call.now) ==
        (Got(Meant(call.request, xml)), Wire(calls[1..]) + tail, PeerAfter(call.request, xml, p, call.now))
    ensures var p' := PeerAfter(calls[0].request, xml, p, calls[0].now);
      var whole := ReadMany(Wire(calls) + tail, xml, p, Times(calls));
      var later := ReadMany(Wire(calls[1..]) + tail, xml, p', Times(calls[1..]));
      && whole.1 == later.1
      && (whole.0 == AllMeant(calls, xml) <==> later.0 == AllMeant(calls[1..], xml))
  {
    hide ReadMessage, Encoded, Meant, PeerAfter, Wire;
    var p' := PeerAfter(calls[0].request, xml, p, calls[0].now);
    var whole := ReadMany(Wire(calls) + tail, xml, p, Times(calls));
    var later := ReadMany(Wire(calls[1..]) + tail, xml, p', Times(calls[1..]));
    assert whole.0 == [Got(Meant(calls[0].request, xml))] + later.0;
    assert whole.0[1..] == later.0 && AllMeant(calls, xml)[1..] == AllMeant(calls[1..], xml);
  }

  // ---- a stream of texts and media

  /** What the marks see of a request. */
  function UseOf(call: Call, xml: Xml): Use
  {
    Use(call.request.msgNum, FlagsBinary(MetaOf(call.request, xml)), call.now)
  }

  /** The requests are made of texts, all sent in the cipher state of the reader, and read one after the other. */
  ghost predicate TextCalls(calls: seq<Call>, s: Session, from: int)
    decreases |calls|
  {
    calls == [] ||
    (MadeOfTexts(calls[0].request) && calls[0].session == s && from <= calls[0].now &&
     TextCalls(calls[1..], s, calls[0].now))
  }

  /**
   A binary body is announced: its extension flags it, or its number was flagged before and has been used
   ever since without a long pause; nothing else is; and the prefix of a binary body survives.
   */
  ghost predicate Announced(call: Call, uses: seq<Use>, xml: Xml)
  {
    var r := call.request;
    && (r.binary <==> FlagsBinary(MetaOf(r, xml)) || Alive(uses, r.msgNum, call.now))
    && (r.binary ==> BinarySurvives(r, xml, call.session))
  }

  ghost predicate AllAnnounced(calls: seq<Call>, uses: seq<Use>, xml: Xml)
    decreases |calls|
  {
    calls == [] ||
    (Announced(calls[0], uses, xml) && AllAnnounced(calls[1..], uses + [UseOf(calls[0], xml)], xml))
  }

  /** Reading in order, the marks are those of the uses so far. */
  lemma {:induction false} AnnouncedIsReadable(calls: seq<Call>, uses: seq<Use>, xml: Xml, p: Peer, from: int)
    requires TextCalls(calls, p.session, from) && InOrder(uses, from) && p.marks == MarksAfter(uses)
    ensures AllReadable(calls, xml, p) <==> AllAnnounced(calls, uses, xml)
    decreases |calls|
  {
    hide Readable, MarksAfter, Alive, Marked, FlagsBinary, BinarySurvives, IsXml, Mark, Touch;
    if calls != [] {
      var call := calls[0];
      LaterInOrder(uses, from, call.now);
      MarkedMeansAlive(uses, call.request.msgNum, call.now);
      TextsAreReadable(call.request, xml, p, call.now);
      OneMoreUse(uses, call, xml, p);
      LastInOrder(uses, UseOf(call, xml));
      var p' := PeerAfter(call.request, xml, p, call.now);
      AnnouncedIsReadable(calls[1..], uses + [UseOf(call, xml)], xml, p', call.now);
    }
  }

  lemma LaterInOrder(uses: seq<Use>, from: int, now: int)
    requires InOrder(uses, from) && from <= now
    ensures InOrder(uses, now)
  {
  }

  lemma LastInOrder(uses: seq<Use>, u: Use)
    requires InOrder(uses, u.now)
    ensures InOrder(uses + [u], u.now)
  {
    assert (uses + [u])[..|uses|] == uses;
  }

  lemma OneMoreUse(uses: seq<Use>, call: Call, xml: Xml, p: Peer)
    requires p.marks == MarksAfter(uses) && MadeOfTexts(call.request)
    ensures var p' := PeerAfter(call.request, xml, p, call.now);
      p'.marks == MarksAfter(uses + [UseOf(call, xml)]) && p'.session == p.session
  {
    hide FlagsBinary, Mark, Touch, IsXml;
    assert (uses + [UseOf(call, xml)])[..|uses|] == uses;
  }

  /**
   On a connection whose reader has marked nothing yet, a stream of requests made of texts and of media is
   read back as it was meant exactly if every binary body is announced in its turn.
   */
  lemma TextStreamReadsBack(calls: seq<Call>, tail: seq<byte>, xml: Xml, p: Peer, from: int)
    requires TextCalls(calls, p.session, from) && p.marks == map[]
    ensures var (ms, left) := ReadMany(Wire(calls) + tail, xml, p, Times(calls));
      && (ms == AllMeant(calls, xml) <==> AllAnnounced(calls, [], xml))
      && (ms == AllMeant(calls, xml) ==> left == tail)
  {
    hide ReadMany, Wire, AllMeant, AllReadable, AllAnnounced, Times;
    OneKeyOnly(calls, p.session, from);
    StreamReadsBack(calls, tail, xml, p);
    AnnouncedIsReadable(calls, [], xml, p, from);
  }

  lemma {:induction false} OneKeyOnly(calls: seq<Call>, s: Session, from: int)
    requires TextCalls(calls, s, from)
    ensures forall call :: call in calls ==> call.session == s
    decreases |calls|
  {
    hide MadeOfTexts;
    if calls != [] {
      OneKeyOnly(calls[1..], s, calls[0].now);
    }
  }

  // ---- the connection

  class Connection {
    // the bytes the transport still has to deliver
    var incoming: seq<byte>
    var mode: Mode
    var key: Option<BlockFunction>
    var negotiated: bool
    var binaryMsgNums: Marks

    ghost function Now(): Peer
      reads this
    {
      Peer(Session(mode, key), negotiated, binaryMsgNums)
    }

    constructor (bytes: seq<byte>)
      ensures incoming == bytes && Now() == Peer(Session(Plain, None), false, map[])
    {
      incoming, mode, key, negotiated, binaryMsgNums := bytes, Plain, None, false, map[];
    }

    /** io.ReadFull: all of the bytes, or an error when the transport ends before. */
    method ReadFull(n: nat) returns (ok: bool, data: seq<byte>)
      modifies this`incoming
      ensures ok <==> n <= |old(incoming)|
      ensures ok ==> data == old(incoming)[..n] && incoming == old(incoming)[n..]
      ensures !ok ==> incoming == []
    {
      if |incoming| < n {
        incoming := [];
        return false, [];
      }
      data := incoming[..n];
      incoming := incoming[n..];
      return true, data;
    }

    method MarkBinaryMsgNum(msgNum: u16, now: int)
      modifies this`binaryMsgNums
      ensures binaryMsgNums == Mark(old(binaryMsgNums), msgNum, now)
    {
      binaryMsgNums := binaryMsgNums[msgNum := now];
      ghost var all := binaryMsgNums;
      var todo := binaryMsgNums.Keys;
      while todo != {}
        invariant todo <= all.Keys
        invariant forall n :: n in binaryMsgNums <==> n in all && (n in todo || now - all[n] <= BINARY_TTL)
        invariant forall n :: n in binaryMsgNums ==> binaryMsgNums[n] == all[n]
        decreases |todo|
      {
        var num :| num in todo;
        todo := todo - {num};
        if now - binaryMsgNums[num] > BINARY_TTL {
          binaryMsgNums := binaryMsgNums - {num};
        }
      }
      assert binaryMsgNums == Fresh(all, now);
    }

    method IsBinaryMsgNum(msgNum: u16, now: int) returns (yes: bool)
      modifies this`binaryMsgNums
      ensures yes == Marked(old(binaryMsgNums), msgNum, now)
      ensures binaryMsgNums == Touch(old(binaryMsgNums), msgNum, now)
    {
      if msgNum !in binaryMsgNums {
        return false;
      }
      if now - binaryMsgNums[msgNum] > BINARY_TTL {
        binaryMsgNums := binaryMsgNums - {msgNum};
        return false;
      }
      binaryMsgNums := binaryMsgNums[msgNum := now];
      return true;
    }

    method SetNegotiatedEncryption(code: u16)
      modifies this`mode, this`negotiated
      ensures Now() == Negotiate(old(Now()), code)
    {
      match code % 0x100 {
        case 0x00 => mode := Plain;
        case 0x01 => mode := BcMode;
        case 0x02 => mode := AesMode;
        case 0x03 => mode := AesMode;
        case 0x12 => mode := AesMode;
        case _ => return;
      }
      negotiated := true;
    }

    /** The second half of readMessage: everything behind the header. */
    method ReadRest(h: Header, xml: Xml, now: int) returns (r: Read)
      modifies this
      ensures key == old(key)
      ensures (r, incoming, Now()) == ReadBody(h, old(incoming), xml, old(Now()), now)
    {
      hide Negotiate, Decoded;
      if h.bodyLen > MAX_BODY {
        return Failed(BodyTooLarge);
      }
      var ok, body := ReadFull(h.bodyLen);
      if !ok {
        return Failed(ShortRead);
      }
      if h.msgID == LOGIN && h.cls != LEGACY && h.responseCode / 0x100 == 0xDD {
        SetNegotiatedEncryption(h.responseCode);
      }
      if h.payloadOffset > h.bodyLen {
        return Failed(BadOffset);
      }
      var m := Decode(h, body[..h.payloadOffset], body[h.payloadOffset..], xml, now);
      return Got(m);
    }

    /** The end of readMessage: decrypt the extension and the payload. */
    method Decode(h: Header, extEncrypted: seq<byte>, payloadEncrypted: seq<byte>, xml: Xml, now: int)
      returns (m: Message)
      modifies this`binaryMsgNums
      ensures (m, Now()) == Decoded(h, extEncrypted, payloadEncrypted, xml, old(Now()), now)
    {
      hide DecryptAuto, Mark, Touch, CfbDecrypt;
      var s := Session(mode, key);
      var extension: seq<byte>, prePayloadXml: seq<byte> := [], [];
      if |extEncrypted| > 0 {
        extension := DecryptAuto(h.channelID, extEncrypted, s);
        prePayloadXml := xml.trim(extension);
      }
      var meta := ParseExtension(xml, extension);
      var binary := false;
      if FlagsBinary(meta) {
        MarkBinaryMsgNum(h.msgNum, now);
        binary := true;
      } else {
        binary := IsBinaryMsgNum(h.msgNum, now);
      }
      var payload: seq<byte>, text: seq<byte> := [], [];
      if |payloadEncrypted| > 0 {
        if binary {
          payload := payloadEncrypted;
          var n := EncryptedPrefix(xml, meta, prePayloadXml, payloadEncrypted, s);
          if n > 0 {
            payload := CfbDecrypt(key.value, IV, payloadEncrypted[..n]) + payloadEncrypted[n..];
          }
          text := prePayloadXml;
        } else {
          payload := DecryptAuto(h.channelID, payloadEncrypted, s);
          text := xml.trim(payload);
        }
      }
      return Message(h, extension, payload, text, binary, meta);
    }

    /** readMessage. */
    method Next(xml: Xml, now: int) returns (r: Read)
      modifies this
      ensures (r, incoming, Now()) == ReadMessage(old(incoming), xml, old(Now()), now)
    {
      hide ReadBody, GetU16, GetU32;
      ghost var stream := incoming;
      var ok, header := ReadFull(20);
      if !ok {
        return Failed(ShortRead);
      }
      SameHeader(stream);
      if GetU32(header, 0) != MAGIC {
        return Failed(BadMagic);
      }
      var payloadOffset: u32 := 0;
      if HasPayloadOffset(GetU16(header, 18)) {
        var more, offset := ReadFull(4);
        if !more {
          return Failed(ShortRead);
        }
        assert offset == stream[20..24];
        SameOffset(stream);
        payloadOffset := GetU32(offset, 0);
      }
      r := ReadRest(ParseHeader(header, payloadOffset), xml, now);
    }

    /** encodeRequest: a buffer of the final size, filled in place. */
    method EncodeRequest(r: Request) returns (packet: array<byte>)
      ensures fresh(packet) && packet[..] == Encoded(r, Session(mode, key))
    {
      hide HeaderBytes, EncryptXml;
      NothingToEncrypt(r.channelID, r.extension, SessionFor(r, Session(mode, key)));
      NothingToEncrypt(r.channelID, r.body, SessionFor(r, Session(mode, key)));
      var s := Session(if r.forceBC then BcMode else mode, key);
      var extension, body := r.extension, r.body;
      if r.cls != LEGACY {
        if |extension| > 0 {
          extension := EncryptXml(r.channelID, extension, s);
        }
        if !r.binary && |body| > 0 {
          body := EncryptXml(r.channelID, body, s);
        }
      }
      assert extension == EncryptedExtension(r, Session(mode, key)) && body == EncryptedBody(r, Session(mode, key));
      var responseCode := r.responseCode;
      if r.cls == LEGACY && r.msgID == LOGIN && |body| == 0 {
        responseCode := 0xDC12;
      }
      var h := Header(r.msgID, (|extension| + |body|) % TWO32, r.channelID, r.streamType, r.msgNum, responseCode,
        r.cls, if HasPayloadOffset(r.cls) then |extension| % TWO32 else 0);
      assert h == RequestHeader(r);
      packet := Assemble(h, extension, body);
    }

    static method Assemble(h: Header, extension: seq<byte>, body: seq<byte>) returns (packet: array<byte>)
      ensures fresh(packet) && packet[..] == HeaderBytes(h) + extension + body
    {
      hide HeaderBytes;
      var headerLen := if HasPayloadOffset(h.cls) then 24 else 20;
      packet := new byte[headerLen + |extension| + |body|](_ => 0);
      PutHeader(packet, h);
      CopyInto(packet, headerLen, extension);
      assert packet[..headerLen] == HeaderBytes(h);
      var bodyAt := headerLen + |extension|;
      assert packet[..bodyAt] == packet[..headerLen] + packet[headerLen..bodyAt];
      CopyInto(packet, bodyAt, body);
      assert packet[..bodyAt] == HeaderBytes(h) + extension;
      assert packet[..] == packet[..bodyAt] + packet[bodyAt..bodyAt + |body|];
    }

    static method PutHeader(packet: array<byte>, h: Header)
      requires packet.Length >= |HeaderBytes(h)|
      modifies packet
      ensures packet[..|HeaderBytes(h)|] == HeaderBytes(h)
    {
      hide Le16, Le32;
      PutFixedHeader(packet, h);
      if HasPayloadOffset(h.cls) {
        PutU32(packet, 20, h.payloadOffset);
        assert packet[..24] == packet[..20] + packet[20..24];
      }
    }

    static method PutFixedHeader(packet: array<byte>, h: Header)
      requires packet.Length >= 20
      modifies packet
      ensures packet[..20] == FixedHeader(h)
    {
      hide Le16, Le32;
      PutU32(packet, 0, MAGIC);
      assert packet[..4] == packet[0..4];
      PutU32(packet, 4, h.msgID);
      assert packet[..8] == packet[..4] + packet[4..8];
      PutU32(packet, 8, h.bodyLen);
      assert packet[..12] == packet[..8] + packet[8..12];
      packet[12] := h.channelID;
      packet[13] := h.streamType;
      assert packet[..14] == packet[..12] + [h.channelID, h.streamType];
      PutU16(packet, 14, h.msgNum);
      assert packet[..16] == packet[..14] + packet[14..16];
      PutU16(packet, 16, h.responseCode);
      assert packet[..18] == packet[..16] + packet[16..18];
      PutU16(packet, 18, h.cls);
      assert packet[..20] == packet[..18] + packet[18..20];
    }
  }

  lemma NothingToEncrypt(offset: byte, buf: seq<byte>, s: Session)
    ensures buf == [] || s.mode == Plain ==> EncryptXml(offset, buf, s) == buf
  {
  }

  lemma SameHeader(stream: seq<byte>)
    requires |stream| >= 20
    ensures var header := stream[..20];
      && GetU32(header, 0) == GetU32(stream, 0) && GetU16(header, 18) == GetU16(stream, 18)
      && forall offset :: ParseHeader(header, offset) == ParseHeader(stream, offset)
  {
  }

  lemma SameOffset(stream: seq<byte>)
    requires |stream| >= 24
    ensures GetU32(stream[20..24], 0) == GetU32(stream, 20)
  {
  }
}
