/**
 What a camera sends on the bcmedia stream, byte by byte, and the proof that the parser reads exactly that
 (pkg/baichuan/media.go). The layout is written down here with its own numbers, apart from the parser's.
 */
module MediaUnits {
  import opened Bytes
  import opened BcMedia

  /** A unit of the stream. The parts the parser skips may hold anything. */
  datatype MediaUnit =
    | InfoUnit(v2: bool, width: u32, height: u32, skipped: byte, fps: byte, tail: seq<byte>)
    | VideoUnit(iframe: bool, channel: byte, h265: bool, micros: u32, unused: seq<byte>, extra: seq<byte>,
                payload: seq<byte>, padding: seq<byte>)
    | AacUnit(second: bool, check: seq<byte>, payload: seq<byte>, padding: seq<byte>)
    | AdpcmUnit(check: seq<byte>, seqNum: seq<byte>, payload: seq<byte>, padding: seq<byte>)

  /** The payload is followed by at most seven bytes, up to a multiple of eight. */
  predicate Padded(size: nat, padding: seq<byte>) { |padding| < 8 && (size + |padding|) % 8 == 0 }

  predicate WellFormed(u: MediaUnit)
  {
    match u
    case InfoUnit(_, _, _, _, _, tail) => |tail| == 14
    case VideoUnit(_, channel, _, _, unused, extra, payload, padding) =>
      && channel <= 9 && |unused| == 4 && |extra| < 0x1_0000_0000 && |payload| < 0x1_0000_0000
      && Padded(|payload|, padding)
    case AacUnit(_, check, payload, padding) => |check| == 2 && |payload| < 0x1_0000 && Padded(|payload|, padding)
    case AdpcmUnit(check, seqNum, payload, padding) =>
      |check| == 2 && |seqNum| == 2 && |payload| + 4 < 0x1_0000 && Padded(|payload| + 4, padding)
  }

  /** The units the parser takes: 50 MiB of video and 1 MiB of extra header are the limits. */
  predicate Plausible(u: MediaUnit) { u.VideoUnit? ==> |u.payload| <= 52_428_800 && |u.extra| <= 1_048_576 }

  /** "1001" and "1002", "00dc" to "90dc" and "01dc" to "91dc", "05wb" and "15wb", "01wb". */
  function Tag(u: MediaUnit): (tag: seq<byte>)
    requires WellFormed(u)
    ensures |tag| == 4
  {
    match u
    case InfoUnit(v2, _, _, _, _, _) => [0x31, 0x30, 0x30, if v2 then 0x32 else 0x31]
    case VideoUnit(iframe, channel, _, _, _, _, _, _) => [0x30 + channel, if iframe then 0x30 else 0x31, 0x64, 0x63]
    case AacUnit(second, _, _, _) => [if second then 0x31 else 0x30, 0x35, 0x77, 0x62]
    case AdpcmUnit(_, _, _, _) => [0x30, 0x31, 0x77, 0x62]
  }

  /** "H264" and "H265". */
  function CodecTag(h265: bool): (tag: seq<byte>)
    ensures |tag| == 4
  {
    [0x48, 0x32, 0x36, if h265 then 0x35 else 0x34]
  }

  /** What follows the tag, up to the payload. */
  function Head(u: MediaUnit): seq<byte>
    requires WellFormed(u)
  {
    match u
    case InfoUnit(_, width, height, skipped, fps, tail) =>
      Le32(32) + Le32(width) + Le32(height) + [skipped, fps] + tail
    case VideoUnit(_, _, h265, micros, unused, extra, payload, _) =>
      CodecTag(h265) + Le32(|payload|) + Le32(|extra|) + Le32(micros) + unused + extra
    case AacUnit(_, check, payload, _) => Le16(|payload|) + check
    case AdpcmUnit(check, seqNum, payload, _) => Le16(|payload| + 4) + check + [0x00, 0x01] + seqNum
  }

  function Written(u: MediaUnit): seq<byte>
    requires WellFormed(u)
  {
    Tag(u) + Head(u) + if u.InfoUnit? then [] else u.payload + u.padding
  }

  /** What the unit says. */
  function Packet(u: MediaUnit): MediaPacket
  {
    match u
    case InfoUnit(v2, width, height, _, fps, _) =>
      MediaPacket(if v2 then KindInfoV2 else KindInfoV1, width, height, fps, NoCodec, [], 0, false, None)
    case VideoUnit(iframe, _, h265, micros, _, extra, payload, _) =>
      MediaPacket(if iframe then KindIFrame else KindPFrame, 0, 0, 0, if h265 then H265 else H264, payload, micros,
                  true, if iframe && |extra| >= 4 then Some(GetU32(extra, 0)) else None)
    case AacUnit(_, _, payload, _) => MediaPacket(KindAAC, 0, 0, 0, NoCodec, payload, 0, false, None)
    case AdpcmUnit(_, _, payload, _) => MediaPacket(KindADPCM, 0, 0, 0, NoCodec, payload, 0, false, None)
  }

  lemma SamePadding(size: nat, padding: seq<byte>)
    requires Padded(size, padding)
    ensures PadLen(size) == |padding|
  {
  }

  lemma TagWord(b: seq<byte>, tag: seq<byte>)
    requires |tag| == 4 && |b| >= 4 && b[..4] == tag
    ensures GetU32(b, 0) ==
      (tag[0] as int) + (tag[1] as int) * 0x100 + (tag[2] as int) * 0x1_0000 + (tag[3] as int) * 0x100_0000
  {
    var t := b[..4];
    assert t[0] == b[0] && t[1] == b[1] && t[2] == b[2] && t[3] == b[3];
  }

  lemma InfoReadsBack(u: MediaUnit, rest: seq<byte>)
    requires WellFormed(u) && u.InfoUnit?
    ensures ParseMedia(Written(u) + rest) == Parsed(Packet(u), |Written(u)|)
  {
    hide Le32, GetU32, ParseVideo, ParseAac, ParseAdpcm;
    var b := Written(u) + rest;
    TagWord(b, Tag(u));
    assert b[4..4 + 4] == Le32(32) && b[8..8 + 4] == Le32(u.width) && b[12..12 + 4] == Le32(u.height);
    ReadBackU32(b, 4, 32);
    ReadBackU32(b, 8, u.width);
    ReadBackU32(b, 12, u.height);
    assert b[17] == u.fps;
  }

  lemma AacReadsBack(u: MediaUnit, rest: seq<byte>)
    requires WellFormed(u) && u.AacUnit?
    ensures ParseMedia(Written(u) + rest) == Parsed(Packet(u), |Written(u)|)
  {
    hide Le16, GetU16, GetU32, PadLen, ParseVideo, ParseInfo, ParseAdpcm;
    var b := Written(u) + rest;
    TagWord(b, Tag(u));
    assert b[4..4 + 2] == Le16(|u.payload|);
    ReadBackU16(b, 4, |u.payload|);
    SamePadding(|u.payload|, u.padding);
    assert b[8..8 + |u.payload|] == u.payload;
  }

  lemma AdpcmReadsBack(u: MediaUnit, rest: seq<byte>)
    requires WellFormed(u) && u.AdpcmUnit?
    ensures ParseMedia(Written(u) + rest) == Parsed(Packet(u), |Written(u)|)
  {
    hide Le16, GetU16, GetU32, PadLen, ParseVideo, ParseInfo, ParseAac;
    var b, size := Written(u) + rest, |u.payload| + 4;
    TagWord(b, Tag(u));
    assert b[4..4 + 2] == Le16(size) && b[8..8 + 2] == [0x00, 0x01];
    MarkerBytes();
    ReadBackU16(b, 4, size);
    ReadBackU16(b, 8, ADPCM_HEADER);
    SamePadding(size, u.padding);
    assert b[12..8 + size] == u.payload;
  }

  lemma MarkerBytes()
    ensures Le16(ADPCM_HEADER) == [0x00, 0x01]
  {
  }

  lemma VideoFields(u: MediaUnit, rest: seq<byte>)
    requires WellFormed(u) && u.VideoUnit?
    ensures var b := Written(u) + rest;
      && |b| >= 24 + |u.extra| + |u.payload| + |u.padding|
      && b[4..8] == CodecTag(u.h265) && GetU32(b, 8) == |u.payload| && GetU32(b, 12) == |u.extra|
      && GetU32(b, 16) == u.micros && b[24..24 + |u.extra|] == u.extra
      && b[24 + |u.extra|..24 + |u.extra| + |u.payload|] == u.payload
      && |Written(u)| == 24 + |u.extra| + |u.payload| + |u.padding|
  {
    hide Le32, GetU32, Tag, CodecTag;
    var b := Written(u) + rest;
    assert b[8..8 + 4] == Le32(|u.payload|) && b[12..12 + 4] == Le32(|u.extra|) && b[16..16 + 4] == Le32(u.micros);
    ReadBackU32(b, 8, |u.payload|);
    ReadBackU32(b, 12, |u.extra|);
    ReadBackU32(b, 16, u.micros);
  }

  lemma VideoTag(u: MediaUnit, rest: seq<byte>)
    requires WellFormed(u) && u.VideoUnit?
    ensures ParseMedia(Written(u) + rest) == ParseVideo(Written(u) + rest, u.iframe)
  {
    hide GetU32, ParseVideo, ParseInfo, ParseAac, ParseAdpcm, Head;
    var b := Written(u) + rest;
    assert b[..4] == Tag(u);
    TagWord(b, Tag(u));
  }

  lemma UnixTime(b: seq<byte>, extra: seq<byte>)
    requires |b| >= 24 + |extra| && b[24..24 + |extra|] == extra && |extra| >= 4
    ensures GetU32(b, 24) == GetU32(extra, 0)
  {
    var e := b[24..24 + |extra|];
    assert e[0] == b[24] && e[1] == b[25] && e[2] == b[26] && e[3] == b[27];
  }

  lemma VideoReadsBack(u: MediaUnit, rest: seq<byte>)
    requires WellFormed(u) && u.VideoUnit?
    ensures ParseMedia(Written(u) + rest) ==
      if Plausible(u) then Parsed(Packet(u), |Written(u)|) else Failed(ImplausibleSizes)
  {
    hide GetU32, Written, PadLen, WellFormed;
    VideoTag(u, rest);
    VideoFields(u, rest);
    VideoPadding(u);
    if |u.extra| >= 4 {
      UnixTime(Written(u) + rest, u.extra);
    }
    CodecRead(u.h265);
  }

  lemma VideoPadding(u: MediaUnit)
    requires WellFormed(u) && u.VideoUnit?
    ensures PadLen(|u.payload|) == |u.padding|
  {
    SamePadding(|u.payload|, u.padding);
  }

  lemma CodecRead(h265: bool)
    ensures CodecOf(CodecTag(h265)) == if h265 then H265 else H264
  {
  }

  /**
   Every unit within the limits, followed by anything, is read as what it says, and exactly its bytes are
   consumed; one beyond the limits is an error.
   */
  lemma UnitReadsBack(u: MediaUnit, rest: seq<byte>)
    requires WellFormed(u)
    ensures ParseMedia(Written(u) + rest) ==
      if Plausible(u) then Parsed(Packet(u), |Written(u)|) else Failed(ImplausibleSizes)
  {
    hide ParseMedia, Written, Packet, WellFormed;
    match u
    case InfoUnit(_, _, _, _, _, _) => InfoReadsBack(u, rest);
    case VideoUnit(_, _, _, _, _, _, _, _) => VideoReadsBack(u, rest);
    case AacUnit(_, _, _, _) => AacReadsBack(u, rest);
    case AdpcmUnit(_, _, _, _) => AdpcmReadsBack(u, rest);
  }

  // ---- streams

  function WrittenAll(units: seq<MediaUnit>): seq<seq<byte>>
    requires forall u :: u in units ==> WellFormed(u)
  {
    if units == [] then [] else [Written(units[0])] + WrittenAll(units[1..])
  }

  function PacketAll(units: seq<MediaUnit>): seq<MediaPacket>
  {
    if units == [] then [] else [Packet(units[0])] + PacketAll(units[1..])
  }

  lemma {:induction false} UnitsFeed(units: seq<MediaUnit>, tail: seq<byte>)
    requires forall u :: u in units ==> WellFormed(u) && Plausible(u)
    ensures var o := Feed(tail);
      Feed(Flat(WrittenAll(units)) + tail) == o.(packets := PacketAll(units) + o.packets)
    decreases |units|
  {
    hide ParseMedia, Feed, Written, Packet, WellFormed, Plausible;
    if units == [] {
      assert Flat(WrittenAll(units)) + tail == tail;
      assert [] + Feed(tail).packets == Feed(tail).packets;
    } else {
      var unit, more := Written(units[0]), Flat(WrittenAll(units[1..])) + tail;
      var buf := unit + more;
      assert ([unit] + WrittenAll(units[1..]))[1..] == WrittenAll(units[1..]);
      assert Flat(WrittenAll(units)) + tail == buf;
      UnitReadsBack(units[0], more);
      FeedStep(buf);
      assert buf[|unit|..] == more;
      UnitsFeed(units[1..], tail);
      var ps, rest := PacketAll(units[1..]), Feed(tail).packets;
      assert [Packet(units[0])] + (ps + rest) == [Packet(units[0])] + ps + rest;
    }
  }

  /**
   A stream of units of all kinds, cut anywhere, comes out as what they say; bytes behind the last whole unit
   wait, or fail as they would alone.
   */
  lemma StreamReadsBack(units: seq<MediaUnit>, tail: seq<byte>, chunks: seq<seq<byte>>)
    requires forall u :: u in units ==> WellFormed(u) && Plausible(u)
    requires Flat(chunks) == Flat(WrittenAll(units)) + tail && !ParseMedia(tail).Parsed?
    ensures AppendAll([], chunks) ==
      Outcome(PacketAll(units), tail, if ParseMedia(tail).Failed? then Some(ParseMedia(tail).error) else None)
  {
    hide ParseMedia, Feed, Written, Packet, WellFormed, Plausible, WrittenAll, PacketAll;
    ChunkIndependence([], chunks);
    assert [] + Flat(chunks) == Flat(chunks);
    UnitsFeed(units, tail);
    FeedStep(tail);
    assert PacketAll(units) + [] == PacketAll(units);
  }

  // ---- and nothing else

  lemma TagIs(b: seq<byte>, tag: seq<byte>)
    requires |tag| == 4 && |b| >= 4
    requires GetU32(b, 0) ==
      (tag[0] as int) + (tag[1] as int) * 0x100 + (tag[2] as int) * 0x1_0000 + (tag[3] as int) * 0x100_0000
    ensures b[..4] == tag
  {
    SameBytes(b[0], b[1], b[2], b[3], tag[0], tag[1], tag[2], tag[3]);
  }

  lemma HalfWordIs(b: seq<byte>, i: nat)
    requires i + 2 <= |b|
    ensures Le16(GetU16(b, i)) == b[i..i + 2]
  {
  }

  lemma InfoAccepted(b: seq<byte>, v2: bool) returns (u: MediaUnit)
    requires ParseMedia(b).Parsed? && GetU32(b, 0) == if v2 then 0x32303031 else 0x31303031
    ensures u.InfoUnit? && WellFormed(u) && Written(u) <= b && ParseMedia(b) == Parsed(Packet(u), |Written(u)|)
  {
    hide GetU32, ParseVideo, ParseAac, ParseAdpcm, Head;
    u := InfoUnit(v2, GetU32(b, 8), GetU32(b, 12), b[16], b[17], b[18..32]);
    InfoHead(b, u);
    TagIs(b, Tag(u));
    assert b[..32] == b[..4] + b[4..32];
    assert Written(u) == Tag(u) + Head(u);
  }

  lemma InfoHead(b: seq<byte>, u: MediaUnit)
    requires |b| >= 32 && GetU32(b, 4) == 32
    requires u.InfoUnit? && u.width == GetU32(b, 8) && u.height == GetU32(b, 12) && u.skipped == b[16]
    requires u.fps == b[17] && u.tail == b[18..32]
    ensures Head(u) == b[4..32]
  {
    hide Le32, GetU32;
    Le32OfWord(b, 4);
    Le32OfWord(b, 8);
    Le32OfWord(b, 12);
    InfoParts(b);
  }

  lemma InfoParts(b: seq<byte>)
    requires |b| >= 32
    ensures b[4..32] == b[4..4 + 4] + b[8..8 + 4] + b[12..12 + 4] + [b[16], b[17]] + b[18..32]
  {
  }

  lemma AacAccepted(b: seq<byte>, second: bool) returns (u: MediaUnit)
    requires ParseMedia(b).Parsed? && GetU32(b, 0) == if second then 0x62773531 else 0x62773530
    ensures u.AacUnit? && WellFormed(u) && Written(u) <= b && ParseMedia(b) == Parsed(Packet(u), |Written(u)|)
  {
    hide Le16, GetU16, GetU32, PadLen, ParseVideo, ParseInfo, ParseAdpcm;
    var size: nat := GetU16(b, 4);
    u := AacUnit(second, b[6..8], b[8..8 + size], b[8 + size..8 + size + PadLen(size)]);
    HalfWordIs(b, 4);
    TagIs(b, Tag(u));
    var n := 8 + size + PadLen(size);
    FourParts(b, 8, 8 + size, n);
    assert b[4..8] == b[4..4 + 2] + b[6..8];
  }

  lemma AdpcmAccepted(b: seq<byte>) returns (u: MediaUnit)
    requires ParseMedia(b).Parsed? && GetU32(b, 0) == 0x62773130
    ensures u.AdpcmUnit? && WellFormed(u) && Written(u) <= b && ParseMedia(b) == Parsed(Packet(u), |Written(u)|)
  {
    hide Le16, GetU16, GetU32, PadLen, ParseVideo, ParseInfo, ParseAac;
    var size: nat := GetU16(b, 4);
    u := AdpcmUnit(b[6..8], b[10..12], b[12..8 + size], b[8 + size..8 + size + PadLen(size)]);
    HalfWordIs(b, 4);
    HalfWordIs(b, 8);
    MarkerBytes();
    TagIs(b, Tag(u));
    var n := 8 + size + PadLen(size);
    FourParts(b, 12, 8 + size, n);
    assert b[4..12] == b[4..4 + 2] + b[6..8] + b[8..8 + 2] + b[10..12];
  }

  lemma CodecIs(tag: seq<byte>)
    requires CodecOf(tag) != NoCodec
    ensures tag == CodecTag(CodecOf(tag) == H265)
  {
  }

  /** The video unit a buffer begins with. */
  function VideoUnitIn(b: seq<byte>, iframe: bool, channel: byte): (u: MediaUnit)
    requires ParseVideo(b, iframe).Parsed?
  {
    var size, extra: nat := GetU32(b, 8), GetU32(b, 12);
    var at := 24 + extra;
    VideoUnit(iframe, channel, CodecOf(b[4..8]) == H265, GetU32(b, 16), b[20..24], b[24..at],
              b[at..at + size], b[at + size..at + size + PadLen(size)])
  }

  lemma VideoUnitFits(b: seq<byte>, iframe: bool, channel: byte)
    requires ParseVideo(b, iframe).Parsed? && channel <= 9
    ensures var u := VideoUnitIn(b, iframe, channel);
      WellFormed(u) && Plausible(u) && ParseVideo(b, iframe).packet == Packet(u)
  {
    hide GetU32, CodecOf;
    var u := VideoUnitIn(b, iframe, channel);
    if |u.extra| >= 4 {
      UnixTime(b, u.extra);
    }
  }

  lemma VideoUnitHead(b: seq<byte>, iframe: bool, channel: byte)
    requires ParseVideo(b, iframe).Parsed? && channel <= 9 && WellFormed(VideoUnitIn(b, iframe, channel))
    ensures var u := VideoUnitIn(b, iframe, channel);
      Head(u) == b[4..24 + |u.extra|]
  {
    hide Le32, GetU32, CodecOf, CodecTag, WellFormed, PadLen;
    var u := VideoUnitIn(b, iframe, channel);
    CodecIs(b[4..8]);
    Le32OfWord(b, 8);
    Le32OfWord(b, 12);
    Le32OfWord(b, 16);
    VideoHeadParts(b, 24 + |u.extra|);
  }

  lemma VideoHeadParts(b: seq<byte>, at: nat)
    requires 24 <= at <= |b|
    ensures b[4..at] == b[4..8] + b[8..8 + 4] + b[12..12 + 4] + b[16..16 + 4] + b[20..24] + b[24..at]
  {
  }

  lemma FourParts(b: seq<byte>, i: nat, j: nat, n: nat)
    requires 4 <= i <= j <= n <= |b|
    ensures b[..n] == b[..4] + b[4..i] + (b[i..j] + b[j..n])
  {
  }

  lemma VideoAccepted(b: seq<byte>, iframe: bool, channel: byte) returns (u: MediaUnit)
    requires ParseMedia(b).Parsed? && channel <= 9
    requires GetU32(b, 0) == (if iframe then 0x63643030 else 0x63643130) + channel
    ensures WellFormed(u) && Plausible(u) && Written(u) <= b && ParseMedia(b) == Parsed(Packet(u), |Written(u)|)
  {
    hide GetU32, CodecOf, ParseAac, ParseInfo, ParseAdpcm, Head, Packet, WellFormed, Plausible, PadLen;
    assert ParseMedia(b) == ParseVideo(b, iframe);
    u := VideoUnitIn(b, iframe, channel);
    VideoUnitFits(b, iframe, channel);
    VideoUnitHead(b, iframe, channel);
    TagIs(b, Tag(u));
    var n := ParseMedia(b).consumed;
    var at := 24 + |u.extra|;
    assert n == at + |u.payload| + |u.padding|;
    FourParts(b, at, at + |u.payload|, n);
  }

  /** Whatever the parser accepts is the beginning of the buffer written out as such a unit. */
  lemma AcceptedIsUnit(b: seq<byte>) returns (u: MediaUnit)
    requires ParseMedia(b).Parsed?
    ensures WellFormed(u) && Plausible(u) && Written(u) <= b && ParseMedia(b) == Parsed(Packet(u), |Written(u)|)
  {
    hide Written, Packet, WellFormed, ParseInfo, ParseVideo, ParseAac, ParseAdpcm;
    var magic := GetU32(b, 0);
    if magic == 0x31303031 || magic == 0x32303031 {
      u := InfoAccepted(b, magic == 0x32303031);
    } else if 0x63643030 <= magic <= 0x63643039 {
      u := VideoAccepted(b, true, magic - 0x63643030);
    } else if 0x63643130 <= magic <= 0x63643139 {
      u := VideoAccepted(b, false, magic - 0x63643130);
    } else if magic == 0x62773530 || magic == 0x62773531 {
      u := AacAccepted(b, magic == 0x62773531);
    } else {
      u := AdpcmAccepted(b);
    }
  }

  /** The parser never waits for more than the largest unit there can be. */
  lemma NeverWaitsLong(b: seq<byte>)
    requires |b| >= 24 + 1_048_576 + 52_428_800
    ensures ParseMedia(b) != NeedMore
  {
    hide GetU16, GetU32;
    LargestPadding();
  }

  lemma LargestPadding()
    ensures forall size: nat :: size <= 52_428_800 ==> size + PadLen(size) <= 52_428_800
  {
  }

  /** What the talk serializer writes is such a unit: the size twice, the sequence number, and zeros at the end. */
  lemma TalkUnitIsWritten(block: seq<byte>, seqNum: u16, padding: seq<byte>)
    requires |block| <= 65531 && Padded(|block| + 4, padding) && forall b :: b in padding ==> b == 0
    ensures var u := AdpcmUnit(Le16(|block| + 4), Le16(seqNum), block, padding);
      WellFormed(u) && TalkUnit(block, seqNum) == Written(u)
  {
    hide PadLen, Le16;
    SamePadding(|block| + 4, padding);
    AdpcmTag();
    MarkerBytes();
    AllZeros(padding);
    var size := Le16(|block| + 4);
    assert TalkHeader(block, seqNum) == [0x30, 0x31, 0x77, 0x62] + (size + size + [0x00, 0x01] + Le16(seqNum));
  }

  lemma AllZeros(s: seq<byte>)
    requires forall b :: b in s ==> b == 0
    ensures s == Zeros(|s|)
  {
    forall i | 0 <= i < |s|
      ensures s[i] == 0
    {
      assert s[i] in s;
    }
  }

  lemma AdpcmTag()
    ensures Le32(ADPCM) == [0x30, 0x31, 0x77, 0x62]
  {
  }
}
