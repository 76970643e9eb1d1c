/**
 The bcmedia byte stream: the incremental parser (pkg/baichuan/media.go) and the serializer of talk
 blocks (pkg/baichuan/talk.go).
 */
module BcMedia {
  import opened Bytes

  const INFO_V1: u32 := 0x31303031
  const INFO_V2: u32 := 0x32303031
  const IFRAME_MIN: u32 := 0x63643030
  const IFRAME_MAX: u32 := 0x63643039
  const PFRAME_MIN: u32 := 0x63643130
  const PFRAME_MAX: u32 := 0x63643139
  const AAC: u32 := 0x62773530
  const AAC_V2: u32 := 0x62773531
  const ADPCM: u32 := 0x62773130
  const ADPCM_HEADER: u16 := 0x0100
  const PAD_SIZE := 8
  const MAX_PAYLOAD := 50 * 1024 * 1024
  const MAX_EXTRA_HEADER := 1024 * 1024

  datatype Kind = KindInfoV1 | KindInfoV2 | KindIFrame | KindPFrame | KindAAC | KindADPCM

  datatype Codec = NoCodec | H264 | H265

  datatype MediaPacket = MediaPacket(kind: Kind, width: u32, height: u32, fps: byte, codec: Codec, data: seq<byte>,
                                     timestampMicrosecs: u32, hasTimestamp: bool, unixTime: Option<u32>)

  datatype MediaError = BadInfoHeader | BadAdpcmMarker | BadCodec | ImplausibleSizes | BadMagic | SlicePanic

  /** SlicePanic stands for the run-time panic of a slice expression whose bounds are out of order. */
  datatype ParseResult = NeedMore | Failed(error: MediaError) | Parsed(packet: MediaPacket, consumed: nat)

  function PadLen(size: nat): (n: nat)
    ensures n < PAD_SIZE && (size + n) % PAD_SIZE == 0
  {
    if size % PAD_SIZE == 0 then 0 else PAD_SIZE - size % PAD_SIZE
  }

  function PlainPacket(kind: Kind, data: seq<byte>): MediaPacket
  {
    MediaPacket(kind, 0, 0, 0, NoCodec, data, 0, false, None)
  }

  function CodecOf(tag: seq<byte>): Codec
  {
    if tag == [0x48, 0x32, 0x36, 0x34] then H264
    else if tag == [0x48, 0x32, 0x36, 0x35] then H265
    else NoCodec
  }

  /** parseMediaPacket. */
  function ParseMedia(buf: seq<byte>): ParseResult
  {
    if |buf| < 4 then NeedMore
    else
      var magic := GetU32(buf, 0);
      if magic == INFO_V1 || magic == INFO_V2 then ParseInfo(buf, if magic == INFO_V2 then KindInfoV2 else KindInfoV1)
      else if IFRAME_MIN <= magic <= IFRAME_MAX then ParseVideo(buf, true)
      else if PFRAME_MIN <= magic <= PFRAME_MAX then ParseVideo(buf, false)
      else if magic == AAC || magic == AAC_V2 then ParseAac(buf)
      else if magic == ADPCM then ParseAdpcm(buf)
      else Failed(BadMagic)
  }

  function ParseInfo(buf: seq<byte>, kind: Kind): ParseResult
  {
    if |buf| < 32 then NeedMore
    else if GetU32(buf, 4) != 32 then Failed(BadInfoHeader)
    else Parsed(PlainPacket(kind, []).(width := GetU32(buf, 8), height := GetU32(buf, 12), fps := buf[17]), 32)
  }

  function ParseAac(buf: seq<byte>): ParseResult
  {
    if |buf| < 8 then NeedMore
    else
      var size: nat := GetU16(buf, 4);
      var total := 8 + size + PadLen(size);
      if |buf| < total then NeedMore
      else Parsed(PlainPacket(KindAAC, buf[8..8 + size]), total)
  }

  function ParseAdpcm(buf: seq<byte>): ParseResult
  {
    if |buf| < 12 then NeedMore
    else
      var size: nat := GetU16(buf, 4);
      var total := 8 + size + PadLen(size);
      if |buf| < total then NeedMore
      else if GetU16(buf, 8) != ADPCM_HEADER then Failed(BadAdpcmMarker)
      else if size < 4 then Failed(SlicePanic)
      else Parsed(PlainPacket(KindADPCM, buf[12..8 + size]), total)
  }

  /** parseVideoFrame. */
  function ParseVideo(buf: seq<byte>, iframe: bool): ParseResult
  {
    if |buf| < 24 then NeedMore
    else
      var codec := CodecOf(buf[4..8]);
      var size, extra: nat := GetU32(buf, 8), GetU32(buf, 12);
      if codec == NoCodec then Failed(BadCodec)
      else if size > MAX_PAYLOAD || extra > MAX_EXTRA_HEADER then Failed(ImplausibleSizes)
      else
        var total := 24 + extra + size + PadLen(size);
        if |buf| < total then NeedMore
        else
          var unixTime := if iframe && extra >= 4 then Some(GetU32(buf, 24)) else None;
          Parsed(MediaPacket(if iframe then KindIFrame else KindPFrame, 0, 0, 0, codec,
                             buf[24 + extra..24 + extra + size], GetU32(buf, 16), true, unixTime), total)
  }

  /** An accepted packet takes at least 8 bytes and no more than the buffer holds. */
  lemma ConsumedBounds(buf: seq<byte>)
    requires ParseMedia(buf).Parsed?
    ensures 8 <= ParseMedia(buf).consumed <= |buf|
  {
    hide GetU32, GetU16;
  }

  /** A verdict on a buffer, good or bad, is not changed by bytes that arrive later. */
  lemma VerdictIsStable(buf: seq<byte>, more: seq<byte>)
    requires ParseMedia(buf) != NeedMore
    ensures ParseMedia(buf + more) == ParseMedia(buf)
  {
    hide GetU32, GetU16, PadLen;
    WordsStable(buf, more);
    VideoIsStable(buf, more);
    var all := buf + more;
    if |buf| >= 8 {
      var size: nat := GetU16(buf, 4);
      if |buf| >= 8 + size {
        assert all[8..8 + size] == buf[8..8 + size];
        if |buf| >= 12 && size >= 4 {
          assert all[12..8 + size] == buf[12..8 + size];
        }
      }
    }
  }

  lemma WordsStable(buf: seq<byte>, more: seq<byte>)
    ensures forall i: nat :: i + 4 <= |buf| ==> GetU32(buf + more, i) == GetU32(buf, i)
    ensures forall i: nat :: i + 2 <= |buf| ==> GetU16(buf + more, i) == GetU16(buf, i)
  {
  }

  lemma VideoIsStable(buf: seq<byte>, more: seq<byte>)
    ensures forall iframe ::
      ParseVideo(buf, iframe) != NeedMore ==> ParseVideo(buf + more, iframe) == ParseVideo(buf, iframe)
  {
    hide GetU32, PadLen;
    WordsStable(buf, more);
    var all := buf + more;
    if |buf| >= 24 {
      assert all[4..8] == buf[4..8];
      var size, extra: nat := GetU32(buf, 8), GetU32(buf, 12);
      if |buf| >= 24 + extra + size {
        assert all[24 + extra..24 + extra + size] == buf[24 + extra..24 + extra + size];
      }
    }
  }

  // ---- the incremental parser

  datatype Outcome = Outcome(packets: seq<MediaPacket>, rest: seq<byte>, error: Option<MediaError>)

  /** Everything a buffer yields: its packets, the bytes left over, and the error that stopped it. */
  function Feed(buf: seq<byte>): (o: Outcome)
    ensures |o.rest| <= |buf|
    decreases |buf|
  {
    match ParseMedia(buf)
    case NeedMore => Outcome([], buf, None)
    case Failed(e) => Outcome([], buf, Some(e))
    case Parsed(packet, consumed) =>
      ConsumedBounds(buf);
      var o := Feed(buf[consumed..]);
      o.(packets := [packet] + o.packets)
  }

  function Then(first: Outcome, second: Outcome): Outcome { second.(packets := first.packets + second.packets) }

  /** Appending b after a yields what a yielded, and then what its leftover and b yield together. */
  lemma {:induction false} FeedSplit(a: seq<byte>, b: seq<byte>)
    ensures Feed(a + b) == Then(Feed(a), Feed(Feed(a).rest + b))
    decreases |a|
  {
    hide ParseMedia, Feed;
    FeedStep(a);
    match ParseMedia(a)
    case NeedMore =>
      assert [] + Feed(a + b).packets == Feed(a + b).packets;
    case Failed(e) =>
      VerdictIsStable(a, b);
      FailedFeed(a + b, e);
    case Parsed(packet, consumed) =>
      VerdictIsStable(a, b);
      FeedStep(a + b);
      assert (a + b)[consumed..] == a[consumed..] + b;
      FeedSplit(a[consumed..], b);
      var first := Feed(a[consumed..]);
      var second := Feed(first.rest + b);
      assert [packet] + (first.packets + second.packets) == [packet] + first.packets + second.packets;
  }

  /** One turn of the loop of Append. */
  lemma FeedStep(buf: seq<byte>)
    ensures ParseMedia(buf).NeedMore? ==> Feed(buf) == Outcome([], buf, None)
    ensures ParseMedia(buf).Failed? ==> Feed(buf) == Outcome([], buf, Some(ParseMedia(buf).error))
    ensures ParseMedia(buf).Parsed? ==> 0 < ParseMedia(buf).consumed <= |buf|
    ensures ParseMedia(buf).Parsed? ==>
      var o := Feed(buf[ParseMedia(buf).consumed..]);
      Feed(buf) == o.(packets := [ParseMedia(buf).packet] + o.packets)
  {
    hide ParseMedia;
    if ParseMedia(buf).Parsed? {
      ConsumedBounds(buf);
    }
  }

  /** A sequence of Append calls on a parser that starts with the given buffer. */
  function AppendAll(buf: seq<byte>, chunks: seq<seq<byte>>): Outcome
    decreases |chunks|
  {
    if chunks == [] then Feed(buf)
    else
      var first := Feed(buf + chunks[0]);
      Then(first, AppendAll(first.rest, chunks[1..]))
  }

  /** What has been parsed leaves a buffer that yields nothing more until bytes are added. */
  lemma {:induction false} LeftoverIsSpent(buf: seq<byte>)
    ensures Feed(Feed(buf).rest) == Outcome([], Feed(buf).rest, Feed(buf).error)
    decreases |buf|
  {
    if ParseMedia(buf).Parsed? {
      ConsumedBounds(buf);
      LeftoverIsSpent(buf[ParseMedia(buf).consumed..]);
    }
  }

  /**
   The parser does not see how the stream was cut: for any chunks, the concatenated results, the
   leftover and the error are those of the whole stream appended at once.
   */
  lemma {:induction false} ChunkIndependence(buf: seq<byte>, chunks: seq<seq<byte>>)
    ensures AppendAll(buf, chunks) == Feed(buf + Flat(chunks))
    decreases |chunks|
  {
    hide Feed;
    if chunks == [] {
      assert buf + Flat(chunks) == buf;
    } else {
      var first := Feed(buf + chunks[0]);
      var tail := Flat(chunks[1..]);
      ChunkIndependence(first.rest, chunks[1..]);
      assert buf + (chunks[0] + tail) == buf + chunks[0] + tail;
      FeedSplit(buf + chunks[0], tail);
    }
  }

  // ---- the one input the parser cannot handle

  /** A complete ADPCM unit with the right marker whose size field leaves no room for the block header. */
  predicate NoRoomForBlock(buf: seq<byte>)
  {
    && |buf| >= 12 && GetU32(buf, 0) == ADPCM && GetU16(buf, 4) < 4
    && |buf| >= 8 + GetU16(buf, 4) + PadLen(GetU16(buf, 4)) && GetU16(buf, 8) == ADPCM_HEADER
  }

  /** The block slice has its upper bound below its lower one exactly for such a unit. */
  lemma PanicsExactly(buf: seq<byte>)
    ensures ParseMedia(buf) == Failed(SlicePanic) <==> NoRoomForBlock(buf)
  {
    hide GetU16, GetU32;
  }

  /** The error of a buffer is that of what is left at the first unit that does not parse. */
  lemma {:induction false} ErrorIsOfLeftover(buf: seq<byte>)
    ensures !ParseMedia(Feed(buf).rest).Parsed?
    ensures Feed(buf).error == match ParseMedia(Feed(buf).rest) case Failed(e) => Some(e) case _ => None
    decreases |buf|
  {
    hide ParseMedia;
    if ParseMedia(buf).Parsed? {
      ConsumedBounds(buf);
      ErrorIsOfLeftover(buf[ParseMedia(buf).consumed..]);
    }
  }

  /** However it is cut, a stream panics exactly if such a unit comes first among those that do not parse. */
  lemma StreamPanicsExactly(chunks: seq<seq<byte>>)
    ensures AppendAll([], chunks).error == Some(SlicePanic) <==> NoRoomForBlock(AppendAll([], chunks).rest)
  {
    hide ParseMedia, Feed, AppendAll, NoRoomForBlock;
    ChunkIndependence([], chunks);
    ErrorIsOfLeftover([] + Flat(chunks));
    PanicsExactly(AppendAll([], chunks).rest);
  }

  /** An ADPCM unit of size 0: the marker is there, the block would be the slice from 12 to 8. */
  function PanickingUnit(seqNum: u16): seq<byte>
  {
    Le32(ADPCM) + Le16(0) + Le16(0) + Le16(ADPCM_HEADER) + Le16(seqNum)
  }

  /** That unit panics behind any units that parse, wherever the stream is cut. */
  lemma SizeZeroPanics(blocks: seq<seq<byte>>, seqNum: u16, rest: seq<byte>, chunks: seq<seq<byte>>)
    requires forall b :: b in blocks ==> |b| <= MAX_BLOCK
    requires Flat(chunks) == Flat(TalkUnits(blocks, seqNum)) + PanickingUnit(seqNum) + rest
    ensures AppendAll([], chunks) == Outcome(AdpcmPackets(blocks), PanickingUnit(seqNum) + rest, Some(SlicePanic))
  {
    hide ParseMedia, Feed, AppendAll, TalkUnits, PanickingUnit, AdpcmPackets, NoRoomForBlock;
    var units, bad := Flat(TalkUnits(blocks, seqNum)), PanickingUnit(seqNum) + rest;
    ChunkIndependence([], chunks);
    assert [] + Flat(chunks) == units + bad;
    TalkUnitsFeed(blocks, seqNum);
    FeedSplit(units, bad);
    assert [] + bad == bad;
    SizeZeroHasNoRoom(seqNum, rest);
    PanicsExactly(bad);
    FailedFeed(bad, SlicePanic);
    assert AdpcmPackets(blocks) + [] == AdpcmPackets(blocks);
  }

  lemma FailedFeed(buf: seq<byte>, e: MediaError)
    requires ParseMedia(buf) == Failed(e)
    ensures Feed(buf) == Outcome([], buf, Some(e))
  {
    hide ParseMedia;
  }

  lemma SizeZeroHasNoRoom(seqNum: u16, rest: seq<byte>)
    ensures NoRoomForBlock(PanickingUnit(seqNum) + rest)
  {
    hide Le16, Le32, GetU16, GetU32;
    var buf := PanickingUnit(seqNum) + rest;
    assert buf[0..0 + 4] == Le32(ADPCM) && buf[4..4 + 2] == Le16(0) && buf[8..8 + 2] == Le16(ADPCM_HEADER);
    ReadBackU32(buf, 0, ADPCM);
    ReadBackU16(buf, 4, 0);
    ReadBackU16(buf, 8, ADPCM_HEADER);
  }

  class MediaParser {
    var buf: seq<byte>

    constructor ()
      ensures buf == []
    {
      buf := [];
    }

    /** Append: take in the data, then parse until more is needed or something is wrong. */
    method Append(data: seq<byte>) returns (out: seq<MediaPacket>, err: Option<MediaError>)
      modifies this
      ensures Feed(old(buf) + data) == Outcome(out, buf, err)
    {
      ghost var whole := Feed(buf + data);
      buf := buf + data;
      out, err := [], None;
      while true
        invariant whole == Then(Outcome(out, [], None), Feed(buf))
        decreases |buf|
      {
        match ParseMedia(buf) {
          case Failed(e) => return out, Some(e);
          case NeedMore => return out, None;
          case Parsed(packet, consumed) =>
            ConsumedBounds(buf);
            var tail := Feed(buf[consumed..]).packets;
            assert out + ([packet] + tail) == out + [packet] + tail;
            buf := buf[consumed..];
            out := out + [packet];
        }
      }
    }
  }

  // ---- the talk block serializer

  const MAX_BLOCK := 0xFFFF - 4

  function SizeField(block: seq<byte>): u16 { (|block| + 4) % TWO16 }

  function TalkHeader(block: seq<byte>, seqNum: u16): (h: seq<byte>)
    ensures |h| == 12
  {
    Le32(ADPCM) + Le16(SizeField(block)) + Le16(SizeField(block)) + Le16(ADPCM_HEADER) + Le16(seqNum)
  }

  function TalkUnit(block: seq<byte>, seqNum: u16): seq<byte>
  {
    TalkHeader(block, seqNum) + block + Zeros(PadLen(|block| + 4))
  }

  /** serializeTalkADPCMBlock: a zeroed buffer of the padded size, filled in place. */
  method SerializeTalkAdpcmBlock(block: seq<byte>, seqNum: u16) returns (out: array<byte>)
    ensures fresh(out) && out[..] == TalkUnit(block, seqNum)
  {
    hide PadLen, TalkHeader;
    var payloadSize := |block| + 4;
    var total := 8 + payloadSize + PadLen(payloadSize);
    out := new byte[total](_ => 0);
    ghost var n, zeros := |block|, out[12..];
    PutTalkHeader(out, payloadSize % TWO16, block, seqNum);
    assert out[12 + n..] == zeros[n..] == Zeros(PadLen(payloadSize));
    CopyInto(out, 12, block);
    assert out[..12] == TalkHeader(block, seqNum);
    assert out[12 + n..] == Zeros(PadLen(payloadSize));
    assert out[..] == out[..12] + out[12..12 + n] + out[12 + n..];
  }

  method PutTalkHeader(out: array<byte>, size: u16, ghost block: seq<byte>, seqNum: u16)
    requires out.Length >= 12 && size == SizeField(block)
    modifies out
    ensures out[..12] == TalkHeader(block, seqNum) && out[12..] == old(out[12..])
  {
    hide Le16, Le32, SizeField;
    PutU32(out, 0, ADPCM);
    assert out[..4] == out[0..4] && out[12..] == out[4..][8..];
    PutU16(out, 4, size);
    assert out[..6] == out[..4] + out[4..6] && out[12..] == out[6..][6..];
    PutU16(out, 6, size);
    assert out[..8] == out[..6] + out[6..8] && out[12..] == out[8..][4..];
    PutU16(out, 8, ADPCM_HEADER);
    assert out[..10] == out[..8] + out[8..10] && out[12..] == out[10..][2..];
    PutU16(out, 10, seqNum);
    assert out[..12] == out[..10] + out[10..12];
  }

  lemma TalkFields(block: seq<byte>, seqNum: u16, rest: seq<byte>)
    ensures var buf := TalkUnit(block, seqNum) + rest;
      && |buf| >= 12
      && GetU32(buf, 0) == ADPCM && GetU16(buf, 4) == SizeField(block) && GetU16(buf, 8) == ADPCM_HEADER
  {
    hide Le16, Le32, PadLen, GetU32, GetU16;
    var buf := TalkUnit(block, seqNum) + rest;
    assert buf[..12] == TalkHeader(block, seqNum);
    var h := buf[..12];
    assert buf[0..0 + 4] == h[..4] == Le32(ADPCM);
    assert buf[4..4 + 2] == h[4..6] == Le16(SizeField(block));
    assert buf[8..8 + 2] == h[8..10] == Le16(ADPCM_HEADER);
    ReadBackU32(buf, 0, ADPCM);
    ReadBackU16(buf, 4, SizeField(block));
    ReadBackU16(buf, 8, ADPCM_HEADER);
  }

  /**
   A serialized block, followed by anything, is read back as exactly that block if and only if its
   size fits the 16-bit size field.
   */
  lemma TalkBlockRoundTrip(block: seq<byte>, seqNum: u16, rest: seq<byte>)
    ensures ParseMedia(TalkUnit(block, seqNum) + rest) ==
      Parsed(PlainPacket(KindADPCM, block), |TalkUnit(block, seqNum)|)
      <==> |block| <= 65531
  {
    hide Le16, Le32, GetU32, GetU16, TalkHeader;
    var buf := TalkUnit(block, seqNum) + rest;
    TalkFields(block, seqNum, rest);
    assert ParseMedia(buf) == ParseAdpcm(buf);
    if |block| <= MAX_BLOCK {
      assert SizeField(block) == |block| + 4;
      assert buf[12..8 + (|block| + 4)] == block;
    } else if ParseAdpcm(buf).Parsed? {
      var size: nat := SizeField(block);
      assert |buf[12..8 + size]| == size - 4 < |block|;
    }
  }

  function TalkUnits(blocks: seq<seq<byte>>, seqNum: nat): seq<seq<byte>>
  {
    if blocks == [] then [] else [TalkUnit(blocks[0], seqNum % TWO16)] + TalkUnits(blocks[1..], seqNum + 1)
  }

  function AdpcmPackets(blocks: seq<seq<byte>>): seq<MediaPacket>
  {
    if blocks == [] then [] else [PlainPacket(KindADPCM, blocks[0])] + AdpcmPackets(blocks[1..])
  }

  /** A whole talk stream, however it is cut in transit, is parsed into its blocks with nothing left over. */
  lemma {:induction false} TalkStreamRoundTrip(blocks: seq<seq<byte>>, seqNum: nat, chunks: seq<seq<byte>>)
    requires forall b :: b in blocks ==> |b| <= MAX_BLOCK
    requires Flat(chunks) == Flat(TalkUnits(blocks, seqNum))
    ensures AppendAll([], chunks) == Outcome(AdpcmPackets(blocks), [], None)
  {
    ChunkIndependence([], chunks);
    assert [] + Flat(chunks) == Flat(chunks);
    TalkUnitsFeed(blocks, seqNum);
  }

  lemma {:induction false} TalkUnitsFeed(blocks: seq<seq<byte>>, seqNum: nat)
    requires forall b :: b in blocks ==> |b| <= MAX_BLOCK
    ensures Feed(Flat(TalkUnits(blocks, seqNum))) == Outcome(AdpcmPackets(blocks), [], None)
    decreases |blocks|
  {
    hide ParseMedia, TalkUnit;
    if blocks == [] {
      NothingToFeed();
    } else {
      var unit, units := TalkUnit(blocks[0], seqNum % TWO16), TalkUnits(blocks[1..], seqNum + 1);
      assert ([unit] + units)[1..] == units;
      var buf := unit + Flat(units);
      TalkBlockRoundTrip(blocks[0], seqNum % TWO16, Flat(units));
      TalkUnitsFeed(blocks[1..], seqNum + 1);
      assert buf[|unit|..] == Flat(units);
    }
  }

  lemma NothingToFeed()
    ensures Feed([]) == Outcome([], [], None)
  {
  }
}
