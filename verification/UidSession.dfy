/**
 One end of the reliable P2P transport (pkg/baichuan/uid.go): cutting writes into chunks, numbering,
 acknowledging, reordering and reading. The values and functions say what each critical section does
 to the session; the class does it step by step on its own fields.
 */
module UidSession {
  import opened Bytes
  import opened UdpPacket

  type Chunk = seq<byte>

  const BUFFER_LIMIT := 1024
  const QUEUE_CAP := 128
  const BITMAP_CAP := 200

  /** Where the write loop stands. A packet is transmitted before it is recorded as sent. */
  datatype Phase =
    | Idle
    | Numbered(id: nat, chunk: Chunk)
    | Transmitted(id: nat, packet: seq<byte>)
    | AckDue
    | AckReady(body: AckBody)

  /**
   The state of a session. Three fields are history: offered holds the bytes passed to Write (without
   those Write reported as not written), numbered the chunk sent under each packet ID, delivered the
   bytes handed out by Read.
   */
  datatype Endpoint = Endpoint(
    mtu: nat, clientID: i32, cameraID: i32,
    offered: seq<byte>, writing: seq<byte>, writeQueue: seq<Chunk>,
    numbered: seq<Chunk>, phase: Phase, sent: map<nat, seq<byte>>,
    recv: map<nat, Chunk>, consumed: nat, hasConsumed: bool,
    draining: seq<Chunk>, readQueue: seq<Chunk>, readBuf: seq<byte>, delivered: seq<byte>,
    readerUp: bool, writerUp: bool)

  // ---- receiving

  /** How many packets have been taken out of the receive buffer, hence the ID it waits for. */
  function Count(e: Endpoint): nat { if e.hasConsumed then e.consumed + 1 else 0 }

  /** Everything the session has put in order for its reader. */
  function Stream(e: Endpoint): seq<byte>
  {
    e.delivered + e.readBuf + Flat(e.readQueue) + Flat(e.draining)
  }

  /** A packet has reached the session: delivered to its reader or held in the receive buffer. */
  predicate Reached(e: Endpoint, id: nat) { id < Count(e) || id in e.recv }

  datatype Drained = Drained(chunks: seq<Chunk>, rest: map<nat, Chunk>, next: nat)

  /** The run of consecutive packets from next on, and what is left of the store. */
  function Drain(store: map<nat, Chunk>, next: nat): (d: Drained)
    ensures d.next == next + |d.chunks|
    decreases |store|
  {
    if next in store then
      assert |store - {next}| < |store| by {
        assert (store - {next}).Keys == store.Keys - {next};
      }
      var d := Drain(store - {next}, next + 1);
      Drained([store[next]] + d.chunks, d.rest, d.next)
    else Drained([], store, next)
  }

  /** d is the longest run of store from next on, each payload under its own ID; the rest stays. */
  ghost predicate LongestRun(store: map<nat, Chunk>, next: nat, d: Drained)
  {
    && d.next == next + |d.chunks| && d.next !in d.rest
    && (forall id: nat :: next <= id < d.next ==> id in store && d.chunks[id - next] == store[id])
    && (forall id: nat :: id in d.rest <==> id in store && !(next <= id < d.next))
    && (forall id: nat :: id in d.rest ==> d.rest[id] == store[id])
  }

  lemma {:induction false} DrainMeaning(store: map<nat, Chunk>, next: nat)
    ensures LongestRun(store, next, Drain(store, next))
    decreases |store|
  {
    if next in store {
      DrainStep(store, next);
      DrainMeaning(store - {next}, next + 1);
      RunGrows(store, next, Drain(store - {next}, next + 1));
    }
  }

  lemma RunGrows(store: map<nat, Chunk>, next: nat, r: Drained)
    requires next in store && LongestRun(store - {next}, next + 1, r)
    ensures LongestRun(store, next, Prepend([store[next]], r))
  {
    var d, left := Prepend([store[next]], r), store - {next};
    forall id: nat | next <= id < d.next
      ensures id in store && d.chunks[id - next] == store[id]
    {
      if id > next {
        assert id in left && r.chunks[id - (next + 1)] == left[id];
        assert d.chunks[id - next] == r.chunks[id - (next + 1)];
      }
    }
  }

  function Prepend(chunks: seq<Chunk>, d: Drained): Drained { d.(chunks := chunks + d.chunks) }

  lemma PrependMore(chunks: seq<Chunk>, chunk: Chunk, d: Drained)
    ensures Prepend(chunks, Prepend([chunk], d)) == Prepend(chunks + [chunk], d)
  {
    assert chunks + ([chunk] + d.chunks) == chunks + [chunk] + d.chunks;
  }

  lemma DrainStep(store: map<nat, Chunk>, next: nat)
    requires next in store
    ensures |store - {next}| < |store|
    ensures Drain(store, next) == Prepend([store[next]], Drain(store - {next}, next + 1))
  {
    assert (store - {next}).Keys == store.Keys - {next};
  }

  /** The first copy of a packet wins. */
  function Store(store: map<nat, Chunk>, id: nat, payload: Chunk): map<nat, Chunk>
  {
    if id in store then store else store[id := payload]
  }

  function OnData(e: Endpoint, id: nat, payload: Chunk): Endpoint
  {
    if |e.recv| > BUFFER_LIMIT then e.(readerUp := false) else TakenIn(e, id, payload)
  }

  function TakenIn(e: Endpoint, id: nat, payload: Chunk): Endpoint
  {
    var d := Drain(Store(e.recv, id, payload), Count(e));
    e.(recv := d.rest, draining := d.chunks,
       consumed := if d.next == Count(e) then e.consumed else d.next - 1,
       hasConsumed := e.hasConsumed || d.next > 0)
  }

  /** A second copy of a buffered packet changes nothing about the first, whatever it carries. */
  lemma FirstCopyWins(e: Endpoint, id: nat, payload: Chunk)
    requires id in e.recv
    ensures OnData(e, id, payload) == OnData(e, id, e.recv[id])
    ensures |e.recv| <= 1024 && Count(e) !in e.recv ==> OnData(e, id, payload) == e.(draining := [])
  {
  }

  /** The limit is checked before the packet is looked at, and nothing else ends the reader here. */
  lemma OverflowEndsReader(e: Endpoint, id: nat, payload: Chunk)
    ensures e.readerUp ==> (!OnData(e, id, payload).readerUp <==> |e.recv| > 1024)
    ensures |e.recv| > BUFFER_LIMIT ==> OnData(e, id, payload) == e.(readerUp := false)
  {
    hide Drain;
  }

  lemma OnDataBranches(e: Endpoint, id: nat, payload: Chunk)
    ensures |e.recv| > BUFFER_LIMIT ==> OnData(e, id, payload) == e.(readerUp := false)
    ensures |e.recv| <= BUFFER_LIMIT ==> OnData(e, id, payload) == TakenIn(e, id, payload)
  {
    hide TakenIn;
  }

  lemma DrainedIsTakenIn(e: Endpoint, id: nat, payload: Chunk, chunks: seq<Chunk>, rest: map<nat, Chunk>,
                         consumed: nat, has: bool)
    requires Drain(Store(e.recv, id, payload), Count(e)) == Drained(chunks, rest, Count(e) + |chunks|)
    requires consumed == if chunks == [] then e.consumed else Count(e) + |chunks| - 1
    requires has == (e.hasConsumed || chunks != [])
    ensures TakenIn(e, id, payload) == e.(recv := rest, draining := chunks, consumed := consumed, hasConsumed := has)
  {
    hide Drain, Store;
  }

  // ---- acknowledging

  datatype AckBody = AckBody(start: nat, bitmap: seq<byte>)

  ghost function Largest(s: set<nat>): (m: nat)
    requires s != {}
    ensures m in s && forall k :: k in s ==> k <= m
  {
    var k :| k in s;
    if s == {k} then k
    else
      var m := Largest(s - {k});
      assert s == (s - {k}) + {k};
      if k > m then k else m
  }

  /** The bitmap reports the IDs after start up to the largest buffered one, at most 200 of them. */
  ghost function BitmapLength(store: map<nat, Chunk>, start: nat): nat
  {
    if store == map[] || Largest(store.Keys) < start then 0
    else Min(Largest(store.Keys) - start, BITMAP_CAP)
  }

  ghost function Bitmap(store: map<nat, Chunk>, start: nat): (b: seq<byte>)
    ensures |b| == BitmapLength(store, start)
    ensures forall i :: 0 <= i < |b| ==> (b[i] != 0 <==> start + 1 + i in store)
  {
    seq(BitmapLength(store, start), i => if start + 1 + i in store then 1 else 0)
  }

  /** ackWindow: nothing before the first delivery, then the cumulative ID and the bitmap after it. */
  ghost function AckWindow(store: map<nat, Chunk>, consumed: nat, hasConsumed: bool): Option<AckBody>
  {
    if !hasConsumed then None
    else
      var start := Drain(store, consumed + 1).next - 1;
      Some(AckBody(start, Bitmap(store, start)))
  }

  /**
   What the bytes behind the cumulative ID tell the peer: one for each ID up to the largest held one, but for no
   more than 200; 1 for an ID that is held, 0 for one that is not.
   */
  ghost predicate ReportsHeld(store: map<nat, Chunk>, start: nat, bitmap: seq<byte>)
  {
    && |bitmap| <= 200
    && (forall id: nat :: id in store && start < id <= start + 200 ==>
          id - start - 1 < |bitmap| && bitmap[id - start - 1] != 0)
    && (forall i: nat :: i < |bitmap| ==> bitmap[i] == if start + 1 + i in store then 1 else 0)
    && (bitmap != [] ==> exists id: nat :: id in store && id >= start + |bitmap|)
  }

  /** There is an acknowledgement from the first delivery on; its ID ends the gapless run behind the consumed one. */
  lemma AckWindowMeaning(store: map<nat, Chunk>, consumed: nat, hasConsumed: bool)
    ensures AckWindow(store, consumed, hasConsumed).None? <==> !hasConsumed
    ensures var w := AckWindow(store, consumed, hasConsumed);
      w.Some? ==>
        var start := w.value.start;
        && consumed <= start && start + 1 !in store && (forall id: nat :: consumed < id <= start ==> id in store)
        && ReportsHeld(store, start, w.value.bitmap)
  {
    hide Drain, Bitmap, ReportsHeld;
    if hasConsumed {
      RunEnds(store, consumed);
      BitmapMeaning(store, Drain(store, consumed + 1).next - 1);
    }
  }

  lemma RunEnds(store: map<nat, Chunk>, consumed: nat)
    ensures var start := Drain(store, consumed + 1).next - 1;
      consumed <= start && start + 1 !in store && forall id: nat :: consumed < id <= start ==> id in store
  {
    hide Drain;
    DrainMeaning(store, consumed + 1);
  }

  lemma BitmapMeaning(store: map<nat, Chunk>, start: nat)
    ensures ReportsHeld(store, start, Bitmap(store, start))
  {
    hide BitmapLength;
    BitmapReaches(store, start);
    var bitmap := Bitmap(store, start);
    forall id: nat | id in store && start < id <= start + 200
      ensures id - start - 1 < |bitmap| && bitmap[id - start - 1] != 0
    {
      assert start + 1 + (id - start - 1) == id;
    }
  }

  lemma BitmapReaches(store: map<nat, Chunk>, start: nat)
    ensures BitmapLength(store, start) <= 200
    ensures forall id: nat :: id in store && start < id <= start + 200 ==> id - start - 1 < BitmapLength(store, start)
    ensures BitmapLength(store, start) > 0 ==> exists id: nat :: id in store && id >= start + BitmapLength(store, start)
  {
  }

  /** The IDs an acknowledgement speaks for. */
  predicate Covers(start: nat, bitmap: seq<byte>, id: nat)
  {
    id <= start || (id - start - 1 < |bitmap| && bitmap[id - start - 1] != 0)
  }

  function Prune(sent: map<nat, seq<byte>>, start: nat, bitmap: seq<byte>): map<nat, seq<byte>>
  {
    map id | id in sent && !Covers(start, bitmap, id) :: sent[id]
  }

  // ---- one datagram

  /** ReadFromUDP cuts a datagram that is longer than the receive buffer. */
  function Cut(bytes: seq<byte>, mtu: nat): seq<byte> { bytes[..Min(|bytes|, mtu)] }

  /** The packet a session reads out of a datagram, if it carries the session's connection ID. */
  function Accepted(e: Endpoint, bytes: seq<byte>): (p: Option<Packet>)
    ensures p.Some? ==> !p.value.Discovery? && p.value.connectionID == e.clientID
  {
    match Parse(Cut(bytes, e.mtu))
    case Rejected(_) => None
    case Parsed(p) => if p.Discovery? || p.connectionID != e.clientID then None else Some(p)
  }

  function OnDatagram(e: Endpoint, bytes: seq<byte>): Endpoint
  {
    match Accepted(e, bytes)
    case None => e
    case Some(p) =>
      if p.Ack? then e.(sent := Prune(e.sent, p.packetID, p.payload))
      else OnData(e, p.packetID, p.payload)
  }

  // ---- writing

  function MaxPayload(mtu: nat): int { mtu - 20 }

  function DataPacket(connectionID: i32, id: nat, chunk: Chunk): seq<byte>
  {
    Encode(Data(connectionID, id % TWO32, chunk))
  }

  function AckPacket(connectionID: i32, body: AckBody): seq<byte>
  {
    Encode(Ack(connectionID, body.start % TWO32, body.bitmap))
  }

  /** One turn of the loop in Write: the next chunk of the bytes still to be written. */
  function NextChunk(e: Endpoint): Chunk
    requires MaxPayload(e.mtu) > 0
  {
    e.writing[..Min(|e.writing|, MaxPayload(e.mtu))]
  }

  function PushChunk(e: Endpoint): (e': Endpoint)
    requires MaxPayload(e.mtu) > 0
  {
    var chunk := NextChunk(e);
    e.(writing := e.writing[|chunk|..], writeQueue := e.writeQueue + [chunk])
  }

  /** The send half of the write loop: a chunk gets the next packet ID unless too much is unacknowledged. */
  function TakeChunk(e: Endpoint): Endpoint
    requires e.writeQueue != []
  {
    if |e.sent| > BUFFER_LIMIT then OverflowWriter(e) else NumberNext(e)
  }

  function OverflowWriter(e: Endpoint): Endpoint
    requires e.writeQueue != []
  {
    e.(writeQueue := e.writeQueue[1..], writerUp := false)
  }

  function NumberNext(e: Endpoint): Endpoint
    requires e.writeQueue != []
  {
    var chunk := e.writeQueue[0];
    e.(writeQueue := e.writeQueue[1..], numbered := e.numbered + [chunk], phase := Numbered(|e.numbered|, chunk))
  }

  /** The numbered chunk goes out as a data packet. */
  function TransmitChunk(e: Endpoint): Endpoint
    requires e.phase.Numbered?
  {
    e.(phase := Transmitted(e.phase.id, DataPacket(e.cameraID, e.phase.id, e.phase.chunk)))
  }

  /** Only afterwards the packet is put on record. */
  function RecordPacket(e: Endpoint): Endpoint
    requires e.phase.Transmitted?
  {
    e.(phase := Idle, sent := e.sent[e.phase.id := e.phase.packet])
  }

  // ---- reading

  /** readLoop hands one drained chunk on. */
  function ForwardChunk(e: Endpoint): Endpoint
    requires e.draining != []
  {
    e.(draining := e.draining[1..], readQueue := e.readQueue + [e.draining[0]])
  }

  /** Read moves one chunk from the queue to its buffer. */
  function FetchChunk(e: Endpoint): Endpoint
    requires e.readQueue != []
  {
    e.(readBuf := e.readBuf + e.readQueue[0], readQueue := e.readQueue[1..])
  }

  /** Read hands out up to n bytes of its buffer. */
  function HandOutBytes(e: Endpoint, n: nat): Endpoint
  {
    var k := Min(n, |e.readBuf|);
    e.(readBuf := e.readBuf[k..], delivered := e.delivered + e.readBuf[..k])
  }

  /** The loop of Read: fetch until the buffer holds something or the queue is empty. */
  function Refill(e: Endpoint): Endpoint
    decreases |e.readQueue|
  {
    if e.readBuf == [] && e.readQueue != [] then Refill(FetchChunk(e)) else e
  }

  lemma {:induction false} RefillKeepsStream(e: Endpoint)
    ensures Stream(Refill(e)) == Stream(e)
    ensures Refill(e).readBuf == [] ==> Refill(e).readQueue == []
    decreases |e.readQueue|
  {
    hide Flat;
    if e.readBuf == [] && e.readQueue != [] {
      RefillKeepsStream(FetchChunk(e));
      FetchKeepsStream(e);
    }
  }

  lemma FetchKeepsStream(e: Endpoint)
    requires e.readQueue != []
    ensures Stream(FetchChunk(e)) == Stream(e)
  {
    hide Flat;
    FlatHead(e.readQueue);
    assert e.delivered + (e.readBuf + e.readQueue[0]) + Flat(e.readQueue[1..]) ==
      e.delivered + e.readBuf + (e.readQueue[0] + Flat(e.readQueue[1..]));
  }

  lemma HandOutKeepsStream(e: Endpoint, n: nat)
    ensures Stream(HandOutBytes(e, n)) == Stream(e)
  {
    hide Flat;
    Handover(e.delivered, e.readBuf, Min(n, |e.readBuf|), Flat(e.readQueue));
  }

  lemma ForwardKeepsStream(e: Endpoint)
    requires e.draining != []
    ensures Stream(ForwardChunk(e)) == Stream(e)
  {
    hide Flat;
    ForwardedChunk(e.readQueue, e.draining);
    var before, e' := e.delivered + e.readBuf, ForwardChunk(e);
    assert before + Flat(e.readQueue) + Flat(e.draining) == before + (Flat(e.readQueue) + Flat(e.draining));
    assert before + Flat(e'.readQueue) + Flat(e'.draining) == before + (Flat(e'.readQueue) + Flat(e'.draining));
  }

  lemma ParsedPayloadIsShort(buf: seq<byte>)
    requires Parse(buf).Parsed?
    ensures |Parse(buf).packet.payload| < TWO32
  {
    hide GetU32, ToI32, UdpChecksum.Checksum;
  }

  /** The pieces Write cuts a buffer into. */
  function Chunks(p: seq<byte>, size: nat): (cs: seq<Chunk>)
    requires size > 0
    ensures forall c :: c in cs ==> 0 < |c| <= size
    ensures Flat(cs) == p
    decreases |p|
  {
    if p == [] then []
    else
      var n := Min(|p|, size);
      assert p == p[..n] + p[n..];
      [p[..n]] + Chunks(p[n..], size)
  }

  /** The acknowledgement half of a tick. */
  ghost function ComputeAck(e: Endpoint): Endpoint
  {
    match AckWindow(e.recv, e.consumed, e.hasConsumed)
    case None => e.(phase := Idle)
    case Some(body) => e.(phase := AckReady(body))
  }

  function Initial(mtu: nat, clientID: i32, cameraID: i32): Endpoint
  {
    Endpoint(mtu, clientID, cameraID, [], [], [], [], Idle, map[], map[], 0, false, [], [], [], [], true, true)
  }

  // ---- facts about chunks and buffers

  lemma ChunksStep(p: seq<byte>, size: nat)
    requires size > 0 && p != []
    ensures var n := Min(|p|, size); Chunks(p, size) == [p[..n]] + Chunks(p[n..], size)
  {
  }

  lemma NoChunks(size: nat)
    requires size > 0
    ensures Chunks([], size) == []
  {
  }

  /** How many of n bytes fit into room chunks. */
  function Fitting(n: nat, room: nat, size: nat): nat { Min(n, room * size) }

  /** All chunks but the last are full. */
  lemma {:induction false} ChunksAreFull(p: seq<byte>, size: nat, i: nat)
    requires size > 0 && i + 1 < |Chunks(p, size)|
    ensures |Chunks(p, size)[i]| == size
    decreases i
  {
    var rest := p[Min(|p|, size)..];
    ChunksStep(p, size);
    if i > 0 {
      ChunksAreFull(rest, size, i - 1);
    } else if rest == [] {
      NoChunks(size);
    }
  }

  /** The writer gives up exactly with more than 1024 packets unacknowledged, else numbers the chunk. */
  lemma OverflowEndsWriter(e: Endpoint)
    requires e.writeQueue != [] && e.writerUp
    ensures !TakeChunk(e).writerUp <==> |e.sent| > 1024
    ensures TakeChunk(e).numbered == if |e.sent| > 1024 then e.numbered else e.numbered + [e.writeQueue[0]]
    ensures TakeChunk(e).writeQueue == e.writeQueue[1..] && TakeChunk(e).sent == e.sent
  {
  }

  lemma FittingStep(n: nat, room: nat, size: nat)
    requires n > 0 && size > 0
    ensures room == 0 ==> Fitting(n, room, size) == 0
    ensures room > 0 ==> var c := Min(n, size); Fitting(n, room, size) == c + Fitting(n - c, room - 1, size)
  {
    if room > 0 {
      assert room * size == (room - 1) * size + size && (room - 1) * size >= 0;
    }
  }

  lemma FittingAtMost(n: nat, room: nat, size: nat)
    ensures Fitting(n, room, size) <= n
  {
  }

  lemma SplitAt(rest: seq<byte>, todo: seq<byte>, n: nat)
    requires n <= |todo| && todo <= rest
    ensures todo[..n] == rest[..n] && todo[n..] <= rest[n..] && todo == rest[..n] + todo[n..]
  {
  }

  lemma Regroup(done: seq<Chunk>, chunk: Chunk, rest: seq<Chunk>)
    ensures done + ([chunk] + rest) == done + [chunk] + rest
  {
  }

  lemma FlatHead(cs: seq<Chunk>)
    requires cs != []
    ensures Flat(cs) == cs[0] + Flat(cs[1..])
  {
  }

  lemma ForwardedChunk(queue: seq<Chunk>, chunks: seq<Chunk>)
    requires chunks != []
    ensures Flat(queue + [chunks[0]]) + Flat(chunks[1..]) == Flat(queue) + Flat(chunks)
  {
    FlatAppend(queue, [chunks[0]]);
    FlatOne(chunks[0]);
    FlatHead(chunks);
  }

  /** Moving k bytes from the buffer to the reader changes nothing about their order. */
  lemma Handover(delivered: seq<byte>, buf: seq<byte>, k: nat, queued: seq<byte>)
    requires k <= |buf|
    ensures delivered + buf[..k] + buf[k..] + queued == delivered + (buf + queued)
    ensures delivered + buf + queued == delivered + (buf + queued)
  {
    assert buf == buf[..k] + buf[k..];
  }

  // ---- the session object

  /** contiguousPayloads: take the consecutive run out of the store, chunk by chunk. */
  method ContiguousPayloads(store: map<nat, Chunk>, consumed: nat, hasConsumed: bool)
    returns (results: seq<Chunk>, rest: map<nat, Chunk>, consumed': nat, hasConsumed': bool)
    ensures var first := if hasConsumed then consumed + 1 else 0;
      && Drain(store, first) == Drained(results, rest, first + |results|)
      && consumed' == (if results == [] then consumed else first + |results| - 1)
      && hasConsumed' == (hasConsumed || results != [])
  {
    hide Drain;
    results, rest, consumed', hasConsumed' := [], store, consumed, hasConsumed;
    var next := 0;
    if hasConsumed {
      next := consumed + 1;
    }
    ghost var first, d := next, Drain(store, next);
    while next in rest
      invariant next == first + |results|
      invariant consumed' == if results == [] then consumed else next - 1
      invariant hasConsumed' == (hasConsumed || results != [])
      invariant d == Prepend(results, Drain(rest, next))
      decreases |rest|
    {
      DrainStep(rest, next);
      var payload := rest[next];
      PrependMore(results, payload, Drain(rest - {next}, next + 1));
      rest := rest - {next};
      results := results + [payload];
      consumed' := next;
      hasConsumed' := true;
      next := next + 1;
    }
    DrainStop(rest, next);
  }

  lemma DrainStop(store: map<nat, Chunk>, next: nat)
    requires next !in store
    ensures Drain(store, next) == Drained([], store, next)
  {
  }

  /** ackWindow: walk past the buffered run, find the largest buffered ID, then fill the bitmap. */
  method ComputeAckWindow(store: map<nat, Chunk>, consumed: nat, hasConsumed: bool) returns (window: Option<AckBody>)
    ensures window == AckWindow(store, consumed, hasConsumed)
  {
    hide Drain;
    if !hasConsumed {
      return None;
    }
    var start := WalkPastRun(store, consumed);
    if store == map[] {
      return Some(AckBody(start, []));
    }
    var end := LastKey(store.Keys);
    if end < start {
      return Some(AckBody(start, []));
    }
    if end - start > BITMAP_CAP {
      end := start + BITMAP_CAP;
    }
    var payload := FillBitmap(store, start, end);
    window := Some(AckBody(start, payload));
  }

  method WalkPastRun(store: map<nat, Chunk>, consumed: nat) returns (start: nat)
    ensures start == Drain(store, consumed + 1).next - 1
  {
    hide Drain;
    start := consumed;
    ghost var left := store;
    while start + 1 in store
      invariant start >= consumed
      invariant forall id :: id > start ==> (id in left <==> id in store)
      invariant Drain(left, start + 1).next == Drain(store, consumed + 1).next
      decreases |left|
    {
      DrainStep(left, start + 1);
      left := left - {start + 1};
      start := start + 1;
    }
    DrainStop(left, start + 1);
  }

  method FillBitmap(store: map<nat, Chunk>, start: nat, end: nat) returns (payload: seq<byte>)
    requires end == start + BitmapLength(store, start)
    ensures payload == Bitmap(store, start)
  {
    hide BitmapLength;
    payload := [];
    for id := start + 1 to end + 1
      invariant payload == Bitmap(store, start)[..id - start - 1]
    {
      if id in store {
        payload := payload + [1];
      } else {
        payload := payload + [0];
      }
    }
  }

  /** The last of the sorted keys. */
  method LastKey(keys: set<nat>) returns (last: nat)
    requires keys != {}
    ensures last == Largest(keys)
  {
    last :| last in keys;
    var left := keys - {last};
    while left != {}
      invariant left <= keys && last in keys && last !in left
      invariant forall k :: k in keys && k !in left ==> k <= last
      decreases left
    {
      var k :| k in left;
      left := left - {k};
      if k > last {
        last := k;
      }
    }
  }

  /** The ack branch of readLoop: drop everything up to the cumulative ID, then everything flagged. */
  method PruneSent(sent: map<nat, seq<byte>>, start: u32, bitmap: seq<byte>) returns (left: map<nat, seq<byte>>)
    requires |bitmap| < TWO32 && forall id :: id in sent ==> id < TWO32
    ensures left == Prune(sent, start, bitmap)
  {
    left := sent;
    var todo := sent.Keys;
    while todo != {}
      invariant todo <= sent.Keys
      invariant left == map id | id in sent && (id in todo || id > start) :: sent[id]
      decreases todo
    {
      var id :| id in todo;
      todo := todo - {id};
      if id <= start {
        left := left - {id};
      }
    }
    for idx := 0 to |bitmap|
      invariant left == map id | id in sent && !Covers(start, bitmap[..idx], id) :: sent[id]
    {
      if bitmap[idx] != 0 {
        // uint32 addition; an index past 2^32 names an ID that is already gone
        left := left - {(start + 1 + idx) % TWO32};
      }
      CoversOneMore(start, bitmap, idx);
    }
    assert bitmap[..|bitmap|] == bitmap;
  }

  lemma CoversOneMore(start: u32, bitmap: seq<byte>, idx: nat)
    requires idx < |bitmap|
    ensures forall id :: Covers(start, bitmap[..idx + 1], id) <==>
      Covers(start, bitmap[..idx], id) || (id == start + 1 + idx && bitmap[idx] != 0)
  {
    forall id: nat
      ensures Covers(start, bitmap[..idx + 1], id) <==>
        Covers(start, bitmap[..idx], id) || (id == start + 1 + idx && bitmap[idx] != 0)
    {
      var i := id - start - 1;
      if 0 <= i < idx {
        assert bitmap[..idx + 1][i] == bitmap[..idx][i];
      }
    }
  }

  lemma EnqueueStep(done: seq<Chunk>, rest: seq<byte>, todo: seq<byte>, n: nat, size: nat)
    requires size > 0 && n == Min(|rest|, size) && 0 < n <= |todo| && todo <= rest
    ensures todo[n..] <= rest[n..]
    ensures done + [rest[..n]] + Chunks(todo[n..], size) == done + Chunks(todo, size)
  {
    hide Chunks, Flat;
    assert Min(|todo|, size) == n;
    ChunksStep(todo, size);
    SplitAt(rest, todo, n);
    Regroup(done, rest[..n], Chunks(todo[n..], size));
  }

  /** The loop of Write: chunk after chunk into the queue while it takes them. */
  method Enqueue(queue: seq<Chunk>, p: seq<byte>, room: nat, maxPayload: nat) returns (queue': seq<Chunk>, written: nat)
    requires maxPayload > 0
    ensures written == Fitting(|p|, room, maxPayload) <= |p|
    ensures queue' == queue + Chunks(p[..written], maxPayload)
  {
    hide Chunks, Fitting, Flat;
    queue', written := queue, 0;
    var rest := p;
    var left := room;
    ghost var total := Fitting(|p|, room, maxPayload);
    FittingAtMost(|p|, room, maxPayload);
    // what is queued before the session closes, and the part of it still to be queued
    ghost var todo, done := p[..total], [];
    while |rest| > 0
      invariant |todo| == Fitting(|rest|, left, maxPayload) && todo <= rest
      invariant written + |todo| == total && written + |rest| == |p|
      invariant queue' == queue + done
      invariant done + Chunks(todo, maxPayload) == Chunks(p[..total], maxPayload)
      decreases |rest|
    {
      FittingStep(|rest|, left, maxPayload);
      if left == 0 {
        break;
      }
      var chunkLen := Min(|rest|, maxPayload);
      var chunk := rest[..chunkLen];
      left := left - 1;
      EnqueueStep(done, rest, todo, chunkLen, maxPayload);
      queue' := queue' + [chunk];
      done := done + [chunk];
      todo := todo[chunkLen..];
      rest := rest[chunkLen..];
      written := written + chunkLen;
    }
    NoChunks(maxPayload);
  }

  class Session {
    const mtu: nat
    const clientID: i32
    const cameraID: i32
    var writeQueue: seq<Chunk>
    var sentPackets: map<nat, seq<byte>>
    var nextPacketID: nat
    var recvPackets: map<nat, Chunk>
    var consumedID: nat
    var hasConsumed: bool
    var draining: seq<Chunk>
    var readQueue: seq<Chunk>
    var readBuf: seq<byte>
    var phase: Phase
    var readerUp: bool
    var writerUp: bool
    ghost var offered: seq<byte>
    ghost var numbered: seq<Chunk>
    ghost var delivered: seq<byte>

    ghost predicate Valid()
      reads this`nextPacketID, this`numbered, this`sentPackets, this`phase
    {
      && nextPacketID == |numbered| && nextPacketID < TWO32
      && (forall id :: id in sentPackets ==> id < nextPacketID)
      && (phase.Numbered? || phase.Transmitted? ==> phase.id < nextPacketID)
    }

    ghost function State(): Endpoint
      reads this
    {
      Endpoint(mtu, clientID, cameraID, offered, [], writeQueue, numbered, phase, sentPackets,
               recvPackets, consumedID, hasConsumed, draining, readQueue, readBuf, delivered, readerUp, writerUp)
    }

    constructor (mtu: nat, clientID: i32, cameraID: i32)
      ensures Valid()
      ensures State() == Initial(mtu, clientID, cameraID)
    {
      this.mtu, this.clientID, this.cameraID := mtu, clientID, cameraID;
      writeQueue, sentPackets, nextPacketID := [], map[], 0;
      recvPackets, consumedID, hasConsumed := map[], 0, false;
      draining, readQueue, readBuf := [], [], [];
      phase, readerUp, writerUp := Idle, true, true;
      offered, numbered, delivered := [], [], [];
    }

    /**
     Write. The session may be closed after any number of chunks; room is how many of them the queue
     takes before that. What is queued is exactly what is reported as written, cut into chunks.
     */
    method Write(p: seq<byte>, room: nat) returns (written: nat, ok: bool)
      requires Valid()
      modifies this`writeQueue, this`offered
      ensures Valid()
      ensures mtu <= 20 ==> !ok && written == 0 && writeQueue == old(writeQueue) && offered == old(offered)
      ensures mtu > 20 ==> written == Fitting(|p|, room, mtu - 20) <= |p| && (ok <==> written == |p|)
      ensures mtu > 20 ==> writeQueue == old(writeQueue) + Chunks(p[..written], mtu - 20)
      ensures mtu > 20 ==> offered == old(offered) + p[..written]
    {
      var maxPayload := MaxPayload(mtu);
      if maxPayload <= 0 {
        return 0, false;
      }
      writeQueue, written := Enqueue(writeQueue, p, room, maxPayload);
      offered := offered + p[..written];
      ok := written == |p|;
    }

    /** Read: refill the buffer from the queue until it holds something, then hand out up to n bytes. */
    method Read(n: nat) returns (r: seq<byte>)
      requires Valid()
      modifies this`readQueue, this`readBuf, this`delivered
      ensures Valid()
      ensures State() == HandOutBytes(Refill(old(State())), n)
      ensures Stream(State()) == old(Stream(State()))
      ensures delivered == old(delivered) + r && |r| <= n
      ensures r == [] ==> n == 0 || (readBuf == [] && readQueue == [])
    {
      hide Stream, HandOutBytes, Session.Valid, Refill;
      RefillKeepsStream(State());
      FillBuffer();
      HandOutKeepsStream(State(), n);
      r := HandOut(n);
    }

    /** The loop of Read. */
    method FillBuffer()
      modifies this`readQueue, this`readBuf
      ensures State() == Refill(old(State()))
    {
      hide Flat, Drain, Session.Valid;
      ghost var before := State();
      while |readBuf| == 0 && readQueue != []
        invariant Refill(State()) == Refill(before) && delivered == before.delivered
        decreases |readQueue|
      {
        readBuf := readBuf + readQueue[0];
        readQueue := readQueue[1..];
      }
    }

    /** The end of Read. */
    method HandOut(n: nat) returns (r: seq<byte>)
      modifies this`readBuf, this`delivered
      ensures State() == HandOutBytes(old(State()), n)
      ensures delivered == old(delivered) + r && |r| == Min(n, |old(readBuf)|) && readBuf == old(readBuf)[|r|..]
    {
      hide Flat, Drain, Session.Valid;
      r := readBuf[..Min(n, |readBuf|)];
      readBuf := readBuf[|r|..];
      delivered := delivered + r;
    }

    /** The ack branch of readLoop. */
    method HandleAck(packetID: u32, payload: seq<byte>)
      requires Valid() && |payload| < TWO32
      modifies this`sentPackets
      ensures Valid()
      ensures sentPackets == Prune(old(sentPackets), packetID, payload)
    {
      sentPackets := PruneSent(sentPackets, packetID, payload);
    }

    /** The data branch of readLoop. */
    method HandleData(packetID: u32, payload: seq<byte>)
      requires Valid() && readerUp && draining == []
      modifies this`recvPackets, this`consumedID, this`hasConsumed, this`draining, this`readerUp
      ensures Valid()
      ensures State() == OnData(old(State()), packetID, payload)
    {
      hide OnData, TakenIn, Session.Valid;
      OnDataBranches(State(), packetID, payload);
      if |recvPackets| > BUFFER_LIMIT {
        readerUp := false;
        return;
      }
      TakeIn(packetID, payload);
    }

    /** First copy wins, then the run is drained. */
    method TakeIn(packetID: u32, payload: seq<byte>)
      modifies this`recvPackets, this`consumedID, this`hasConsumed, this`draining
      ensures State() == TakenIn(old(State()), packetID, payload)
    {
      hide Drain, TakenIn, Session.Valid, Flat, Store;
      ghost var before := State();
      var store := Store(recvPackets, packetID, payload);
      var chunks, rest, consumed, has := ContiguousPayloads(store, consumedID, hasConsumed);
      DrainedIsTakenIn(before, packetID, payload, chunks, rest, consumed, has);
      recvPackets, consumedID, hasConsumed, draining := rest, consumed, has, chunks;
    }

    /** The part of readLoop that handles one datagram. */
    method HandleDatagram(bytes: seq<byte>)
      requires Valid() && readerUp && draining == []
      modifies this`sentPackets, this`recvPackets, this`consumedID, this`hasConsumed, this`draining, this`readerUp
      ensures Valid()
      ensures State() == OnDatagram(old(State()), bytes)
    {
      hide Parse, Prune, OnData;
      var buf := bytes[..Min(|bytes|, mtu)];
      match Parse(buf) {
        case Rejected(_) => return;
        case Parsed(pkt) =>
          ParsedPayloadIsShort(buf);
          if pkt.Discovery? || pkt.connectionID != clientID {
            return;
          }
          if pkt.Ack? {
            HandleAck(pkt.packetID, pkt.payload);
          } else {
            HandleData(pkt.packetID, pkt.payload);
          }
      }
    }

    /** The write loop takes a chunk from the queue and numbers it, or ends with too much unacknowledged. */
    method TakeFromQueue()
      requires Valid() && writerUp && phase == Idle && writeQueue != []
      requires nextPacketID + 1 < TWO32
      modifies this`writeQueue, this`nextPacketID, this`phase, this`writerUp, this`numbered
      ensures Valid()
      ensures State() == TakeChunk(old(State()))
    {
      hide Session.Valid, OverflowWriter, NumberNext;
      if |sentPackets| > BUFFER_LIMIT {
        EndWriter();
        return;
      }
      NumberChunk();
    }

    method EndWriter()
      requires writeQueue != []
      modifies this`writeQueue, this`writerUp
      ensures State() == OverflowWriter(old(State()))
    {
      hide Flat, Drain, Session.Valid;
      writeQueue := writeQueue[1..];
      writerUp := false;
    }

    method NumberChunk()
      requires Valid() && writeQueue != [] && nextPacketID + 1 < TWO32
      modifies this`writeQueue, this`nextPacketID, this`phase, this`numbered
      ensures Valid()
      ensures State() == NumberNext(old(State()))
    {
      hide Flat, Drain;
      var chunk := writeQueue[0];
      writeQueue := writeQueue[1..];
      phase := Numbered(nextPacketID, chunk);
      nextPacketID := nextPacketID + 1;
      numbered := numbered + [chunk];
    }

    /** The numbered chunk is marshalled for the socket, and only afterwards recorded as sent. */
    method MarshalChunk() returns (packet: seq<byte>)
      requires Valid() && phase.Numbered?
      modifies this`phase
      ensures Valid()
      ensures packet == Encode(Data(cameraID, old(phase.id), old(phase.chunk)))
      ensures State() == TransmitChunk(old(State())) && phase.packet == packet
    {
      var buf := MarshalUdpPacket(Data(cameraID, phase.id, phase.chunk));
      packet := buf[..];
      phase := Transmitted(phase.id, packet);
    }

    method RecordSent()
      requires Valid() && phase.Transmitted?
      modifies this`phase, this`sentPackets
      ensures Valid()
      ensures State() == RecordPacket(old(State()))
    {
      sentPackets := sentPackets[phase.id := phase.packet];
      phase := Idle;
    }

    /** The tick sends every packet on record again, in no particular order. */
    method Retransmit() returns (packets: seq<seq<byte>>)
      requires Valid() && phase == Idle
      modifies this`phase
      ensures Valid()
      ensures forall p :: p in packets <==> p in sentPackets.Values
      ensures State() == old(State()).(phase := AckDue)
    {
      packets := [];
      var todo := sentPackets.Keys;
      while todo != {}
        invariant todo <= sentPackets.Keys && phase == Idle
        invariant forall id :: id in sentPackets && id !in todo ==> sentPackets[id] in packets
        invariant forall p :: p in packets ==> p in sentPackets.Values
        decreases |todo|
      {
        var id :| id in todo;
        packets := packets + [sentPackets[id]];
        todo := todo - {id};
      }
      phase := AckDue;
    }

    /** readLoop hands a drained chunk on to the reader's queue. */
    method Forward()
      requires Valid() && draining != []
      modifies this`draining, this`readQueue
      ensures Valid()
      ensures State() == ForwardChunk(old(State()))
      ensures Stream(State()) == old(Stream(State()))
    {
      hide Stream, Session.Valid;
      ForwardKeepsStream(State());
      readQueue := readQueue + [draining[0]];
      draining := draining[1..];
    }

    /** The tick computes the acknowledgement of what has been received, if there is one to send. */
    method PrepareAck()
      requires Valid() && phase == AckDue
      modifies this`phase
      ensures Valid()
      ensures State() == ComputeAck(old(State()))
    {
      var window := ComputeAckWindow(recvPackets, consumedID, hasConsumed);
      match window {
        case None => phase := Idle;
        case Some(body) => phase := AckReady(body);
      }
    }

    method SendAck() returns (packet: seq<byte>)
      requires Valid() && phase.AckReady?
      modifies this`phase
      ensures Valid()
      ensures packet == AckPacket(cameraID, old(phase.body))
      ensures State() == old(State()).(phase := Idle)
    {
      var buf := MarshalUdpPacket(Ack(cameraID, phase.body.start % TWO32, phase.body.bitmap));
      packet := buf[..];
      phase := Idle;
    }
  }
}
