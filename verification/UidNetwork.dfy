/**
 Two sessions of the P2P transport over a network that loses, duplicates and reorders datagrams.
 Every critical section of pkg/baichuan/uid.go is one step, so an acknowledgement may arrive between
 the transmission of a packet and its being recorded as sent.
 */
module UidNetwork {
  import opened Bytes
  import opened UdpPacket
  import opened UidSession

  datatype Action =
    // Write
    | StartWrite(p: seq<byte>) | QueueChunk | AbandonWrite
    // writeLoop
    | TakeForSending | Transmit | Record | Retransmit | PrepareAck | SendAck | StopWriter
    // readLoop
    | Receive(bytes: seq<byte>) | Forward | StopReader
    // Read
    | Fetch | HandOut(n: nat)

  datatype Datagram = Datagram(toA: bool, bytes: seq<byte>)

  datatype System = System(a: Endpoint, b: Endpoint, net: set<Datagram>)

  /** The network loses datagrams and carries strays; delivering one does not use it up. */
  datatype Step = Do(isA: bool, action: Action) | Lose(d: Datagram) | Stray(d: Datagram)

  function Get(s: System, isA: bool): Endpoint { if isA then s.a else s.b }

  function Put(s: System, isA: bool, e: Endpoint): System { if isA then s.(a := e) else s.(b := e) }

  predicate CanAct(e: Endpoint, action: Action)
  {
    match action
    case StartWrite(_) => e.writing == []
    case QueueChunk => e.writing != [] && |e.writeQueue| < QUEUE_CAP && MaxPayload(e.mtu) > 0
    case AbandonWrite => true
    case TakeForSending => e.writerUp && e.phase == Idle && e.writeQueue != [] && |e.numbered| + 1 < TWO32
    case Transmit => e.writerUp && e.phase.Numbered?
    case Record => e.writerUp && e.phase.Transmitted?
    case Retransmit => e.writerUp && e.phase == Idle
    case PrepareAck => e.writerUp && e.phase == AckDue
    case SendAck => e.writerUp && e.phase.AckReady?
    case StopWriter => true
    case Receive(_) => e.readerUp && e.draining == []
    case Forward => e.readerUp && e.draining != [] && |e.readQueue| < QUEUE_CAP
    case StopReader => true
    case Fetch => e.readBuf == [] && e.readQueue != []
    case HandOut(_) => e.readBuf != []
  }

  ghost function Act(e: Endpoint, action: Action): Endpoint
    requires CanAct(e, action)
  {
    match action
    case StartWrite(p) => e.(writing := p, offered := e.offered + p)
    case QueueChunk => PushChunk(e)
    case AbandonWrite => e.(writing := [], offered := e.offered[..Max(0, |e.offered| - |e.writing|)])
    case TakeForSending => TakeChunk(e)
    case Transmit => TransmitChunk(e)
    case Record => RecordPacket(e)
    case Retransmit => e.(phase := AckDue)
    case PrepareAck => ComputeAck(e)
    case SendAck => e.(phase := Idle)
    case StopWriter => e.(writerUp := false)
    case Receive(bytes) => OnDatagram(e, bytes)
    case Forward => ForwardChunk(e)
    case StopReader => e.(readerUp := false)
    case Fetch => FetchChunk(e)
    case HandOut(n) => HandOutBytes(e, n)
  }

  /** What the action hands to the socket. */
  function Emits(e: Endpoint, action: Action): set<seq<byte>>
    requires CanAct(e, action)
  {
    match action
    case Transmit => {DataPacket(e.cameraID, e.phase.id, e.phase.chunk)}
    case Retransmit => e.sent.Values
    case SendAck => {AckPacket(e.cameraID, e.phase.body)}
    case _ => {}
  }

  predicate Enabled(s: System, step: Step)
  {
    match step
    case Do(isA, action) =>
      CanAct(Get(s, isA), action) && (action.Receive? ==> Datagram(isA, action.bytes) in s.net)
    case Lose(d) => d in s.net
    case Stray(d) => Accepted(Get(s, d.toA), d.bytes).None?
  }

  ghost function Next(s: System, step: Step): System
    requires Enabled(s, step)
  {
    match step
    case Do(isA, action) =>
      var e := Get(s, isA);
      Put(s, isA, Act(e, action)).(net := s.net + (set bytes | bytes in Emits(e, action) :: Datagram(!isA, bytes)))
    case Lose(d) => s.(net := s.net - {d})
    case Stray(d) => s.(net := s.net + {d})
  }

  predicate Initially(s: System)
  {
    exists mtu, a: i32, b: i32 :: 20 < mtu < TWO32 && s == System(Initial(mtu, a, b), Initial(mtu, b, a), {})
  }

  // ---- the invariant of one direction, from sender s to receiver r

  predicate InHand(s: Endpoint, id: nat)
  {
    (s.phase.Numbered? || s.phase.Transmitted?) && s.phase.id == id
  }

  ghost predicate Paired(s: Endpoint, r: Endpoint)
  {
    s.cameraID == r.clientID && s.mtu == r.mtu && 20 < s.mtu < TWO32
  }

  ghost predicate BytesInOrder(s: Endpoint)
  {
    && |s.writing| <= |s.offered| && s.offered[|s.offered| - |s.writing|..] == s.writing
    && var queued := s.offered[..|s.offered| - |s.writing|];
      && Flat(s.numbered) <= queued
      && (s.writerUp ==> queued == Flat(s.numbered) + Flat(s.writeQueue))
  }

  ghost predicate ChunksFit(s: Endpoint)
  {
    && (forall c :: c in s.writeQueue ==> 0 < |c| <= MaxPayload(s.mtu))
    && (forall i :: 0 <= i < |s.numbered| ==> 0 < |s.numbered[i]| <= MaxPayload(s.mtu))
  }

  ghost predicate SentAsNumbered(s: Endpoint)
  {
    && |s.numbered| < TWO32
    && (s.phase.Numbered? ==> s.phase.id + 1 == |s.numbered| && s.phase.chunk == s.numbered[s.phase.id])
    && (s.phase.Transmitted? ==> s.phase.id + 1 == |s.numbered|
                                 && s.phase.packet == DataPacket(s.cameraID, s.phase.id, s.numbered[s.phase.id]))
    && (forall id :: id in s.sent ==> id < |s.numbered| && s.sent[id] == DataPacket(s.cameraID, id, s.numbered[id]))
  }

  ghost predicate ReceivedInOrder(s: Endpoint, r: Endpoint)
  {
    && Count(r) <= |s.numbered| && Count(r) !in r.recv
    && (forall id :: id in r.recv ==> id < |s.numbered| && r.recv[id] == s.numbered[id])
    && Stream(r) == Flat(s.numbered[..Count(r)])
  }

  ghost predicate NothingForgotten(s: Endpoint, r: Endpoint)
  {
    forall id: nat :: id < |s.numbered| ==> id in s.sent || InHand(s, id) || Reached(r, id)
  }

  ghost predicate DataSound(s: Endpoint, r: Endpoint, bytes: seq<byte>)
  {
    var p := Accepted(r, bytes);
    p.Some? && p.value.Data? ==> p.value.packetID < |s.numbered| && p.value.payload == s.numbered[p.value.packetID]
  }

  ghost predicate BodySound(r: Endpoint, body: AckBody)
  {
    && body.start < TWO32 && |body.bitmap| <= BITMAP_CAP
    && forall id: nat :: Covers(body.start, body.bitmap, id) ==> Reached(r, id)
  }

  ghost predicate AckSound(s: Endpoint, r: Endpoint, bytes: seq<byte>)
  {
    var p := Accepted(s, bytes);
    p.Some? && p.value.Ack? ==> forall id: nat :: Covers(p.value.packetID, p.value.payload, id) ==> Reached(r, id)
  }

  ghost predicate NetSound(s: Endpoint, r: Endpoint, net: set<Datagram>, sIsA: bool)
  {
    && (forall d :: d in net && d.toA != sIsA ==> DataSound(s, r, d.bytes))
    && (forall d :: d in net && d.toA == sIsA ==> AckSound(s, r, d.bytes))
  }

  ghost predicate Link(s: Endpoint, r: Endpoint, net: set<Datagram>, sIsA: bool)
  {
    && Paired(s, r) && BytesInOrder(s) && ChunksFit(s) && SentAsNumbered(s)
    && ReceivedInOrder(s, r) && NothingForgotten(s, r) && NetSound(s, r, net, sIsA)
    && (r.phase.AckReady? ==> BodySound(r, r.phase.body))
  }

  ghost predicate Inv(s: System)
  {
    Link(s.a, s.b, s.net, true) && Link(s.b, s.a, s.net, false)
  }

  lemma InitEstablishesInv(s: System)
    requires Initially(s)
    ensures Inv(s)
  {
    var mtu, a: i32, b: i32 :| 20 < mtu < TWO32 && s == System(Initial(mtu, a, b), Initial(mtu, b, a), {});
    InitialLink(s.a, s.b, mtu, a, b, true);
    InitialLink(s.b, s.a, mtu, b, a, false);
  }

  lemma InitialLink(s: Endpoint, r: Endpoint, mtu: nat, x: i32, y: i32, sIsA: bool)
    requires 20 < mtu < TWO32 && s == Initial(mtu, x, y) && r == Initial(mtu, y, x)
    ensures Link(s, r, {}, sIsA)
  {
    hide BytesInOrder, ChunksFit, SentAsNumbered, ReceivedInOrder, NetSound;
    InitialSender(s, mtu, x, y);
    InitialReceiver(s, r, mtu, x, y, sIsA);
  }

  lemma InitialSender(s: Endpoint, mtu: nat, x: i32, y: i32)
    requires 20 < mtu && s == Initial(mtu, x, y)
    ensures BytesInOrder(s) && ChunksFit(s) && SentAsNumbered(s)
  {
    hide BytesInOrder, DataPacket;
    InitialBytes(s);
  }

  lemma InitialBytes(s: Endpoint)
    requires s.offered == [] && s.writing == [] && s.numbered == [] && s.writeQueue == []
    ensures BytesInOrder(s)
  {
    FlatNothing<byte>();
    assert s.offered[..|s.offered| - |s.writing|] == [];
  }

  lemma InitialReceiver(s: Endpoint, r: Endpoint, mtu: nat, x: i32, y: i32, sIsA: bool)
    requires s == Initial(mtu, x, y) && r == Initial(mtu, y, x)
    ensures ReceivedInOrder(s, r) && NetSound(s, r, {}, sIsA)
  {
    hide Accepted, Flat, DataPacket;
    FlatNothing<byte>();
    assert s.numbered[..Count(r)] == [];
  }

  // ---- how packets arrive at the other side

  lemma DataArrives(s: Endpoint, r: Endpoint, id: nat)
    requires Paired(s, r) && id < |s.numbered| < TWO32 && |s.numbered[id]| <= MaxPayload(s.mtu)
    ensures Accepted(r, DataPacket(s.cameraID, id, s.numbered[id])) == Some(Data(s.cameraID, id, s.numbered[id]))
  {
    hide Parse, HeaderWords;
    var p := Data(s.cameraID, id, s.numbered[id]);
    RoundTripExact(p);
    assert |Encode(p)| <= r.mtu;
    assert Cut(Encode(p), r.mtu) == Encode(p);
  }

  lemma AckArrives(s: Endpoint, r: Endpoint, body: AckBody)
    requires s.cameraID == r.clientID && body.start < TWO32 && |body.bitmap| <= BITMAP_CAP
    ensures var p := Accepted(r, AckPacket(s.cameraID, body));
      p == None || p == Some(Ack(s.cameraID, body.start, body.bitmap))
    ensures 28 + |body.bitmap| <= r.mtu ==>
      Accepted(r, AckPacket(s.cameraID, body)) == Some(Ack(s.cameraID, body.start, body.bitmap))
  {
    hide Parse, HeaderWords;
    var p := Ack(s.cameraID, body.start, body.bitmap);
    RoundTripExact(p);
    if r.mtu < |Encode(p)| {
      TruncatedIsRejected(p, r.mtu);
    } else {
      assert Cut(Encode(p), r.mtu) == Encode(p);
    }
  }

  // ---- what an action keeps of the sending half of its own session

  lemma ChunksStayFit(x: Endpoint, action: Action)
    requires CanAct(x, action) && ChunksFit(x) && 20 < x.mtu
    ensures ChunksFit(Act(x, action))
  {
    hide ChunksFit, Prune, Drain, Accepted, ComputeAck, PushChunk, TakeChunk, DataPacket;
    match action
    case QueueChunk => PushedChunkFits(x);
    case TakeForSending => TakenChunkFits(x);
    case Receive(bytes) => ReceiveKeeps(x, bytes); SameChunksFit(x, Act(x, action));
    case PrepareAck => ComputeAckKeeps(x); SameChunksFit(x, Act(x, action));
    case _ => SameChunksFit(x, Act(x, action));
  }

  lemma SameChunksFit(x: Endpoint, x': Endpoint)
    requires ChunksFit(x) && x'.writeQueue == x.writeQueue && x'.numbered == x.numbered && x'.mtu == x.mtu
    ensures ChunksFit(x')
  {
  }

  lemma PushedChunkFits(x: Endpoint)
    requires ChunksFit(x) && x.writing != [] && MaxPayload(x.mtu) > 0
    ensures ChunksFit(PushChunk(x))
  {
  }

  lemma TakenChunkFits(x: Endpoint)
    requires ChunksFit(x) && x.writeQueue != []
    ensures ChunksFit(TakeChunk(x))
  {
  }

  /** A received datagram touches the sent packets and the receive buffer only. */
  lemma ReceiveKeeps(x: Endpoint, bytes: seq<byte>)
    ensures var x' := OnDatagram(x, bytes);
      x' == x.(sent := x'.sent, recv := x'.recv, draining := x'.draining, consumed := x'.consumed,
               hasConsumed := x'.hasConsumed, readerUp := x'.readerUp)
  {
    hide Prune, OnData, Accepted;
    match Accepted(x, bytes)
    case Some(Data(_, id, payload)) => OnDataKeeps(x, id, payload);
    case _ =>
  }

  lemma OnDataKeeps(x: Endpoint, id: nat, payload: Chunk)
    ensures var x' := OnData(x, id, payload);
      x' == x.(recv := x'.recv, draining := x'.draining, consumed := x'.consumed,
               hasConsumed := x'.hasConsumed, readerUp := x'.readerUp)
  {
    hide Drain;
  }

  lemma ComputeAckKeeps(x: Endpoint)
    ensures var x' := ComputeAck(x); x' == x.(phase := x'.phase) && (x'.phase == Idle || x'.phase.AckReady?)
  {
    hide AckWindow;
  }

  lemma StartWriteInOrder(x: Endpoint, p: seq<byte>)
    requires BytesInOrder(x) && x.writing == []
    ensures BytesInOrder(x.(writing := p, offered := x.offered + p))
  {
    hide Flat;
    var x' := x.(writing := p, offered := x.offered + p);
    assert x.offered[..|x.offered|] == x.offered;
    assert x'.offered[..|x'.offered| - |p|] == x.offered;
  }

  lemma QueueChunkInOrder(x: Endpoint)
    requires BytesInOrder(x) && 20 < x.mtu
    ensures BytesInOrder(PushChunk(x))
  {
    hide Flat;
    var x', chunk := PushChunk(x), NextChunk(x);
    var queued := x.offered[..|x.offered| - |x.writing|];
    assert x'.offered[..|x'.offered| - |x'.writing|] == queued + chunk;
    FlatAppend(x.writeQueue, [chunk]);
    FlatOne(chunk);
  }

  lemma AbandonInOrder(x: Endpoint)
    requires BytesInOrder(x)
    ensures BytesInOrder(x.(writing := [], offered := x.offered[..Max(0, |x.offered| - |x.writing|)]))
  {
    hide Flat;
    var queued := x.offered[..|x.offered| - |x.writing|];
    assert queued[..|queued|] == queued;
  }

  lemma TakeChunkInOrder(x: Endpoint)
    requires BytesInOrder(x) && x.writeQueue != [] && x.writerUp
    ensures BytesInOrder(TakeChunk(x))
  {
    hide Flat;
    var chunk, rest := x.writeQueue[0], Flat(x.writeQueue[1..]);
    FlatHead(x.writeQueue);
    FlatAppend(x.numbered, [chunk]);
    FlatOne(chunk);
    assert Flat(x.numbered) + (chunk + rest) == Flat(x.numbered) + chunk + rest;
  }

  lemma BytesStayInOrder(x: Endpoint, action: Action)
    requires CanAct(x, action) && BytesInOrder(x) && 20 < x.mtu
    ensures BytesInOrder(Act(x, action))
  {
    hide Prune, Drain, Accepted, ComputeAck, OnDatagram, Flat, TakeChunk, PushChunk;
    match action
    case StartWrite(p) => StartWriteInOrder(x, p);
    case QueueChunk => QueueChunkInOrder(x);
    case AbandonWrite => AbandonInOrder(x);
    case TakeForSending => TakeChunkInOrder(x);
    case Receive(bytes) => ReceiveKeeps(x, bytes);
    case PrepareAck => ComputeAckKeeps(x);
    case _ =>
  }

  lemma SentStaysAsNumbered(x: Endpoint, action: Action)
    requires CanAct(x, action) && SentAsNumbered(x)
    ensures SentAsNumbered(Act(x, action))
  {
    hide SentAsNumbered, OnDatagram, Accepted, ComputeAck, TakeChunk, TransmitChunk, RecordPacket;
    match action
    case TakeForSending => NumberedStays(x);
    case Transmit => TransmittedStays(x);
    case Record => RecordedStays(x);
    case Receive(bytes) =>
      ReceiveKeeps(x, bytes);
      ReceivePrunes(x, bytes);
      FewerSent(x, Act(x, action));
    case PrepareAck =>
      ComputeAckKeeps(x);
      FewerSent(x, Act(x, action));
    case _ => FewerSent(x, Act(x, action));
  }

  lemma NumberedStays(x: Endpoint)
    requires SentAsNumbered(x) && x.writeQueue != [] && x.phase == Idle && |x.numbered| + 1 < TWO32
    ensures SentAsNumbered(TakeChunk(x))
  {
    hide DataPacket;
  }

  lemma TransmittedStays(x: Endpoint)
    requires SentAsNumbered(x) && x.phase.Numbered?
    ensures SentAsNumbered(TransmitChunk(x))
  {
    hide DataPacket;
  }

  lemma RecordedStays(x: Endpoint)
    requires SentAsNumbered(x) && x.phase.Transmitted?
    ensures SentAsNumbered(RecordPacket(x))
  {
    hide DataPacket;
  }

  lemma ReceivePrunes(x: Endpoint, bytes: seq<byte>)
    ensures var x' := OnDatagram(x, bytes); forall id :: id in x'.sent ==> id in x.sent && x'.sent[id] == x.sent[id]
  {
    hide Accepted, OnData, Covers;
    match Accepted(x, bytes)
    case Some(Data(_, id, payload)) => OnDataKeeps(x, id, payload);
    case _ =>
  }

  /** The numbering, the names and the packet in hand are the same, and no packet is new on record. */
  lemma FewerSent(x: Endpoint, x': Endpoint)
    requires SentAsNumbered(x) && x'.numbered == x.numbered && x'.cameraID == x.cameraID
    requires x'.phase == x.phase || x'.phase == Idle || x'.phase == AckDue || x'.phase.AckReady?
    requires forall id :: id in x'.sent ==> id in x.sent && x'.sent[id] == x.sent[id]
    ensures SentAsNumbered(x')
  {
    hide DataPacket;
  }

  /** What x' still has to do for a packet x had in hand or on record: nothing is dropped unheard. */
  lemma NothingGetsForgotten(x: Endpoint, y: Endpoint, net: set<Datagram>, xIsA: bool, action: Action)
    requires CanAct(x, action) && Link(x, y, net, xIsA)
    requires action.Receive? ==> Datagram(xIsA, action.bytes) in net
    ensures NothingForgotten(Act(x, action), y)
  {
    hide Drain, Accepted, ComputeAck, DataPacket, BytesInOrder, ChunksFit, ReceivedInOrder, Reached;
    match action
    case Receive(bytes) =>
      ReceiveKeeps(x, bytes);
      assert AckSound(x, y, bytes);
    case PrepareAck => ComputeAckKeeps(x);
    case _ =>
  }

  // ---- what an action keeps of the receiving half of its own session

  /** Reception is never undone. */
  lemma ReachedGrows(x: Endpoint, action: Action)
    requires CanAct(x, action)
    ensures Count(x) <= Count(Act(x, action))
    ensures forall id: nat :: Reached(x, id) ==> Reached(Act(x, action), id)
  {
    hide Drain, Accepted, ComputeAck, Prune, DataPacket;
    match action
    case PrepareAck => ComputeAckKeeps(x);
    case Receive(bytes) =>
      var p := Accepted(x, bytes);
      if p.Some? && p.value.Data? {
        DataReceived(x, p.value.packetID, p.value.payload);
      }
    case _ =>
  }

  /** The data branch: the packet has arrived, what had arrived stays, and the buffer waits for the next gap. */
  lemma DataReceived(x: Endpoint, id: nat, payload: Chunk)
    ensures var x' := OnData(x, id, payload);
      && Count(x) <= Count(x')
      && (forall k: nat :: Reached(x, k) ==> Reached(x', k))
      && (x'.readerUp && x.readerUp ==> Reached(x', id))
  {
    hide Drain;
    if |x.recv| <= BUFFER_LIMIT {
      DrainMeaning(Store(x.recv, id, payload), Count(x));
    }
  }

  ghost predicate StoredAsNumbered(s: Endpoint, recv: map<nat, Chunk>)
  {
    forall id :: id in recv ==> id < |s.numbered| && recv[id] == s.numbered[id]
  }

  /** Draining appends to the ordered stream exactly the numbered chunks from the gap on. */
  lemma DrainInOrder(s: Endpoint, store: map<nat, Chunk>, next: nat)
    requires next <= |s.numbered| && StoredAsNumbered(s, store)
    ensures var d := Drain(store, next);
      && d.next <= |s.numbered| && StoredAsNumbered(s, d.rest) && d.next !in d.rest
      && Flat(s.numbered[..next]) + Flat(d.chunks) == Flat(s.numbered[..d.next])
  {
    hide Drain;
    DrainMeaning(store, next);
    var d := Drain(store, next);
    if d.next > next {
      assert d.next - 1 in store;
    }
    forall k | 0 <= k < |d.chunks|
      ensures d.chunks[k] == s.numbered[next..d.next][k]
    {
      var id: nat := next + k;
      assert d.chunks[id - next] == store[id];
    }
    assert d.chunks == s.numbered[next..d.next];
    assert s.numbered[..d.next] == s.numbered[..next] + s.numbered[next..d.next];
    FlatAppend(s.numbered[..next], s.numbered[next..d.next]);
  }

  lemma DataStaysInOrder(s: Endpoint, r: Endpoint, id: nat, payload: Chunk)
    requires ReceivedInOrder(s, r) && r.draining == []
    requires id < |s.numbered| && payload == s.numbered[id]
    ensures ReceivedInOrder(s, OnData(r, id, payload))
  {
    hide Drain, Flat;
    if |r.recv| <= BUFFER_LIMIT {
      var store := Store(r.recv, id, payload);
      DrainInOrder(s, store, Count(r));
      var d, r' := Drain(store, Count(r)), OnData(r, id, payload);
      assert Count(r') == d.next;
      FlatNothing<byte>();
      assert Stream(r) == r.delivered + r.readBuf + Flat(r.readQueue);
      assert Stream(r') == Stream(r) + Flat(d.chunks);
    }
  }

  /** Moving chunks towards the reader changes nothing about the stream. */
  lemma StreamMoves(r: Endpoint, action: Action)
    requires CanAct(r, action) && !action.Receive?
    ensures Stream(Act(r, action)) == Stream(r)
  {
    hide Flat, ComputeAck, DataPacket;
    match action
    case Forward =>
      FlatHead(r.draining);
      FlatAppend(r.readQueue, [r.draining[0]]);
      FlatOne(r.draining[0]);
    case Fetch =>
      FlatHead(r.readQueue);
    case HandOut(n) =>
      var k := Min(n, |r.readBuf|);
      assert r.delivered + r.readBuf == r.delivered + r.readBuf[..k] + r.readBuf[k..];
    case PrepareAck => ComputeAckKeeps(r);
    case _ =>
  }

  lemma ReceptionStaysInOrder(s: Endpoint, x: Endpoint, net: set<Datagram>, xIsA: bool, action: Action)
    requires CanAct(x, action) && ReceivedInOrder(s, x)
    requires NetSound(s, x, net, !xIsA) && (action.Receive? ==> Datagram(xIsA, action.bytes) in net)
    ensures ReceivedInOrder(s, Act(x, action))
  {
    hide Flat, ComputeAck, DataPacket, Accepted, Drain, Prune, OnData, Stream;
    match action
    case Receive(bytes) =>
      assert DataSound(s, x, bytes);
      var p := Accepted(x, bytes);
      if p.Some? && p.value.Data? {
        DataStaysInOrder(s, x, p.value.packetID, p.value.payload);
      } else if p.Some? {
        SentIsNotStream(x, p.value.packetID, p.value.payload);
      }
    case PrepareAck =>
      StreamMoves(x, action);
      ComputeAckKeeps(x);
    case _ => StreamMoves(x, action);
  }

  lemma SentIsNotStream(x: Endpoint, start: u32, bitmap: seq<byte>)
    ensures Stream(x.(sent := Prune(x.sent, start, bitmap))) == Stream(x)
  {
    hide Prune;
  }

  /** The acknowledgement a session computes speaks only for packets that have reached it. */
  lemma AckBodyIsSound(s: Endpoint, x: Endpoint)
    requires ReceivedInOrder(s, x) && |s.numbered| < TWO32
    ensures var x' := ComputeAck(x);
      x'.phase.AckReady? ==> BodySound(x', x'.phase.body) && x'.phase.body.start == x.consumed
  {
    hide Drain, Bitmap;
    if x.hasConsumed {
      DrainStop(x.recv, x.consumed + 1);
    }
  }

  // ---- the network

  ghost function Sent(x: Endpoint, action: Action, xIsA: bool): set<Datagram>
    requires CanAct(x, action)
  {
    set bytes | bytes in Emits(x, action) :: Datagram(!xIsA, bytes)
  }

  /** Whatever an action transmits tells the peer the truth, both as data and as acknowledgement. */
  lemma EmissionsAreSound(x: Endpoint, y: Endpoint, net: set<Datagram>, xIsA: bool, action: Action, bytes: seq<byte>)
    requires Link(x, y, net, xIsA) && Link(y, x, net, !xIsA)
    requires CanAct(x, action) && bytes in Emits(x, action)
    ensures DataSound(x, y, bytes) && AckSound(y, x, bytes)
  {
    hide Accepted, DataPacket, AckPacket, Flat, BytesInOrder, ReceivedInOrder;
    match action
    case Transmit => DataArrives(x, y, x.phase.id);
    case Retransmit =>
      var id :| id in x.sent && x.sent[id] == bytes;
      DataArrives(x, y, id);
    case SendAck => AckArrives(x, y, x.phase.body);
    case _ =>
  }

  /** The packets of x are still what its peer is told, after x has acted. */
  lemma DataStaysSound(x: Endpoint, y: Endpoint, net: set<Datagram>, xIsA: bool, action: Action)
    requires Link(x, y, net, xIsA) && Link(y, x, net, !xIsA) && CanAct(x, action)
    ensures NetSound(Act(x, action), y, net + Sent(x, action, xIsA), xIsA)
  {
    hide Accepted, DataPacket, AckPacket, Flat, BytesInOrder, ReceivedInOrder, Drain, Prune, ComputeAck, Emits,
      OnDatagram;
    var x' := Act(x, action);
    NumberedGrows(x, action);
    forall d | d in net + Sent(x, action, xIsA)
      ensures d.toA != xIsA ==> DataSound(x', y, d.bytes)
      ensures d.toA == xIsA ==> AckSound(x', y, d.bytes)
    {
      if d !in net {
        EmissionsAreSound(x, y, net, xIsA, action, d.bytes);
      }
      assert d.toA != xIsA ==> DataSound(x, y, d.bytes);
      assert d.toA == xIsA ==> AckSound(x, y, d.bytes);
      SameReading(x, x', d.bytes);
    }
  }

  /** The packets to x and its acknowledgements are still true, after x has acted. */
  lemma AcksStaySound(x: Endpoint, y: Endpoint, net: set<Datagram>, xIsA: bool, action: Action)
    requires Link(x, y, net, xIsA) && Link(y, x, net, !xIsA) && CanAct(x, action)
    ensures NetSound(y, Act(x, action), net + Sent(x, action, xIsA), !xIsA)
  {
    hide Accepted, DataPacket, AckPacket, Flat, BytesInOrder, ReceivedInOrder, Drain, Prune, ComputeAck, Emits,
      OnDatagram, Reached;
    var x' := Act(x, action);
    NumberedGrows(x, action);
    ReachedGrows(x, action);
    forall d | d in net + Sent(x, action, xIsA)
      ensures d.toA == xIsA ==> DataSound(y, x', d.bytes)
      ensures d.toA != xIsA ==> AckSound(y, x', d.bytes)
    {
      if d !in net {
        EmissionsAreSound(x, y, net, xIsA, action, d.bytes);
      }
      assert d.toA == xIsA ==> DataSound(y, x, d.bytes);
      assert d.toA != xIsA ==> AckSound(y, x, d.bytes);
      SameReading(x, x', d.bytes);
    }
  }

  lemma SameReading(x: Endpoint, x': Endpoint, bytes: seq<byte>)
    requires x.mtu == x'.mtu && x.clientID == x'.clientID
    ensures Accepted(x', bytes) == Accepted(x, bytes)
  {
    hide Parse;
  }

  lemma NumberedGrows(x: Endpoint, action: Action)
    requires CanAct(x, action)
    ensures var x' := Act(x, action);
      x.numbered <= x'.numbered && x'.mtu == x.mtu && x'.clientID == x.clientID && x'.cameraID == x.cameraID
  {
    hide Drain, Prune, ComputeAck, Accepted, DataPacket;
    match action
    case PrepareAck => ComputeAckKeeps(x);
    case Receive(bytes) => ReceiveKeeps(x, bytes);
    case _ =>
  }

  // ---- every step keeps the invariant

  lemma SenderStep(x: Endpoint, y: Endpoint, net: set<Datagram>, xIsA: bool, action: Action)
    requires Link(x, y, net, xIsA) && Link(y, x, net, !xIsA) && CanAct(x, action)
    requires action.Receive? ==> Datagram(xIsA, action.bytes) in net
    ensures Link(Act(x, action), y, net + Sent(x, action, xIsA), xIsA)
  {
    hide Act, CanAct, NetSound, Accepted, Flat, BytesInOrder, ChunksFit, SentAsNumbered, NothingForgotten, BodySound,
      Sent;
    NumberedGrows(x, action);
    BytesStayInOrder(x, action);
    ChunksStayFit(x, action);
    SentStaysAsNumbered(x, action);
    NothingGetsForgotten(x, y, net, xIsA, action);
    DataStaysSound(x, y, net, xIsA, action);
    assert Act(x, action).numbered[..Count(y)] == x.numbered[..Count(y)];
  }

  lemma ReceiverStep(x: Endpoint, y: Endpoint, net: set<Datagram>, xIsA: bool, action: Action)
    requires Link(x, y, net, xIsA) && Link(y, x, net, !xIsA) && CanAct(x, action)
    requires action.Receive? ==> Datagram(xIsA, action.bytes) in net
    ensures Link(y, Act(x, action), net + Sent(x, action, xIsA), !xIsA)
  {
    hide Act, CanAct, NetSound, Accepted, Flat, BytesInOrder, ChunksFit, SentAsNumbered, ReceivedInOrder, BodySound,
      Sent, Reached;
    NumberedGrows(x, action);
    ReachedGrows(x, action);
    ReceptionStaysInOrder(y, x, net, xIsA, action);
    AcksStaySound(x, y, net, xIsA, action);
    AckReadyStaysSound(x, y, net, xIsA, action);
  }

  lemma AckReadyStaysSound(x: Endpoint, y: Endpoint, net: set<Datagram>, xIsA: bool, action: Action)
    requires Link(y, x, net, !xIsA) && CanAct(x, action)
    ensures var x' := Act(x, action); x'.phase.AckReady? ==> BodySound(x', x'.phase.body)
  {
    hide Accepted, Flat, BytesInOrder, ChunksFit, ReceivedInOrder, NetSound, Drain, Prune, ComputeAck, DataPacket,
      Reached;
    ReachedGrows(x, action);
    match action
    case PrepareAck => AckBodyIsSound(y, x);
    case Receive(bytes) => ReceiveKeeps(x, bytes);
    case _ =>
  }

  lemma FewerDatagrams(s: Endpoint, r: Endpoint, net: set<Datagram>, net': set<Datagram>, sIsA: bool)
    requires Link(s, r, net, sIsA)
    requires forall d :: d in net' && d !in net ==> Accepted(if d.toA == sIsA then s else r, d.bytes).None?
    ensures Link(s, r, net', sIsA)
  {
    hide Accepted, Flat, BytesInOrder, ChunksFit, ReceivedInOrder, SentAsNumbered, NothingForgotten, BodySound;
  }

  /** One step of either session or of the network keeps the invariant. */
  lemma NextKeepsInv(s: System, step: Step)
    requires Inv(s) && Enabled(s, step)
    ensures Inv(Next(s, step))
  {
    hide Act, CanAct, Link, Accepted, Emits;
    match step
    case Do(isA, action) =>
      SenderStep(Get(s, isA), Get(s, !isA), s.net, isA, action);
      ReceiverStep(Get(s, isA), Get(s, !isA), s.net, isA, action);
    case Lose(d) =>
      FewerDatagrams(s.a, s.b, s.net, s.net - {d}, true);
      FewerDatagrams(s.b, s.a, s.net, s.net - {d}, false);
    case Stray(d) =>
      FewerDatagrams(s.a, s.b, s.net, s.net + {d}, true);
      FewerDatagrams(s.b, s.a, s.net, s.net + {d}, false);
  }

  // ---- runs

  ghost predicate IsRun(s: System, steps: seq<Step>)
    decreases |steps|
  {
    steps == [] || (Enabled(s, steps[0]) && IsRun(Next(s, steps[0]), steps[1..]))
  }

  ghost function After(s: System, steps: seq<Step>): System
    requires IsRun(s, steps)
    decreases |steps|
  {
    if steps == [] then s else After(Next(s, steps[0]), steps[1..])
  }

  lemma {:induction false} RunKeepsInv(s: System, steps: seq<Step>)
    requires Inv(s) && IsRun(s, steps)
    ensures Inv(After(s, steps))
    decreases |steps|
  {
    hide Inv, Enabled, Next;
    if steps != [] {
      NextKeepsInv(s, steps[0]);
      RunKeepsInv(Next(s, steps[0]), steps[1..]);
    }
  }

  /** A reachable system satisfies the invariant. */
  lemma ReachableInv(s: System, steps: seq<Step>)
    requires Initially(s) && IsRun(s, steps)
    ensures Inv(After(s, steps))
  {
    hide Inv, IsRun, After, Initially;
    InitEstablishesInv(s);
    RunKeepsInv(s, steps);
  }
}
