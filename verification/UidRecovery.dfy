/**
 Recovery of the P2P transport: from a bound on the receive buffer that can be checked beforehand, for any
 order of arrival, and the exact condition under which a recovering run exists.
 */
module UidRecovery {
  import opened Bytes
  import opened UdpPacket
  import opened UidDelivery
  import opened UidNetwork
  import opened UidRuns
  import opened UidSession

  // ---- when the buffer limit cannot trip

  /** The packet ID a step may put into the receive buffer of a session. */
  function IDIn(e: Endpoint, action: Action): set<nat>
  {
    if !action.Receive? then {}
    else match Accepted(e, action.bytes)
      case Some(Data(_, id, _)) => {id}
      case _ => {}
  }

  /** All packet IDs a session takes in along a run. */
  function IDsIn(e: Endpoint, steps: seq<Step>, isA: bool): set<nat>
  {
    if steps == [] then {}
    else
      (if steps[0].Do? && steps[0].isA == isA then IDIn(e, steps[0].action) else {}) + IDsIn(e, steps[1..], isA)
  }

  lemma {:induction false} SameIDs(e: Endpoint, e': Endpoint, steps: seq<Step>, isA: bool)
    requires e'.mtu == e.mtu && e'.clientID == e.clientID
    ensures IDsIn(e', steps, isA) == IDsIn(e, steps, isA)
  {
    hide Accepted;
    if steps != [] {
      SameIDs(e, e', steps[1..], isA);
      if steps[0].Do? && steps[0].action.Receive? {
        SameReading(e, e', steps[0].action.bytes);
      }
    }
  }

  lemma BufferGrowsByID(e: Endpoint, action: Action)
    requires CanAct(e, action)
    ensures Act(e, action).recv.Keys <= e.recv.Keys + IDIn(e, action)
    ensures e.readerUp && action != StopReader && |e.recv| <= BUFFER_LIMIT ==> Act(e, action).readerUp
  {
    hide Accepted, ComputeAck, DataPacket, OnDatagram;
    match action
    case Receive(bytes) => BufferGrowsByDatagram(e, bytes);
    case PrepareAck => ComputeAckKeeps(e);
    case _ =>
  }

  lemma BufferGrowsByDatagram(e: Endpoint, bytes: seq<byte>)
    ensures OnDatagram(e, bytes).recv.Keys <= e.recv.Keys + IDIn(e, Receive(bytes))
    ensures e.readerUp && |e.recv| <= BUFFER_LIMIT ==> OnDatagram(e, bytes).readerUp
  {
    hide Accepted, Prune, OnData;
    var p := Accepted(e, bytes);
    if p.Some? && p.value.Data? {
      BufferGrowsByData(e, p.value.packetID, p.value.payload);
      OverflowEndsReader(e, p.value.packetID, p.value.payload);
    }
  }

  lemma BufferGrowsByData(e: Endpoint, id: nat, payload: Chunk)
    ensures OnData(e, id, payload).recv.Keys <= e.recv.Keys + {id}
  {
    hide Drain;
    DrainMeaning(Store(e.recv, id, payload), Count(e));
  }

  lemma Fits(small: set<nat>, big: set<nat>, n: nat)
    requires small <= big && |big| <= n
    ensures |small| <= n
  {
    SubsetSize(small, big);
  }

  lemma {:induction false} SubsetSize(small: set<nat>, big: set<nat>)
    requires small <= big
    ensures |small| <= |big|
    decreases |small|
  {
    if small != {} {
      var k :| k in small;
      SubsetSize(small - {k}, big - {k});
    }
  }

  /**
   What is buffered now and what comes in is at most 1024 IDs together: then the read loop survives the run
   unless it is stopped.
   */
  lemma {:induction false} ReaderLasts(s: System, steps: seq<Step>, isA: bool)
    requires IsRun(s, steps) && Get(s, isA).readerUp && Do(isA, StopReader) !in steps
    requires |Get(s, isA).recv.Keys + IDsIn(Get(s, isA), steps, isA)| <= BUFFER_LIMIT
    ensures Get(After(s, steps), isA).readerUp
    decreases |steps|
  {
    hide Next, Enabled, IDIn;
    if steps != [] {
      StepFits(s, steps, isA);
      ReaderLasts(Next(s, steps[0]), steps[1..], isA);
    }
  }

  lemma StepFits(s: System, steps: seq<Step>, isA: bool)
    requires steps != [] && Enabled(s, steps[0]) && Get(s, isA).readerUp && Do(isA, StopReader) != steps[0]
    requires |Get(s, isA).recv.Keys + IDsIn(Get(s, isA), steps, isA)| <= BUFFER_LIMIT
    ensures var e' := Get(Next(s, steps[0]), isA);
      e'.readerUp && |e'.recv.Keys + IDsIn(e', steps[1..], isA)| <= BUFFER_LIMIT
  {
    hide Act, CanAct, Emits, IDIn;
    var e, step, rest := Get(s, isA), steps[0], steps[1..];
    var e' := Get(Next(s, step), isA);
    var all := e.recv.Keys + IDsIn(e, steps, isA);
    if step.Do? && step.isA == isA {
      assert |e.recv| == |e.recv.Keys|;
      Fits(e.recv.Keys, all, BUFFER_LIMIT);
      BufferGrowsByID(e, step.action);
      NumberedGrows(e, step.action);
    }
    SameIDs(e, e', rest, isA);
    Fits(e'.recv.Keys + IDsIn(e', rest, isA), all, BUFFER_LIMIT);
  }

  /** With room in the buffer the peer has everything once the retransmitted packets have been taken in. */
  lemma RetransmissionCatchesUp(s: System, isA: bool, arrivals: seq<Step>)
    requires Inv(s) && OnlyNewInHand(Get(s, isA), |Get(s, isA).numbered|) && IsRun(s, arrivals)
    requires forall id :: id in Get(s, isA).sent ==> Do(!isA, Receive(Get(s, isA).sent[id])) in arrivals
    requires Get(s, !isA).readerUp && Do(!isA, StopReader) !in arrivals
    requires |Get(s, !isA).recv.Keys + IDsIn(Get(s, !isA), arrivals, !isA)| <= BUFFER_LIMIT
    ensures var n, s' := |Get(s, isA).numbered|, After(s, arrivals);
      Count(Get(s', !isA)) >= n && Flat(Get(s, isA).numbered) <= Stream(Get(s', !isA))
  {
    hide Inv, IsRun, After, Flat, Stream, IDsIn, Count;
    ReaderLasts(s, arrivals, !isA);
    CatchesUpIfReaderLasts(s, isA, arrivals);
  }

  /**
   Recovery. From any state that satisfies the invariant in which no send is half done and the peer's buffer
   has room for what arrives: the sender retransmits, every retransmitted packet is taken in by the peer in
   any order and with anything else in between, the peer's next acknowledgement is computed, and after
   anything else it arrives. Then nothing numbered by the time of the retransmission is unacknowledged any
   more and all of it is in the peer's stream.
   */
  lemma Recovery(s0: System, isA: bool, arrivals: seq<Step>, s1: System, meanwhile: seq<Step>, s3: System, ack: Step)
    requires Inv(s0)
    requires Enabled(s0, Do(isA, Retransmit)) && IsRun(Next(s0, Do(isA, Retransmit)), arrivals)
    requires forall id :: id in Get(s0, isA).sent ==> Do(!isA, Receive(Get(s0, isA).sent[id])) in arrivals
    requires Get(s0, !isA).readerUp && Do(!isA, StopReader) !in arrivals
    requires |Get(s0, !isA).recv.Keys + IDsIn(Get(s0, !isA), arrivals, !isA)| <= BUFFER_LIMIT
    requires s1 == After(Next(s0, Do(isA, Retransmit)), arrivals)
    requires Enabled(s1, Do(!isA, PrepareAck)) && IsRun(Next(s1, Do(!isA, PrepareAck)), meanwhile)
    requires s3 == After(Next(s1, Do(!isA, PrepareAck)), meanwhile)
    requires var y := Get(Next(s1, Do(!isA, PrepareAck)), !isA);
      && y.phase.AckReady? && ack == Do(isA, Receive(AckPacket(y.cameraID, y.phase.body)))
      && 28 + |y.phase.body.bitmap| <= Get(s0, isA).mtu
    requires Enabled(s3, ack)
    ensures Flat(Get(s0, isA).numbered) <= Stream(Get(s1, !isA))
    ensures forall id :: id in Get(Next(s3, ack), isA).sent ==> |Get(s0, isA).numbered| <= id
    ensures Get(Next(s3, ack), isA).numbered == Get(s0, isA).numbered ==> Get(Next(s3, ack), isA).sent == map[]
  {
    hide Inv, Act, CanAct, IsRun, After, Flat, Stream, Emits, AckPacket, IDsIn;
    ReaderLasts(Next(s0, Do(isA, Retransmit)), arrivals, !isA);
    RecoveryIfReaderLasts(s0, isA, arrivals, s1, meanwhile, s3, ack);
  }

  // ---- when a recovering run exists

  /** Everything but what receiving changes. */
  predicate SameButReceived(y: Endpoint, y': Endpoint)
  {
    && y'.phase == y.phase && y'.writerUp == y.writerUp && y'.readerUp == y.readerUp && y'.mtu == y.mtu
    && y'.clientID == y.clientID && y'.cameraID == y.cameraID && y'.numbered == y.numbered
  }

  lemma SameAsItself(y: Endpoint)
    ensures SameButReceived(y, y)
  {
  }

  lemma SameThroughout(x: Endpoint, y: Endpoint, z: Endpoint)
    requires SameButReceived(x, y) && SameButReceived(y, z)
    ensures SameButReceived(x, z)
  {
  }

  lemma SettledKeeps(e: Endpoint)
    ensures var e' := Settled(e);
      && e'.readerUp == e.readerUp && e'.writerUp == e.writerUp && e'.phase == e.phase && e'.draining == []
      && e'.sent == e.sent && e'.numbered == e.numbered && e'.recv == e.recv && Count(e') == Count(e)
      && SameButReceived(e, e')
  {
  }

  lemma SettledStream(e: Endpoint)
    ensures Stream(Settled(e)) == Settled(e).delivered
  {
    NothingQueued(Settled(e));
  }

  /** Both write loops idle, both read loops up. */
  ghost predicate Undisturbed(s: System, isA: bool)
  {
    var x, y := Get(s, isA), Get(s, !isA);
    && Inv(s)
    && x.writerUp && x.phase == Idle && x.readerUp && y.writerUp && y.phase == Idle && y.readerUp
  }

  /** The receiver y can still take in what x has numbered, or has it already. */
  predicate HasRoom(x: Endpoint, y: Endpoint) { |y.recv| <= 1024 || Count(y) >= |x.numbered| }

  /** The packet awaited next is put in order at once, and the buffer does not grow. */
  lemma AwaitedIsTaken(y: Endpoint, payload: Chunk)
    requires |y.recv| <= BUFFER_LIMIT && Count(y) !in y.recv
    ensures var y' := OnData(y, Count(y), payload);
      SameButReceived(y, y') && |y'.recv| <= BUFFER_LIMIT && Count(y) < Count(y')
  {
    hide Drain;
    var id, y' := Count(y), OnData(y, Count(y), payload);
    DrainMeaning(Store(y.recv, id, payload), id);
    assert y'.recv.Keys <= y.recv.Keys;
    assert |y.recv| == |y.recv.Keys| && |y'.recv| == |y'.recv.Keys|;
    Fits(y'.recv.Keys, y.recv.Keys, BUFFER_LIMIT);
  }

  /** The reader takes what is in order, and the packet awaited next arrives. */
  lemma AwaitedRun(s: System, isA: bool, bytes: seq<byte>, id: u32, payload: Chunk) returns (steps: seq<Step>)
    requires var y := Get(s, isA);
      && y.readerUp && |y.recv| <= BUFFER_LIMIT && id == Count(y) && id !in y.recv
      && Accepted(y, bytes) == Some(Data(y.clientID, id, payload))
    requires Datagram(isA, bytes) in s.net
    ensures IsRun(s, steps)
    ensures var s' := After(s, steps);
      var y, y' := Get(s, isA), Get(s', isA);
      && Get(s', !isA) == Get(s, !isA) && s.net <= s'.net && SameButReceived(y, y')
      && |y'.recv| <= BUFFER_LIMIT && Count(y) < Count(y')
  {
    hide IsRun, After, CanRun, Acts, OnData, Accepted, Settled, SameButReceived, Next, Enabled, Count;
    var y := Get(s, isA);
    var settle := SettleRun(y);
    Lift(s, isA, settle);
    var s1 := After(s, Steps(isA, settle));
    var y1 := Get(s1, isA);
    SettledKeeps(y);
    SameMeans(y, y1);
    SameReading(y, y1, bytes);
    ReceiveDataStep(s1, isA, bytes, id, payload);
    var receive := Do(isA, Receive(bytes));
    RunExtend(s, Steps(isA, settle), receive);
    steps := Steps(isA, settle) + [receive];
    AwaitedIsTaken(y1, payload);
    SameThroughout(y, y1, OnData(y1, id, payload));
  }

  lemma SameMeans(y: Endpoint, y': Endpoint)
    requires SameButReceived(y, y')
    ensures y'.mtu == y.mtu && y'.clientID == y.clientID && y'.readerUp == y.readerUp
    ensures y'.phase == y.phase && y'.writerUp == y.writerUp
  {
  }

  /** No send is half done, and all that is on record is on its way to the session. */
  ghost predicate Offered(s: System, isA: bool)
  {
    var x := Get(s, !isA);
    && Inv(s) && OnlyNewInHand(x, |x.numbered|)
    && forall id :: id in x.sent ==> Datagram(isA, x.sent[id]) in s.net
  }

  /** Then so is the packet awaited next, if it has been numbered. */
  lemma AwaitedIsOffered(s: System, isA: bool) returns (bytes: seq<byte>, id: u32, payload: Chunk)
    requires Offered(s, isA) && Count(Get(s, isA)) < |Get(s, !isA).numbered|
    ensures id == Count(Get(s, isA)) && id !in Get(s, isA).recv && Datagram(isA, bytes) in s.net
    ensures Accepted(Get(s, isA), bytes) == Some(Data(Get(s, isA).clientID, id, payload))
  {
    hide NetSound, Flat, BytesInOrder, Stream, Accepted, DataPacket;
    var x, y := Get(s, !isA), Get(s, isA);
    assert Link(x, y, s.net, !isA);
    assert !Reached(y, Count(y));
    id := Count(y);
    bytes, payload := x.sent[id], x.numbered[id];
    DataArrives(x, y, id);
  }

  /** While the buffer has room the missing packets can arrive in order, and then it needs no more. */
  lemma {:induction false} CatchUpRun(s: System, isA: bool) returns (steps: seq<Step>)
    requires Offered(s, isA) && Get(s, isA).readerUp && HasRoom(Get(s, !isA), Get(s, isA))
    ensures IsRun(s, steps)
    ensures var s' := After(s, steps);
      && Inv(s') && Get(s', !isA) == Get(s, !isA) && SameButReceived(Get(s, isA), Get(s', isA))
      && Count(Get(s', isA)) >= |Get(s, !isA).numbered|
    decreases |Get(s, !isA).numbered| - Count(Get(s, isA))
  {
    hide IsRun, After, Accepted, SameButReceived, Inv, Count;
    var y := Get(s, isA);
    if Count(y) >= |Get(s, !isA).numbered| {
      steps := [];
      RunNothing(s);
      SameAsItself(y);
    } else {
      var bytes, id, payload := AwaitedIsOffered(s, isA);
      var one := AwaitedRun(s, isA, bytes, id, payload);
      var s1 := After(s, one);
      RunKeepsInv(s, one);
      SameMeans(y, Get(s1, isA));
      var rest := CatchUpRun(s1, isA);
      RunAppend(s, one, rest);
      steps := one + rest;
      SameThroughout(y, Get(s1, isA), Get(After(s1, rest), isA));
    }
  }

  lemma TickOffers(s0: System, isA: bool)
    requires Inv(s0) && Enabled(s0, Do(isA, Retransmit))
    ensures Offered(Next(s0, Do(isA, Retransmit)), !isA)
  {
    hide Inv, Emits;
    var s := Next(s0, Do(isA, Retransmit));
    NextKeepsInv(s0, Do(isA, Retransmit));
    TickKeepsSent(s0, isA);
    forall id | id in Get(s, isA).sent
      ensures Datagram(!isA, Get(s, isA).sent[id]) in s.net
    {
      RetransmitOffersAll(s0, isA, id);
    }
  }

  /** The peer's reader has everything x has numbered, and the peer is about to acknowledge. */
  ghost predicate CaughtUp(x: Endpoint, s: System, isA: bool)
  {
    var y := Get(s, !isA);
    && Inv(s) && Get(s, isA) == x.(phase := AckDue) && y.writerUp && y.phase == AckDue
    && Count(y) == |x.numbered| && y.delivered == Flat(x.numbered)
  }

  /** First half of the run: the tick, the missing packets in order, the reader, and a tick of the peer. */
  lemma CatchUpAndRead(s0: System, isA: bool) returns (steps: seq<Step>)
    requires Undisturbed(s0, isA) && HasRoom(Get(s0, isA), Get(s0, !isA))
    ensures IsRun(s0, steps) && CaughtUp(Get(s0, isA), After(s0, steps), isA)
  {
    hide IsRun, After, CanRun, Acts, Inv, Stream, Settled, Emits, SameButReceived, Count, Flat;
    var x, tick := Get(s0, isA), Do(isA, Retransmit);
    TickOffers(s0, isA);
    RunOne(s0, tick);
    var s := Next(s0, tick);
    var arrivals := CatchUpRun(s, !isA);
    var s1 := After(s, arrivals);
    SameMeans(Get(s, !isA), Get(s1, !isA));
    var settle := SettleRun(Get(s1, !isA));
    Lift(s1, !isA, settle);
    SettledKeeps(Get(s1, !isA));
    RunAppend(s, arrivals, Steps(!isA, settle));
    var s2 := After(s1, Steps(!isA, settle));
    RunKeepsInv(s1, Steps(!isA, settle));
    var peerTick := Do(!isA, Retransmit);
    RunExtend(s, arrivals + Steps(!isA, settle), peerTick);
    NextKeepsInv(s2, peerTick);
    RunAppend(s0, [tick], arrivals + Steps(!isA, settle) + [peerTick]);
    steps := [tick] + (arrivals + Steps(!isA, settle) + [peerTick]);
    EverythingRead(s2, isA, Get(s1, !isA));
  }

  lemma EverythingRead(s: System, isA: bool, y: Endpoint)
    requires Inv(s) && Get(s, !isA) == Settled(y) && Count(y) >= |Get(s, isA).numbered|
    ensures Count(Settled(y)) == |Get(s, isA).numbered| && Settled(y).delivered == Flat(Get(s, isA).numbered)
    ensures var e := Settled(y).(phase := AckDue); Count(e) == Count(Settled(y))
  {
    hide Inv, Flat, Stream, Settled;
    SettledStream(y);
    SettledKeeps(y);
    StreamIsPrefix(s, isA);
    assert Get(s, isA).numbered[..Count(Settled(y))] == Get(s, isA).numbered;
  }

  /** The arrival of the acknowledgement the peer has prepared. */
  function AckStep(s2: System, isA: bool): Step
    requires Get(s2, !isA).phase.AckReady?
  {
    var y := Get(s2, !isA);
    Do(isA, Receive(AckPacket(y.cameraID, y.phase.body)))
  }

  /** A run between the acknowledgement's being computed and its arrival that leaves the sender's record alone. */
  ghost predicate AckReaches(s1: System, isA: bool, meanwhile: seq<Step>)
    requires Enabled(s1, Do(!isA, PrepareAck))
  {
    var s2 := Next(s1, Do(!isA, PrepareAck));
    && Get(s2, !isA).phase.AckReady? && IsRun(s2, meanwhile)
    && var s3 := After(s2, meanwhile);
      && Enabled(s3, AckStep(s2, isA))
      && Get(s3, isA).sent == Get(s1, isA).sent && Get(s3, isA).numbered == Get(s1, isA).numbered
      && Get(s3, !isA).delivered == Get(s1, !isA).delivered
  }

  /** A computed acknowledgement is sent, and the sender's read loop gets ready for it. */
  lemma AckTransmitted(s2: System, isA: bool) returns (meanwhile: seq<Step>)
    requires Get(s2, isA).readerUp && Get(s2, !isA).writerUp && Get(s2, !isA).phase.AckReady?
    ensures IsRun(s2, meanwhile)
    ensures var s3 := After(s2, meanwhile);
      && Get(s3, isA) == Settled(Get(s2, isA)) && Get(s3, !isA) == Get(s2, !isA).(phase := Idle)
      && Datagram(isA, AckStep(s2, isA).action.bytes) in s3.net
  {
    hide IsRun, After, CanRun, Acts, AckPacket, Settled;
    var y2, send := Get(s2, !isA), Do(!isA, SendAck);
    assert AckPacket(y2.cameraID, y2.phase.body) in Emits(y2, SendAck);
    RunOne(s2, send);
    var s := Next(s2, send);
    var settle := SettleRun(Get(s, isA));
    Lift(s, isA, settle);
    RunAppend(s2, [send], Steps(isA, settle));
    meanwhile := [send] + Steps(isA, settle);
  }

  /** The acknowledgement is computed and on its way. */
  lemma AckOnItsWay(s1: System, isA: bool, n: nat) returns (meanwhile: seq<Step>)
    requires Inv(s1) && Get(s1, isA).readerUp && Enabled(s1, Do(!isA, PrepareAck)) && 0 < n <= Count(Get(s1, !isA))
    ensures AckReaches(s1, isA, meanwhile)
  {
    hide IsRun, After, Inv, ComputeAck, AckPacket, Settled, Count;
    CaughtUpAckCoversAll(s1, isA, n);
    ComputeAckKeeps(Get(s1, !isA));
    var s2 := Next(s1, Do(!isA, PrepareAck));
    meanwhile := AckTransmitted(s2, isA);
    SettledKeeps(Get(s2, isA));
  }

  /** A peer that misses nothing has nothing to report in the bitmap. */
  lemma CaughtUpAckIsShort(s1: System, isA: bool)
    requires Inv(s1) && Enabled(s1, Do(!isA, PrepareAck))
    requires 0 < |Get(s1, isA).numbered| == Count(Get(s1, !isA))
    ensures var y := Get(Next(s1, Do(!isA, PrepareAck)), !isA);
      y.phase.AckReady? ==> y.phase.body.bitmap == []
    ensures Get(Next(s1, Do(!isA, PrepareAck)), isA) == Get(s1, isA)
  {
    hide NetSound, Flat, BytesInOrder, ChunksFit, SentAsNumbered, NothingForgotten, Stream, Bitmap, Drain, Emits;
    var y := Get(s1, !isA);
    assert Link(Get(s1, isA), y, s1.net, isA);
    NothingAhead(y.recv, Drain(y.recv, y.consumed + 1).next - 1);
  }

  lemma NothingAhead(store: map<nat, Chunk>, start: nat)
    requires forall id :: id in store ==> id <= start
    ensures Bitmap(store, start) == []
  {
  }

  /** When it arrives nothing is unacknowledged any more. */
  lemma AckHeard(s1: System, isA: bool, meanwhile: seq<Step>)
    requires Inv(s1) && Get(s1, isA).mtu >= 28
    requires Enabled(s1, Do(!isA, PrepareAck)) && AckReaches(s1, isA, meanwhile)
    requires 0 < |Get(s1, isA).numbered| == Count(Get(s1, !isA))
    ensures var s2 := Next(s1, Do(!isA, PrepareAck));
      var s := Next(After(s2, meanwhile), AckStep(s2, isA));
      && Get(s, isA).sent == map[] && Get(s, isA).numbered == Get(s1, isA).numbered
      && Get(s, !isA).delivered == Get(s1, !isA).delivered
  {
    hide IsRun, After, Inv, Flat, Stream, Emits, Accepted, OnDatagram, AckPacket, ComputeAck, Count;
    var prepare, n := Do(!isA, PrepareAck), |Get(s1, isA).numbered|;
    var s2 := Next(s1, prepare);
    var s3, ack := After(s2, meanwhile), AckStep(s2, isA);
    CaughtUpAckCoversAll(s1, isA, n);
    CaughtUpAckIsShort(s1, isA);
    NextKeepsInv(s1, prepare);
    AckIsPruned(s2, isA, meanwhile, s3, ack, n);
    RunKeepsInv(s2, meanwhile);
    NextKeepsInv(s3, ack);
    ReceiveKeeps(Get(s3, isA), ack.action.bytes);
    OldIDsOnly(Next(s3, ack), isA);
  }

  /** Second half: the peer acknowledges, the sender receives it. */
  lemma AcknowledgeRun(x: Endpoint, s1: System, isA: bool) returns (steps: seq<Step>)
    requires CaughtUp(x, s1, isA) && x.numbered != [] && x.readerUp && x.mtu >= 28
    ensures IsRun(s1, steps)
    ensures var s := After(s1, steps);
      Get(s, isA).sent == map[] && Get(s, isA).numbered == x.numbered && Get(s, !isA).delivered == Flat(x.numbered)
  {
    hide IsRun, After, Inv, Flat, Next, AckReaches, Count;
    var prepare := Do(!isA, PrepareAck);
    var meanwhile := AckOnItsWay(s1, isA, |x.numbered|);
    AckHeard(s1, isA, meanwhile);
    AckReachesMeans(s1, isA, meanwhile);
    RunOne(s1, prepare);
    RunAppend(s1, [prepare], meanwhile);
    var ack := AckStep(Next(s1, prepare), isA);
    RunExtend(s1, [prepare] + meanwhile, ack);
    steps := [prepare] + meanwhile + [ack];
  }

  lemma AckReachesMeans(s1: System, isA: bool, meanwhile: seq<Step>)
    requires Enabled(s1, Do(!isA, PrepareAck)) && AckReaches(s1, isA, meanwhile)
    ensures var s2 := Next(s1, Do(!isA, PrepareAck));
      && Get(s2, !isA).phase.AckReady? && IsRun(s2, meanwhile)
      && Enabled(After(s2, meanwhile), AckStep(s2, isA))
  {
    hide IsRun, After, Next, Enabled;
  }

  /** A run after which nothing is unacknowledged and all that was numbered has been read by the peer. */
  ghost predicate Recovers(s0: System, isA: bool, steps: seq<Step>)
  {
    && IsRun(s0, steps)
    && var s := After(s0, steps);
      Get(s, isA).sent == map[] && Flat(Get(s0, isA).numbered) <= Get(s, !isA).delivered
  }

  /**
   Nothing is unacknowledged, or an acknowledgement without a bitmap fits the datagram buffer and the peer can
   still take in what it misses.
   */
  predicate Recoverable(x: Endpoint, y: Endpoint) { x.sent == map[] || (x.mtu >= 28 && HasRoom(x, y)) }

  /** Then there is one. */
  lemma RecoveryIsPossible(s0: System, isA: bool) returns (steps: seq<Step>)
    requires Undisturbed(s0, isA) && Recoverable(Get(s0, isA), Get(s0, !isA))
    ensures Recovers(s0, isA, steps) && Get(After(s0, steps), isA).numbered == Get(s0, isA).numbered
  {
    hide IsRun, After, Inv, Flat, CaughtUp, HasRoom;
    var x := Get(s0, isA);
    if x.sent == map[] {
      steps := ReadingIsEnough(s0, isA);
    } else {
      OldIDsOnly(s0, isA);
      var first := CatchUpAndRead(s0, isA);
      var second := AcknowledgeRun(x, After(s0, first), isA);
      RunAppend(s0, first, second);
      steps := first + second;
    }
  }

  /** With nothing unacknowledged the peer has everything, and its reader only has to take it. */
  lemma ReadingIsEnough(s0: System, isA: bool) returns (steps: seq<Step>)
    requires Undisturbed(s0, isA) && Get(s0, isA).sent == map[]
    ensures Recovers(s0, isA, steps) && Get(After(s0, steps), isA) == Get(s0, isA)
  {
    hide IsRun, After, CanRun, Acts, Inv, Settled, Flat, Count;
    var y := Get(s0, !isA);
    if Count(y) < |Get(s0, isA).numbered| {
      AwaitedIsOnRecord(s0, isA);
    }
    var settle := SettleRun(y);
    Lift(s0, !isA, settle);
    steps := Steps(!isA, settle);
    RunKeepsInv(s0, steps);
    EverythingRead(After(s0, steps), isA, y);
  }

  // ---- and when none does

  /** Beyond the limit the buffer is never touched again: nothing comes in, and nothing gets in order. */
  lemma FullBufferStays(y: Endpoint, action: Action)
    requires CanAct(y, action) && |y.recv| > BUFFER_LIMIT
    ensures Act(y, action).recv == y.recv && Count(Act(y, action)) == Count(y)
  {
    hide OnDatagram, ComputeAck, DataPacket;
    match action
    case Receive(bytes) => FullBufferStaysOnReceipt(y, bytes);
    case PrepareAck => ComputeAckKeeps(y);
    case _ =>
  }

  lemma FullBufferStaysOnReceipt(y: Endpoint, bytes: seq<byte>)
    requires |y.recv| > BUFFER_LIMIT
    ensures OnDatagram(y, bytes).recv == y.recv && Count(OnDatagram(y, bytes)) == Count(y)
  {
    hide Accepted, Prune, TakenIn;
  }

  /** So a packet the peer still awaits then stays unacknowledged, whatever happens. */
  lemma {:induction false} AwaitedStaysUnacknowledged(s: System, isA: bool, steps: seq<Step>)
    requires Inv(s) && IsRun(s, steps)
    requires |Get(s, !isA).recv| > BUFFER_LIMIT && Count(Get(s, !isA)) in Get(s, isA).sent
    ensures Count(Get(s, !isA)) in Get(After(s, steps), isA).sent
    decreases |steps|
  {
    hide Inv, Act, CanAct, Emits, Count;
    if steps != [] {
      var y, step := Get(s, !isA), steps[0];
      AwaitedIsNotReached(s, isA);
      if Count(y) !in Get(Next(s, step), isA).sent {
        PrunedOnlyIfReached(s, step, isA, Count(y));
      }
      if step.Do? && step.isA == !isA {
        FullBufferStays(y, step.action);
      }
      NextKeepsInv(s, step);
      AwaitedStaysUnacknowledged(Next(s, step), isA, steps[1..]);
    }
  }

  lemma AwaitedIsNotReached(s: System, isA: bool)
    requires Inv(s)
    ensures !Reached(Get(s, !isA), Count(Get(s, !isA)))
  {
    hide NetSound, Flat, BytesInOrder, ChunksFit, SentAsNumbered, NothingForgotten, Stream;
    assert Link(Get(s, isA), Get(s, !isA), s.net, isA);
  }

  lemma AwaitedIsOnRecord(s: System, isA: bool)
    requires Inv(s) && Get(s, isA).phase == Idle && Count(Get(s, !isA)) < |Get(s, isA).numbered|
    ensures Count(Get(s, !isA)) in Get(s, isA).sent
  {
    hide NetSound, Flat, BytesInOrder, ChunksFit, SentAsNumbered, Reached, ReceivedInOrder;
    AwaitedIsNotReached(s, isA);
    assert Link(Get(s, isA), Get(s, !isA), s.net, isA);
  }

  /** No acknowledgement is shorter than its header. */
  lemma ShortBufferTakesNoAck(x: Endpoint, bytes: seq<byte>)
    requires x.mtu < 28
    ensures var p := Accepted(x, bytes); p.Some? ==> !p.value.Ack?
  {
    hide GetU32, ToI32;
  }

  /** In a buffer too short for any acknowledgement nothing is ever acknowledged. */
  lemma {:induction false} ShortBufferKeepsRecord(s: System, isA: bool, steps: seq<Step>, id: nat)
    requires IsRun(s, steps) && Get(s, isA).mtu < 28 && id in Get(s, isA).sent
    ensures id in Get(After(s, steps), isA).sent
    decreases |steps|
  {
    hide Act, CanAct, Emits, Accepted, Later;
    if steps != [] {
      var x, step := Get(s, isA), steps[0];
      var x' := Get(Next(s, step), isA);
      StepIsLater(s, step, isA);
      LaterMtu(x, x');
      if id !in x'.sent {
        OnlyAcksPrune(x, step.action, id);
        ShortBufferTakesNoAck(x, step.action.bytes);
      }
      ShortBufferKeepsRecord(Next(s, step), isA, steps[1..], id);
    }
  }

  lemma LaterMtu(x: Endpoint, x': Endpoint)
    requires Later(x, x')
    ensures x'.mtu == x.mtu
  {
  }

  /**
   The exact condition. From a state with idle write loops and both read loops up, some run leaves nothing
   unacknowledged and everything numbered with the peer's reader, exactly if nothing is unacknowledged, or
   the shortest acknowledgement fits and the peer's buffer is within its limit or the peer misses nothing.
   */
  lemma RecoveryExactly(s0: System, isA: bool)
    requires Undisturbed(s0, isA)
    ensures (exists steps :: Recovers(s0, isA, steps)) <==> Recoverable(Get(s0, isA), Get(s0, !isA))
  {
    hide IsRun, After, Inv, Flat, Count;
    var x := Get(s0, isA);
    if Recoverable(x, Get(s0, !isA)) {
      var steps := RecoveryIsPossible(s0, isA);
    } else {
      var id :| id in x.sent;
      if x.mtu >= 28 {
        AwaitedIsOnRecord(s0, isA);
      }
      forall steps | IsRun(s0, steps)
        ensures !Recovers(s0, isA, steps)
      {
        if x.mtu < 28 {
          ShortBufferKeepsRecord(s0, isA, steps, id);
        } else {
          AwaitedStaysUnacknowledged(s0, isA, steps);
        }
      }
    }
  }
}
