/** What the P2P transport promises over whole runs: ordered delivery, sound acknowledgements, recovery. */
module UidDelivery {
  import opened Bytes
  import opened UdpPacket
  import opened UidSession
  import opened UidNetwork

  // ---- safety

  /**
   In every reachable state the bytes handed to the reader are a prefix of the bytes passed to Write
   on the other side: every chunk once, in order, none larger than the payload limit.
   */
  lemma DeliveredIsPrefixOfWritten(start: System, steps: seq<Step>, isA: bool)
    requires Initially(start) && IsRun(start, steps)
    ensures var s, r := Get(After(start, steps), isA), Get(After(start, steps), !isA);
      && Count(r) <= |s.numbered|
      && r.delivered <= Stream(r) == Flat(s.numbered[..Count(r)]) <= s.offered
      && (forall i :: 0 <= i < |s.numbered| ==> 0 < |s.numbered[i]| <= s.mtu - 20)
  {
    ReachableInv(start, steps);
    StreamIsPrefix(After(start, steps), isA);
  }

  lemma StreamIsPrefix(s: System, isA: bool)
    requires Inv(s)
    ensures var x, y := Get(s, isA), Get(s, !isA);
      && Count(y) <= |x.numbered|
      && y.delivered <= Stream(y) == Flat(x.numbered[..Count(y)]) <= x.offered
      && (forall i :: 0 <= i < |x.numbered| ==> 0 < |x.numbered[i]| <= x.mtu - 20)
  {
    hide NetSound, Flat, SentAsNumbered, NothingForgotten;
    var x, y := Get(s, isA), Get(s, !isA);
    assert Link(x, y, s.net, isA);
    FlatPrefix(x.numbered, Count(y));
    PrefixTransitive(Flat(x.numbered[..Count(y)]), Flat(x.numbered), x.offered[..|x.offered| - |x.writing|], x.offered);
  }

  lemma PrefixTransitive(a: seq<byte>, b: seq<byte>, c: seq<byte>, d: seq<byte>)
    requires a <= b <= c <= d
    ensures a <= d
  {
  }

  /** A packet leaves the sent packets only if the peer has it; no acknowledgement, however old, says otherwise. */
  lemma PrunedOnlyIfReached(s: System, step: Step, isA: bool, id: nat)
    requires Inv(s) && Enabled(s, step)
    requires id in Get(s, isA).sent && id !in Get(Next(s, step), isA).sent
    ensures Reached(Get(s, !isA), id)
  {
    hide Act, CanAct, Accepted, Emits, Reached, Paired, BytesInOrder, ChunksFit, SentAsNumbered, ReceivedInOrder,
      NothingForgotten;
    var x, y := Get(s, isA), Get(s, !isA);
    assert Link(x, y, s.net, isA);
    assert step.Do? && step.isA == isA;
    OnlyAcksPrune(x, step.action, id);
    assert AckSound(x, y, step.action.bytes);
  }

  lemma OnlyAcksPrune(x: Endpoint, action: Action, id: nat)
    requires CanAct(x, action) && id in x.sent && id !in Act(x, action).sent
    ensures action.Receive? && var p := Accepted(x, action.bytes);
      p.Some? && p.value.Ack? && Covers(p.value.packetID, p.value.payload, id)
  {
    hide Drain, Accepted, DataPacket, ComputeAck, Covers;
    match action {
      case PrepareAck => ComputeAckKeeps(x);
      case _ =>
    }
  }

  /** Every numbered packet is on record, in the writer's hand, or has reached the peer. */
  lemma EveryPacketAccountedFor(start: System, steps: seq<Step>, isA: bool, id: nat)
    requires Initially(start) && IsRun(start, steps)
    requires id < |Get(After(start, steps), isA).numbered|
    ensures var s := After(start, steps);
      id in Get(s, isA).sent || InHand(Get(s, isA), id) || Reached(Get(s, !isA), id)
  {
    hide Flat, BytesInOrder, ChunksFit, SentAsNumbered, ReceivedInOrder, NetSound, IsRun, After, Reached, Initially;
    ReachableInv(start, steps);
    var s := After(start, steps);
    assert Link(Get(s, isA), Get(s, !isA), s.net, isA);
  }

  // ---- what a run can only add to

  /** x' is the same session later on. */
  ghost predicate Later(x: Endpoint, x': Endpoint)
  {
    && x.numbered <= x'.numbered && Count(x) <= Count(x')
    && x.cameraID == x'.cameraID && x.clientID == x'.clientID && x.mtu == x'.mtu
    && (forall id: nat :: Reached(x, id) ==> Reached(x', id))
    && (x'.readerUp ==> x.readerUp)
  }

  lemma StepIsLater(s: System, step: Step, isA: bool)
    requires Enabled(s, step)
    ensures Later(Get(s, isA), Get(Next(s, step), isA))
  {
    hide Act, CanAct, Emits, Reached, Accepted, Count;
    if step.Do? && step.isA == isA {
      NumberedGrows(Get(s, isA), step.action);
      ReachedGrows(Get(s, isA), step.action);
      ReaderStaysDown(Get(s, isA), step.action);
    }
  }

  lemma ReaderStaysDown(x: Endpoint, action: Action)
    requires CanAct(x, action)
    ensures Act(x, action).readerUp ==> x.readerUp
  {
    hide Drain, Accepted, ComputeAck, Prune, DataPacket;
    if action.PrepareAck? {
      ComputeAckKeeps(x);
    }
  }

  lemma {:induction false} RunIsLater(s: System, steps: seq<Step>, isA: bool)
    requires IsRun(s, steps)
    ensures Later(Get(s, isA), Get(After(s, steps), isA))
    decreases |steps|
  {
    hide Enabled, Next, Reached, Count;
    if steps != [] {
      StepIsLater(s, steps[0], isA);
      RunIsLater(Next(s, steps[0]), steps[1..], isA);
    }
  }

  /** A packet whose datagram the peer has taken in, without giving up on its buffer, has arrived for good. */
  lemma {:induction false} TakenInMeansReached(s: System, steps: seq<Step>, isA: bool, bytes: seq<byte>,
                                               id: u32, payload: Chunk)
    requires IsRun(s, steps) && Do(isA, Receive(bytes)) in steps
    requires Accepted(Get(s, isA), bytes) == Some(Data(Get(s, isA).clientID, id, payload))
    requires Get(After(s, steps), isA).readerUp
    ensures Reached(Get(After(s, steps), isA), id)
    decreases |steps|
  {
    hide Accepted, Reached, Count, Emits, Drain;
    var s', rest := Next(s, steps[0]), steps[1..];
    RunIsLater(s', rest, isA);
    if steps[0] == Do(isA, Receive(bytes)) {
      DataReceived(Get(s, isA), id, payload);
    } else {
      assert Do(isA, Receive(bytes)) in rest;
      StepIsLater(s, steps[0], isA);
      SameReading(Get(s, isA), Get(s', isA), bytes);
      TakenInMeansReached(s', rest, isA, bytes, id, payload);
    }
  }

  // ---- recovery

  /** A retransmit tick puts every packet on record back on the wire. */
  lemma RetransmitOffersAll(s: System, isA: bool, id: nat)
    requires Enabled(s, Do(isA, Retransmit)) && id in Get(s, isA).sent
    ensures Datagram(!isA, Get(s, isA).sent[id]) in Next(s, Do(isA, Retransmit)).net
  {
    assert Get(s, isA).sent[id] in Emits(Get(s, isA), Retransmit);
  }

  ghost predicate AllReached(y: Endpoint, n: nat)
  {
    forall id: nat :: id < n ==> Reached(y, id)
  }

  /** A receiver that every packet below n has reached has put all of them in order: no gap can remain. */
  lemma ReachedMeansOrdered(s: System, isA: bool, n: nat)
    requires Inv(s) && n <= |Get(s, isA).numbered|
    requires AllReached(Get(s, !isA), n)
    ensures Count(Get(s, !isA)) >= n
    ensures Flat(Get(s, isA).numbered[..n]) <= Stream(Get(s, !isA))
  {
    hide NetSound, Flat, BytesInOrder, ChunksFit, SentAsNumbered, NothingForgotten, Stream;
    var x, y := Get(s, isA), Get(s, !isA);
    assert Link(x, y, s.net, isA);
    assert Count(y) < n ==> Reached(y, Count(y));
    var upTo := x.numbered[..Count(y)];
    FlatPrefix(upTo, n);
    assert upTo[..n] == x.numbered[..n];
  }

  /** No packet below n is in the writer's hand, nor will one be. */
  ghost predicate OnlyNewInHand(x: Endpoint, n: nat)
  {
    n <= |x.numbered| && forall id: nat :: InHand(x, id) ==> id >= n
  }

  /**
   First half of recovery: the sender retransmits with no send half done, every retransmitted packet is
   taken in by the peer at some point of whatever happens next, and the peer's read loop lasts. Then the
   peer has everything numbered so far, in order.
   */
  lemma CatchesUpIfReaderLasts(s: System, isA: bool, arrivals: seq<Step>)
    requires Inv(s) && OnlyNewInHand(Get(s, isA), |Get(s, isA).numbered|) && IsRun(s, arrivals)
    requires forall id :: id in Get(s, isA).sent ==> Do(!isA, Receive(Get(s, isA).sent[id])) in arrivals
    requires Get(After(s, arrivals), !isA).readerUp
    ensures var n, s' := |Get(s, isA).numbered|, After(s, arrivals);
      Count(Get(s', !isA)) >= n && Flat(Get(s, isA).numbered) <= Stream(Get(s', !isA))
  {
    hide NetSound, Flat, BytesInOrder, Reached, Count, IsRun, After, DataPacket, Accepted, ReceivedInOrder;
    var x, y, s' := Get(s, isA), Get(s, !isA), After(s, arrivals);
    assert Link(x, y, s.net, isA);
    RunIsLater(s, arrivals, !isA);
    RunIsLater(s, arrivals, isA);
    RunKeepsInv(s, arrivals);
    var y' := Get(s', !isA);
    forall id: nat | id < |x.numbered|
      ensures Reached(y', id)
    {
      if id in x.sent {
        DataArrives(x, y, id);
        TakenInMeansReached(s, arrivals, !isA, x.sent[id], id, x.numbered[id]);
      }
    }
    ReachedMeansOrdered(s', isA, |x.numbered|);
    assert Get(s', isA).numbered[..|x.numbered|] == x.numbered;
  }

  /** The acknowledgement a caught-up peer computes covers every packet below n, bitmap or not. */
  lemma CaughtUpAckCoversAll(s: System, isA: bool, n: nat)
    requires Inv(s) && Enabled(s, Do(!isA, PrepareAck)) && 0 < n <= Count(Get(s, !isA))
    ensures var y := Get(Next(s, Do(!isA, PrepareAck)), !isA);
      y.phase.AckReady? && n - 1 <= y.phase.body.start < TWO32 && |y.phase.body.bitmap| <= BITMAP_CAP
  {
    hide NetSound, Flat, BytesInOrder, ChunksFit, NothingForgotten, Drain, Bitmap, Emits, Stream;
    assert Link(Get(s, isA), Get(s, !isA), s.net, isA);
    AckBodyIsSound(Get(s, isA), Get(s, !isA));
  }

  lemma CoveringAckPrunes(x: Endpoint, bytes: seq<byte>, start: u32, bitmap: seq<byte>, n: nat)
    requires Accepted(x, bytes) == Some(Ack(x.clientID, start, bitmap)) && n <= start + 1
    ensures forall id :: id in OnDatagram(x, bytes).sent ==> id >= n
  {
    hide Accepted;
  }

  /**
   Recovery. From any state that satisfies the invariant (every reachable one does) in which no send is
   half done: the sender retransmits, every retransmitted packet is taken in by the peer in any order
   and with anything else in between, the peer's next acknowledgement is computed, and after anything
   else it arrives. Then no packet numbered by the time of the retransmission is unacknowledged any
   more and all of them are in the peer's stream. Neither the cumulative ID nor the bitmap cap of 200
   entries can prevent it; that acknowledgement only has to fit the sender's datagram buffer, and the peer's
   read loop has to last.
   */
  lemma RecoveryIfReaderLasts(s0: System, isA: bool, arrivals: seq<Step>, s1: System, meanwhile: seq<Step>,
                              s3: System, ack: Step)
    requires Inv(s0)
    requires Enabled(s0, Do(isA, Retransmit)) && IsRun(Next(s0, Do(isA, Retransmit)), arrivals)
    requires forall id :: id in Get(s0, isA).sent ==> Do(!isA, Receive(Get(s0, isA).sent[id])) in arrivals
    requires s1 == After(Next(s0, Do(isA, Retransmit)), arrivals) && Get(s1, !isA).readerUp
    requires Enabled(s1, Do(!isA, PrepareAck)) && IsRun(Next(s1, Do(!isA, PrepareAck)), meanwhile)
    requires s3 == After(Next(s1, Do(!isA, PrepareAck)), meanwhile)
    requires var y := Get(Next(s1, Do(!isA, PrepareAck)), !isA);
      && y.phase.AckReady? && ack == Do(isA, Receive(AckPacket(y.cameraID, y.phase.body)))
      && 28 + |y.phase.body.bitmap| <= Get(s0, isA).mtu
    requires Enabled(s3, ack)
    ensures Flat(Get(s0, isA).numbered) <= Stream(Get(s1, !isA))
    ensures forall id :: id in Get(Next(s3, ack), isA).sent ==> |Get(s0, isA).numbered| <= id
    ensures Get(Next(s3, ack), isA).numbered == Get(s0, isA).numbered ==> Get(Next(s3, ack), isA).sent == map[]
  {
    hide Act, CanAct, Enabled, IsRun, After, Flat, Stream, Link, Accepted, Count, Emits, OnDatagram, DataPacket,
      AckPacket;
    var tick, prepare := Do(isA, Retransmit), Do(!isA, PrepareAck);
    var sent, s2 := Next(s0, tick), Next(s1, prepare);
    var x0, y2 := Get(s0, isA), Get(s2, !isA);
    var n := |x0.numbered|;
    TickKeepsSent(s0, isA);
    NextKeepsInv(s0, tick);
    RunKeepsInv(sent, arrivals);
    CatchesUpIfReaderLasts(sent, isA, arrivals);
    NextKeepsInv(s1, prepare);
    RunKeepsInv(s2, meanwhile);
    NextKeepsInv(s3, ack);
    StepIsLater(s0, tick, isA);
    RunIsLater(sent, arrivals, isA);
    StepIsLater(s1, prepare, isA);
    if n > 0 {
      CaughtUpAckCoversAll(s1, isA, n);
      AckIsPruned(s2, isA, meanwhile, s3, ack, n);
    }
    OldIDsOnly(Next(s3, ack), isA);
  }

  lemma TickKeepsSent(s: System, isA: bool)
    requires Enabled(s, Do(isA, Retransmit))
    ensures var x, x' := Get(s, isA), Get(Next(s, Do(isA, Retransmit)), isA);
      x'.sent == x.sent && x'.numbered == x.numbered && OnlyNewInHand(x', |x.numbered|)
  {
    hide Emits;
  }

  lemma OldIDsOnly(s: System, isA: bool)
    requires Inv(s)
    ensures forall id :: id in Get(s, isA).sent ==> id < |Get(s, isA).numbered|
  {
    hide NetSound, Flat, BytesInOrder, ChunksFit, NothingForgotten, ReceivedInOrder;
    assert Link(Get(s, isA), Get(s, !isA), s.net, isA);
  }

  /** However much later it arrives, an acknowledgement up to n prunes every packet below n. */
  lemma AckIsPruned(s2: System, isA: bool, meanwhile: seq<Step>, s3: System, ack: Step, n: nat)
    requires Inv(s2)
    requires IsRun(s2, meanwhile) && s3 == After(s2, meanwhile) && Enabled(s3, ack)
    requires var y := Get(s2, !isA);
      && y.phase.AckReady? && n <= y.phase.body.start + 1 && y.phase.body.start < TWO32
      && |y.phase.body.bitmap| <= BITMAP_CAP && 28 + |y.phase.body.bitmap| <= Get(s2, isA).mtu
      && ack == Do(isA, Receive(AckPacket(y.cameraID, y.phase.body)))
    ensures forall id :: id in Get(Next(s3, ack), isA).sent ==> n <= id
  {
    hide IsRun, After, Flat, Stream, Accepted, Count, Emits, AckPacket, BytesInOrder, ChunksFit, SentAsNumbered,
      NothingForgotten, ReceivedInOrder, NetSound, OnDatagram;
    var x2, y2 := Get(s2, isA), Get(s2, !isA);
    assert Link(x2, y2, s2.net, isA) && Link(y2, x2, s2.net, !isA);
    RunIsLater(s2, meanwhile, isA);
    var x3 := Get(s3, isA);
    var bytes := AckPacket(y2.cameraID, y2.phase.body);
    AckArrives(y2, x3, y2.phase.body);
    CoveringAckPrunes(x3, bytes, y2.phase.body.start, y2.phase.body.bitmap, n);
  }

  /**
   The bitmap at work. What a session had received when it computed an acknowledgement, up to 200 IDs from the
   one it awaited on, is off the peer's record once that acknowledgement has arrived, however much later: it is
   not sent again only because an earlier packet is missing.
   */
  lemma ReportedIsPruned(s1: System, isA: bool, meanwhile: seq<Step>, s3: System, ack: Step, id: nat)
    requires Inv(s1) && Enabled(s1, Do(!isA, PrepareAck)) && IsRun(Next(s1, Do(!isA, PrepareAck)), meanwhile)
    requires s3 == After(Next(s1, Do(!isA, PrepareAck)), meanwhile) && Enabled(s3, ack)
    requires var y := Get(Next(s1, Do(!isA, PrepareAck)), !isA);
      && y.phase.AckReady? && ack == Do(isA, Receive(AckPacket(y.cameraID, y.phase.body)))
      && 28 + |y.phase.body.bitmap| <= Get(s1, isA).mtu
    requires Reached(Get(s1, !isA), id) && id < Count(Get(s1, !isA)) + 200
    ensures id !in Get(Next(s3, ack), isA).sent
  {
    hide IsRun, After, Inv, Reached, Accepted, Emits, AckPacket, ComputeAck, OnDatagram, Count, Later;
    var prepare := Do(!isA, PrepareAck);
    var s2 := Next(s1, prepare);
    var y2 := Get(s2, !isA);
    NextKeepsInv(s1, prepare);
    BodyReports(s1, isA, id);
    AckGetsThrough(s2, isA, meanwhile, y2.phase.body);
    FlaggedIsPruned(Get(s3, isA), ack.action.bytes, y2.phase.body.start, y2.phase.body.bitmap, id);
  }

  /** The acknowledgement speaks for the ID: it is the cumulative one or below it, or flagged behind it. */
  predicate SpeaksFor(body: AckBody, id: nat)
  {
    id <= body.start || (id - body.start - 1 < |body.bitmap| && body.bitmap[id - body.start - 1] != 0)
  }

  lemma BodyReports(s: System, isA: bool, id: nat)
    requires Inv(s) && Enabled(s, Do(!isA, PrepareAck))
    requires Reached(Get(s, !isA), id) && id < Count(Get(s, !isA)) + 200
    ensures var s' := Next(s, Do(!isA, PrepareAck));
      && Get(s', isA) == Get(s, isA)
      && (Get(s', !isA).phase.AckReady? ==> SpeaksFor(Get(s', !isA).phase.body, id))
  {
    hide Inv, Emits, Reached, Count, ComputeAck, SpeaksFor;
    WindowReports(Get(s, !isA), id);
  }

  lemma WindowReports(y: Endpoint, id: nat)
    requires Reached(y, id) && id < Count(y) + 200 && y.phase == AckDue
    ensures ComputeAck(y).phase.AckReady? ==> SpeaksFor(ComputeAck(y).phase.body, id)
  {
    hide AckWindow, ReportsHeld;
    AckWindowMeaning(y.recv, y.consumed, y.hasConsumed);
    var w := AckWindow(y.recv, y.consumed, y.hasConsumed);
    if w.Some? && id in y.recv && w.value.start < id {
      HeldIsReported(y.recv, w.value.start, w.value.bitmap, id);
    }
  }

  lemma HeldIsReported(store: map<nat, Chunk>, start: nat, bitmap: seq<byte>, id: nat)
    requires ReportsHeld(store, start, bitmap) && id in store && start < id <= start + 200
    ensures id - start - 1 < |bitmap| && bitmap[id - start - 1] != 0
  {
  }

  /** In a buffer that is large enough an acknowledgement arrives as it was computed, however late. */
  lemma AckGetsThrough(s2: System, isA: bool, meanwhile: seq<Step>, body: AckBody)
    requires Inv(s2) && IsRun(s2, meanwhile) && 28 + |body.bitmap| <= Get(s2, isA).mtu
    requires Get(s2, !isA).phase == AckReady(body)
    ensures var x := Get(After(s2, meanwhile), isA);
      Accepted(x, AckPacket(Get(s2, !isA).cameraID, body)) == Some(Ack(x.clientID, body.start, body.bitmap))
  {
    hide IsRun, After, Accepted, AckPacket, Flat, Stream, Count, BytesInOrder, ChunksFit, SentAsNumbered,
      NothingForgotten, ReceivedInOrder, NetSound;
    var x2, y2 := Get(s2, isA), Get(s2, !isA);
    assert Link(x2, y2, s2.net, isA) && Link(y2, x2, s2.net, !isA);
    RunIsLater(s2, meanwhile, isA);
    AckArrives(y2, Get(After(s2, meanwhile), isA), body);
  }

  lemma FlaggedIsPruned(x: Endpoint, bytes: seq<byte>, start: u32, bitmap: seq<byte>, id: nat)
    requires Accepted(x, bytes) == Some(Ack(x.clientID, start, bitmap))
    requires id <= start || (id - start - 1 < |bitmap| && bitmap[id - start - 1] != 0)
    ensures id !in OnDatagram(x, bytes).sent
  {
    hide Accepted;
  }
}
