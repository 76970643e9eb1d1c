/**
 What the limit on the receive buffer of the P2P transport counts. It is meant to notice missing packets,
 but second copies of delivered packets count as well (pkg/baichuan/uid.go, readLoop).
 */
module UidOverflow {
  import opened Bytes
  import opened UdpPacket
  import opened UidDelivery
  import opened UidNetwork
  import opened UidRuns
  import opened UidSession

  /** Buffered packets that were delivered before: nothing waits for them. */
  function Stale(e: Endpoint): set<nat> { set id | id in e.recv && id < Count(e) }

  /** Buffered packets that wait for a missing one. */
  function Waiting(e: Endpoint): set<nat> { set id | id in e.recv && id > Count(e) }

  /** The packet a step takes in as a second copy of one that was delivered before. */
  function SecondCopy(e: Endpoint, action: Action): set<nat>
  {
    if !action.Receive? || |e.recv| > BUFFER_LIMIT then {}
    else match Accepted(e, action.bytes)
      case Some(Data(_, id, _)) => if id < Count(e) then {id} else {}
      case _ => {}
  }

  /** All second copies a session takes in along a run. */
  ghost function SecondCopies(s: System, steps: seq<Step>, isA: bool): set<nat>
    requires IsRun(s, steps)
    decreases |steps|
  {
    if steps == [] then {}
    else
      var now := if steps[0].Do? && steps[0].isA == isA then SecondCopy(Get(s, isA), steps[0].action) else {};
      now + SecondCopies(Next(s, steps[0]), steps[1..], isA)
  }

  lemma StaleAfterData(e: Endpoint, id: nat, payload: Chunk)
    requires Count(e) !in e.recv && |e.recv| <= BUFFER_LIMIT
    ensures Stale(OnData(e, id, payload)) == Stale(e) + if id < Count(e) then {id} else {}
  {
    hide Drain;
    var store, e' := Store(e.recv, id, payload), OnData(e, id, payload);
    DrainMeaning(store, Count(e));
    forall k: nat
      ensures k in Stale(e') <==> k in store && k < Count(e)
    {
    }
  }

  lemma StaleAfterAction(e: Endpoint, action: Action)
    requires CanAct(e, action) && Count(e) !in e.recv
    ensures Stale(Act(e, action)) == Stale(e) + SecondCopy(e, action)
  {
    hide Drain, Accepted, ComputeAck, Prune, DataPacket, OnData;
    match action
    case Receive(bytes) => StaleAfterReceive(e, bytes);
    case PrepareAck => ComputeAckKeeps(e);
    case _ =>
  }

  lemma StaleAfterReceive(e: Endpoint, bytes: seq<byte>)
    requires Count(e) !in e.recv
    ensures Stale(OnDatagram(e, bytes)) == Stale(e) + SecondCopy(e, Receive(bytes))
  {
    hide Accepted, Prune, OnData, Stale, Count;
    match Accepted(e, bytes)
    case Some(Data(_, id, payload)) => StaleAfterPacket(e, id, payload);
    case Some(Ack(_, _, _)) => SameStale(e, OnDatagram(e, bytes));
    case _ =>
  }

  lemma StaleAfterPacket(e: Endpoint, id: nat, payload: Chunk)
    requires Count(e) !in e.recv
    ensures Stale(OnData(e, id, payload)) ==
      Stale(e) + if |e.recv| <= BUFFER_LIMIT && id < Count(e) then {id} else {}
  {
    hide OnData, Stale, Count;
    if |e.recv| > BUFFER_LIMIT {
      OnDataBranches(e, id, payload);
      SameStale(e, OnData(e, id, payload));
    } else {
      StaleAfterData(e, id, payload);
    }
  }

  lemma SameStale(e: Endpoint, e': Endpoint)
    requires e'.recv == e.recv && e'.consumed == e.consumed && e'.hasConsumed == e.hasConsumed
    ensures Stale(e') == Stale(e)
  {
  }

  lemma NextAwaitedIsNotBuffered(s: System, isA: bool)
    requires Inv(s)
    ensures Count(Get(s, isA)) !in Get(s, isA).recv
  {
    hide NetSound, Flat, BytesInOrder, ChunksFit, SentAsNumbered, NothingForgotten, Stream;
    assert Link(Get(s, !isA), Get(s, isA), s.net, !isA);
  }

  lemma {:induction false} StaleAreSecondCopies(s: System, steps: seq<Step>, isA: bool)
    requires Inv(s) && IsRun(s, steps)
    ensures Stale(Get(After(s, steps), isA)) == Stale(Get(s, isA)) + SecondCopies(s, steps, isA)
    decreases |steps|
  {
    hide Inv, Act, CanAct, Emits, Stale, SecondCopy;
    if steps != [] {
      NextAwaitedIsNotBuffered(s, isA);
      NextKeepsInv(s, steps[0]);
      StaleAreSecondCopies(Next(s, steps[0]), steps[1..], isA);
      if steps[0].Do? && steps[0].isA == isA {
        StaleAfterAction(Get(s, isA), steps[0].action);
      }
    }
  }

  /**
   In every reachable state the receive buffer holds the distinct second copies taken in so far, and the
   packets that wait behind a gap; the packet that is awaited next is never in it.
   */
  lemma BufferIsSecondCopiesAndWaiting(start: System, steps: seq<Step>, isA: bool)
    requires Initially(start) && IsRun(start, steps)
    ensures var e := Get(After(start, steps), isA);
      && Stale(e) == SecondCopies(start, steps, isA)
      && e.recv.Keys == Stale(e) + Waiting(e) && Count(e) !in e.recv
      && |e.recv| == |SecondCopies(start, steps, isA)| + |Waiting(e)|
  {
    hide Inv, IsRun, After, Initially, SecondCopies;
    InitEstablishesInv(start);
    StaleAreSecondCopies(start, steps, isA);
    NothingStaleAtFirst(start, isA);
    RunKeepsInv(start, steps);
    var s := After(start, steps);
    NextAwaitedIsNotBuffered(s, isA);
    KeysSplit(Get(s, isA));
  }

  lemma NothingStaleAtFirst(s: System, isA: bool)
    requires Initially(s)
    ensures Stale(Get(s, isA)) == {}
  {
  }

  lemma KeysSplit(e: Endpoint)
    requires Count(e) !in e.recv
    ensures e.recv.Keys == Stale(e) + Waiting(e) && |e.recv| == |Stale(e)| + |Waiting(e)|
  {
    hide Count;
    var low, high := Stale(e), Waiting(e);
    assert e.recv.Keys == low + high;
    SizeOfTwo(low, high, Count(e));
    assert |e.recv| == |e.recv.Keys|;
  }

  lemma SizeOfTwo(low: set<nat>, high: set<nat>, c: nat)
    requires (forall k :: k in low ==> k < c) && (forall k :: k in high ==> k > c)
    ensures |low + high| == |low| + |high|
  {
    assert low !! high;
  }

  /**
   The verdict on a trip. The next data packet ends the reader exactly if second copies and waiting packets
   are more than 1024 together. So with nothing missing it trips exactly after more than 1024 distinct
   second copies, and with at most m of them at least 1025 - m packets do wait behind a gap.
   */
  lemma WhenTheLimitTrips(start: System, steps: seq<Step>, isA: bool, id: nat, payload: Chunk)
    requires Initially(start) && IsRun(start, steps) && Get(After(start, steps), isA).readerUp
    ensures var e, second := Get(After(start, steps), isA), SecondCopies(start, steps, isA);
      var trips := !OnData(e, id, payload).readerUp;
      && (trips <==> |second| + |Waiting(e)| > 1024)
      && (Waiting(e) == {} ==> (trips <==> |second| > 1024))
      && (trips ==> |Waiting(e)| >= 1024 + 1 - |second|)
  {
    hide IsRun, After, Initially, SecondCopies, Stale, Waiting, OnData;
    BufferIsSecondCopiesAndWaiting(start, steps, isA);
    OverflowEndsReader(Get(After(start, steps), isA), id, payload);
  }

  /**
   A copy of a packet that was already delivered stays in the receive buffer for good: no action takes
   it out again, since only IDs above the consumed one are drained.
   */
  lemma StaleCopiesStay(e: Endpoint, action: Action, id: nat)
    requires CanAct(e, action) && id < Count(e) && id in e.recv
    ensures id < Count(Act(e, action)) && id in Act(e, action).recv
  {
    hide Drain, Accepted, ComputeAck, Prune, DataPacket;
    match action {
      case Receive(bytes) =>
        ReceiveKeeps(e, bytes);
        var p := Accepted(e, bytes);
        if p.Some? && p.value.Data? {
          DrainMeaning(Store(e.recv, p.value.packetID, p.value.payload), Count(e));
        }
      case PrepareAck => ComputeAckKeeps(e);
      case _ =>
    }
  }

  // ---- the limit does trip with nothing missing

  function Below(n: nat): (s: set<nat>)
    ensures |s| == n && forall k: nat :: k in s <==> k < n
  {
    if n == 0 then {} else Below(n - 1) + {n - 1}
  }

  lemma StaleCopy(e: Endpoint, n: nat, payload: Chunk)
    requires e.recv.Keys == Below(n) && n < Count(e) && n <= BUFFER_LIMIT && e.draining == []
    ensures var e' := OnData(e, n, payload); e' == e.(recv := e'.recv) && e'.recv.Keys == Below(n + 1)
  {
    hide Drain, OnData, TakenIn, Store, Below;
    var store := Store(e.recv, n, payload);
    StaleStore(e.recv, n, payload, Count(e));
    DrainStop(store, Count(e));
    OnDataBranches(e, n, payload);
    DrainedIsTakenIn(e, n, payload, [], store, e.consumed, e.hasConsumed);
  }

  lemma StaleStore(recv: map<nat, Chunk>, n: nat, payload: Chunk, next: nat)
    requires recv.Keys == Below(n) && n < next
    ensures var store := Store(recv, n, payload); store.Keys == Below(n + 1) && next !in store
    ensures |recv| == n
  {
    assert |recv| == |recv.Keys|;
    assert Store(recv, n, payload).Keys == Below(n) + {n};
  }

  /** The datagram the other session sends under an ID. */
  function Carrier(s: System, isA: bool, id: nat): seq<byte>
    requires id < |Get(s, !isA).numbered|
  {
    DataPacket(Get(s, !isA).cameraID, id, Get(s, !isA).numbered[id])
  }

  /** The session has taken in n packets or more and idles; the network still carries the first n of them. */
  ghost predicate Replayable(s: System, isA: bool, n: nat)
  {
    var y := Get(s, isA);
    && Inv(s) && y.recv == map[] && y.readerUp && y.draining == [] && n <= Count(y) <= |Get(s, !isA).numbered|
    && forall id: nat :: id < n ==> Datagram(isA, Carrier(s, isA, id)) in s.net
  }

  /** The state after second copies of the first n packets: they fill the buffer, nothing else has changed. */
  ghost predicate Replayed(s: System, s': System, isA: bool, n: nat)
  {
    var y, y' := Get(s, isA), Get(s', isA);
    && y' == y.(recv := y'.recv) && y'.recv.Keys == Below(n)
    && Get(s', !isA) == Get(s, !isA) && s'.net == s.net
  }

  lemma ReceiveAgain(s: System, s': System, isA: bool, n: nat)
    requires Replayable(s, isA, n + 1) && Replayed(s, s', isA, n) && n <= BUFFER_LIMIT
    ensures var step := Do(isA, Receive(Carrier(s, isA, n)));
      Enabled(s', step) && Replayed(s, Next(s', step), isA, n + 1)
  {
    hide Accepted, Carrier, OnData, Inv, Below, Next, Enabled;
    CarrierArrives(s, isA, n);
    var x, y, y' := Get(s, !isA), Get(s, isA), Get(s', isA);
    SameReading(y, y', Carrier(s, isA, n));
    ReceiveDataStep(s', isA, Carrier(s, isA, n), n, x.numbered[n]);
    StaleCopy(y', n, x.numbered[n]);
  }

  lemma CarrierArrives(s: System, isA: bool, n: nat)
    requires Inv(s) && n < |Get(s, !isA).numbered|
    ensures var x := Get(s, !isA);
      Accepted(Get(s, isA), Carrier(s, isA, n)) == Some(Data(x.cameraID, n, x.numbered[n]))
  {
    hide NetSound, Flat, BytesInOrder, NothingForgotten, Stream, ReceivedInOrder, Accepted, DataPacket;
    var x, y := Get(s, !isA), Get(s, isA);
    assert Link(x, y, s.net, !isA);
    DataArrives(x, y, n);
  }

  lemma NoneReplayed(s: System, isA: bool)
    requires Get(s, isA).recv == map[]
    ensures Replayed(s, s, isA, 0)
  {
    assert Get(s, isA).recv.Keys == Below(0);
  }

  lemma FewerReplayable(s: System, isA: bool, m: nat, n: nat)
    requires Replayable(s, isA, n) && m <= n
    ensures Replayable(s, isA, m)
  {
    hide Inv, Carrier;
  }

  lemma {:induction false} ReplayRun(s: System, isA: bool, n: nat) returns (steps: seq<Step>)
    requires Replayable(s, isA, n) && n <= BUFFER_LIMIT + 1
    ensures IsRun(s, steps) && Replayed(s, After(s, steps), isA, n)
    ensures forall step :: step in steps ==> step.Do? && step.isA == isA && step.action.Receive?
  {
    hide IsRun, After, Enabled, Next, Carrier, Replayed, Inv;
    FewerReplayable(s, isA, 0, n);
    if n == 0 {
      steps := [];
      RunNothing(s);
      NoneReplayed(s, isA);
    } else {
      FewerReplayable(s, isA, n - 1, n);
      var before := ReplayRun(s, isA, n - 1);
      ReceiveAgain(s, After(s, before), isA, n - 1);
      var step := Do(isA, Receive(Carrier(s, isA, n - 1)));
      RunExtend(s, before, step);
      steps := before + [step];
    }
  }

  /**
   From any state in which 1025 packets have been delivered, none is buffered, and the network still carries
   them: receiving them again, and then any of them once more, ends the reader.
   */
  lemma LimitTripsWithNothingMissing(s: System, isA: bool) returns (steps: seq<Step>)
    requires Replayable(s, isA, 1025)
    ensures IsRun(s, steps) && !Get(After(s, steps), isA).readerUp && Waiting(Get(After(s, steps), isA)) == {}
    ensures forall step :: step in steps ==> step.Do? && step.isA == isA && step.action.Receive?
  {
    hide IsRun, After, Inv, Below, Carrier;
    var n: nat := BUFFER_LIMIT + 1;
    var replay := ReplayRun(s, isA, n);
    var s' := After(s, replay);
    var step := Do(isA, Receive(Carrier(s, isA, 0)));
    OneMoreTrips(s, s', isA, n);
    RunExtend(s, replay, step);
    steps := replay + [step];
  }

  lemma OneMoreTrips(s: System, s': System, isA: bool, n: nat)
    requires n == BUFFER_LIMIT + 1 && Replayable(s, isA, n) && Replayed(s, s', isA, n)
    ensures var step := Do(isA, Receive(Carrier(s, isA, 0)));
      Enabled(s', step) && !Get(Next(s', step), isA).readerUp && Waiting(Get(Next(s', step), isA)) == {}
  {
    hide Accepted, Carrier, OnData, Inv, Below, Next, Enabled;
    CarrierArrives(s, isA, 0);
    var x, y, y' := Get(s, !isA), Get(s, isA), Get(s', isA);
    SameReading(y, y', Carrier(s, isA, 0));
    ReceiveDataStep(s', isA, Carrier(s, isA, 0), 0, x.numbered[0]);
    assert |y'.recv| == |y'.recv.Keys| == n;
    OverflowEndsReader(y', 0, x.numbered[0]);
  }

  // ---- such a state is reachable

  /** n one-byte packets have been written, sent and delivered, and the network still carries all of them. */
  ghost predicate Caught(s: System, isA: bool, n: nat)
  {
    var x, y := Get(s, !isA), Get(s, isA);
    && Inv(s) && CanSend(x) && |x.numbered| == n && |x.sent| <= n
    && y.readerUp && y.draining == [] && y.recv == map[] && Count(y) == n
    && forall id: nat :: id < n ==> Datagram(isA, Carrier(s, isA, id)) in s.net
  }

  predicate CanSend(x: Endpoint)
  {
    x.writerUp && x.phase == Idle && x.writing == [] && x.writeQueue == [] && MaxPayload(x.mtu) > 0
  }

  /** The session after one byte has been written and its packet recorded. */
  function SentOne(x: Endpoint): Endpoint
  {
    var n := |x.numbered|;
    x.(offered := x.offered + [0], numbered := x.numbered + [[0]],
       sent := x.sent[n := DataPacket(x.cameraID, n, [0])])
  }

  lemma NumberOne(x: Endpoint) returns (actions: seq<Action>)
    requires CanSend(x) && |x.sent| <= BUFFER_LIMIT && |x.numbered| + 1 < TWO32
    ensures CanRun(x, actions) && StopReader !in actions
    ensures Acts(x, actions) ==
      x.(offered := x.offered + [0], numbered := x.numbered + [[0]], phase := Numbered(|x.numbered|, [0]))
  {
    hide CanRun, Acts, PushChunk, TakeChunk;
    var a, b, c := StartWrite([0]), QueueChunk, TakeForSending;
    var x1 := Act(x, a);
    PushOne(x1);
    var x2 := Act(x1, b);
    TakeOne(x2);
    var x3 := Act(x2, c);
    ActsNothing(x3);
    ActsMore(x2, c, []);
    ActsMore(x1, b, [c] + []);
    ActsMore(x, a, [b] + ([c] + []));
    actions := [a] + ([b] + ([c] + []));
  }

  lemma PushOne(x: Endpoint)
    requires x.writing == [0] && x.writeQueue == [] && MaxPayload(x.mtu) > 0
    ensures PushChunk(x) == x.(writing := [], writeQueue := [[0]])
  {
    assert NextChunk(x) == [0] && x.writing[1..] == [];
  }

  lemma TakeOne(x: Endpoint)
    requires x.writeQueue == [[0]] && |x.sent| <= BUFFER_LIMIT
    ensures TakeChunk(x) ==
      x.(writeQueue := [], numbered := x.numbered + [[0]], phase := Numbered(|x.numbered|, [0]))
  {
    assert x.writeQueue[1..] == [];
  }

  /** The second half: the numbered byte is transmitted and recorded. */
  lemma SendNumbered(s: System, isA: bool, id: nat, chunk: Chunk) returns (steps: seq<Step>)
    requires Get(s, isA).writerUp && Get(s, isA).phase == Numbered(id, chunk)
    ensures IsRun(s, steps) && NoStop(steps)
    ensures var x, s' := Get(s, isA), After(s, steps);
      var packet := DataPacket(x.cameraID, id, chunk);
      && Get(s', isA) == x.(phase := Idle, sent := x.sent[id := packet]) && Get(s', !isA) == Get(s, !isA)
      && s.net <= s'.net && Datagram(!isA, packet) in s'.net
  {
    hide IsRun, After, DataPacket;
    var transmit, record := Do(isA, Transmit), Do(isA, Record);
    var packet := DataPacket(Get(s, isA).cameraID, id, chunk);
    assert packet in Emits(Get(s, isA), Transmit);
    RunOne(s, transmit);
    RunExtend(s, [transmit], record);
    steps := [transmit] + [record];
  }

  /** A run of the sender alone: write a byte, number it, transmit it, record it. */
  lemma SendRun(s: System, isA: bool) returns (steps: seq<Step>)
    requires var x := Get(s, isA); CanSend(x) && |x.sent| <= BUFFER_LIMIT && |x.numbered| + 1 < TWO32
    ensures IsRun(s, steps) && NoStop(steps)
    ensures var x, s' := Get(s, isA), After(s, steps);
      && Get(s', isA) == SentOne(x) && Get(s', !isA) == Get(s, !isA) && s.net <= s'.net
      && Datagram(!isA, DataPacket(x.cameraID, |x.numbered|, [0])) in s'.net
  {
    hide IsRun, After, CanRun, Acts, DataPacket;
    var x := Get(s, isA);
    var first := NumberOne(x);
    Lift(s, isA, first);
    var s1 := After(s, Steps(isA, first));
    var second := SendNumbered(s1, isA, |x.numbered|, [0]);
    RunAppend(s, Steps(isA, first), second);
    steps := Steps(isA, first) + second;
    NoStopIn(isA, first);
  }

  ghost predicate NoStop(steps: seq<Step>) { forall step :: step in steps ==> step.Do? && !step.action.StopReader? }

  lemma NoStopIn(isA: bool, actions: seq<Action>)
    requires StopReader !in actions
    ensures NoStop(Steps(isA, actions))
  {
    forall step | step in Steps(isA, actions)
      ensures step.Do? && !step.action.StopReader?
    {
      StepsAre(isA, actions, step);
    }
  }

  lemma ReceiveInOrder(y: Endpoint, payload: Chunk)
    requires y.recv == map[] && y.draining == []
    ensures var n := Count(y);
      OnData(y, n, payload) == y.(draining := [payload], consumed := n, hasConsumed := true)
  {
    var n := Count(y);
    var store := Store(y.recv, n, payload);
    assert store == map[n := payload];
    DrainStep(store, n);
    assert store - {n} == map[];
    DrainStop(map[], n + 1);
    assert [payload] + [] == [payload];
  }

  /** One byte is written, sent, and received in order. */
  lemma SendAndReceive(s: System, isA: bool, n: nat) returns (steps: seq<Step>)
    requires Caught(s, isA, n) && n <= BUFFER_LIMIT
    ensures IsRun(s, steps) && NoStop(steps)
    ensures var s' := After(s, steps);
      && Inv(s') && Get(s', !isA) == SentOne(Get(s, !isA)) && s.net <= s'.net
      && Get(s', isA) == Get(s, isA).(draining := [[0]], consumed := n, hasConsumed := true)
      && Datagram(isA, Carrier(s', isA, n)) in s'.net
  {
    hide IsRun, After, Inv, DataPacket, Accepted, OnData, SentOne, Next, Enabled, Count;
    var x, y := Get(s, !isA), Get(s, isA);
    var send := SendRun(s, !isA);
    var s1 := After(s, send);
    RunKeepsInv(s, send);
    SentOneMeans(x);
    CarrierArrives(s1, isA, n);
    ReceiveInOrder(y, [0]);
    ReceiveDataStep(s1, isA, Carrier(s1, isA, n), n, [0]);
    var receive := Do(isA, Receive(Carrier(s1, isA, n)));
    RunExtend(s, send, receive);
    NextKeepsInv(s1, receive);
    steps := send + [receive];
  }

  lemma DeliverOne(s: System, isA: bool, n: nat) returns (steps: seq<Step>)
    requires Caught(s, isA, n) && n <= BUFFER_LIMIT
    ensures IsRun(s, steps) && NoStop(steps) && Caught(After(s, steps), isA, n + 1)
  {
    hide IsRun, After, CanRun, Acts, Inv, DataPacket, Settled, SentOne;
    var first := SendAndReceive(s, isA, n);
    var s1 := After(s, first);
    SentOneMeans(Get(s, !isA));
    var settle := SettleRun(Get(s1, isA));
    Lift(s1, isA, settle);
    NoStopIn(isA, settle);
    RunAppend(s, first, Steps(isA, settle));
    RunKeepsInv(s1, Steps(isA, settle));
    steps := first + Steps(isA, settle);
    SettledMeans(Get(s1, isA));
    StillCarried(s, After(s, steps), isA, n);
  }

  lemma SentOneMeans(x: Endpoint)
    requires CanSend(x)
    ensures var x' := SentOne(x);
      && CanSend(x') && |x'.numbered| == |x.numbered| + 1 && |x'.sent| <= |x.sent| + 1
      && x.numbered <= x'.numbered && x'.numbered[|x.numbered|] == [0] && x'.cameraID == x.cameraID
  {
    hide DataPacket;
    var n := |x.numbered|;
    assert SentOne(x).sent.Keys == x.sent.Keys + {n};
    assert |x.sent| == |x.sent.Keys|;
    assert |SentOne(x).sent| == |SentOne(x).sent.Keys|;
  }

  lemma SettledMeans(y: Endpoint)
    ensures var y' := Settled(y);
      y'.readerUp == y.readerUp && y'.draining == [] && y'.recv == y.recv && Count(y') == Count(y)
  {
  }

  lemma StillCarried(s: System, s': System, isA: bool, n: nat)
    requires var x, x' := Get(s, !isA), Get(s', !isA);
      n == |x.numbered| && |x'.numbered| == n + 1 && x.numbered <= x'.numbered && x'.cameraID == x.cameraID
    requires s.net <= s'.net && Datagram(isA, Carrier(s', isA, n)) in s'.net
    requires forall id: nat :: id < n ==> Datagram(isA, Carrier(s, isA, id)) in s.net
    ensures forall id: nat :: id < n + 1 ==> Datagram(isA, Carrier(s', isA, id)) in s'.net
  {
    hide DataPacket;
    forall id: nat | id < n + 1
      ensures Datagram(isA, Carrier(s', isA, id)) in s'.net
    {
      if id < n {
        assert Carrier(s', isA, id) == Carrier(s, isA, id);
      }
    }
  }

  lemma {:induction false} DeliverMany(s: System, isA: bool, n: nat) returns (steps: seq<Step>)
    requires Caught(s, isA, 0) && n <= BUFFER_LIMIT + 1
    ensures IsRun(s, steps) && NoStop(steps) && Caught(After(s, steps), isA, n)
  {
    hide IsRun, After, Caught;
    if n == 0 {
      steps := [];
      RunNothing(s);
    } else {
      var before := DeliverMany(s, isA, n - 1);
      var more := DeliverOne(After(s, before), isA, n - 1);
      RunAppend(s, before, more);
      steps := before + more;
    }
  }

  /** A run from fresh sessions, without any loss or stop, ends the reader while not one packet is missing. */
  lemma HealthySessionCanTrip(mtu: nat, a: i32, b: i32, isA: bool) returns (start: System, steps: seq<Step>)
    requires 20 < mtu < TWO32
    ensures start == System(Initial(mtu, a, b), Initial(mtu, b, a), {}) && Initially(start)
    ensures IsRun(start, steps) && NoStop(steps)
    ensures var s := After(start, steps);
      && !Get(s, isA).readerUp && Waiting(Get(s, isA)) == {}
      && Count(Get(s, isA)) == |Get(s, !isA).numbered|
  {
    hide IsRun, After, Inv, Initially, Replayable;
    var n: nat := BUFFER_LIMIT + 1;
    start := FreshSystem(mtu, a, b, isA);
    var deliver := DeliverMany(start, isA, n);
    var s := After(start, deliver);
    CaughtIsReplayable(s, isA, n);
    var trip := LimitTripsWithNothingMissing(s, isA);
    RunAppend(start, deliver, trip);
    steps := deliver + trip;
    OnlyReceiving(s, trip, isA);
    RunKeepsInv(s, trip);
    CountWithin(After(start, steps), isA);
    RunIsLater(s, trip, isA);
  }

  lemma FreshSystem(mtu: nat, a: i32, b: i32, isA: bool) returns (start: System)
    requires 20 < mtu < TWO32
    ensures start == System(Initial(mtu, a, b), Initial(mtu, b, a), {}) && Initially(start) && Caught(start, isA, 0)
  {
    hide Inv;
    start := System(Initial(mtu, a, b), Initial(mtu, b, a), {});
    InitEstablishesInv(start);
  }

  lemma CaughtIsReplayable(s: System, isA: bool, n: nat)
    requires Caught(s, isA, n)
    ensures Replayable(s, isA, n)
  {
    hide Inv;
  }

  /** A run in which only one session receives leaves the other one alone. */
  lemma {:induction false} OnlyReceiving(s: System, steps: seq<Step>, isA: bool)
    requires IsRun(s, steps)
    requires forall step :: step in steps ==> step.Do? && step.isA == isA && step.action.Receive?
    ensures Get(After(s, steps), !isA) == Get(s, !isA)
    decreases |steps|
  {
    hide Act, CanAct;
    if steps != [] {
      assert steps[0] in steps;
      OnlyReceiving(Next(s, steps[0]), steps[1..], isA);
    }
  }

  lemma CountWithin(s: System, isA: bool)
    requires Inv(s)
    ensures Count(Get(s, isA)) <= |Get(s, !isA).numbered|
  {
    hide NetSound, Flat, BytesInOrder, ChunksFit, SentAsNumbered, NothingForgotten, Stream;
    assert Link(Get(s, !isA), Get(s, isA), s.net, !isA);
  }
}
