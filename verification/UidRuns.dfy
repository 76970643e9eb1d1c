/**
 Runs of the P2P transport: joining them, and what one session can do on its own. Write and Read of the
 session class are such runs.
 */
module UidRuns {
  import opened Bytes
  import opened UdpPacket
  import opened UidNetwork
  import opened UidSession

  lemma {:induction false} RunAppend(s: System, first: seq<Step>, second: seq<Step>)
    requires IsRun(s, first) && IsRun(After(s, first), second)
    ensures IsRun(s, first + second) && After(s, first + second) == After(After(s, first), second)
    decreases |first|
  {
    hide Next, Enabled;
    if first == [] {
      assert first + second == second;
    } else {
      assert (first + second)[1..] == first[1..] + second;
      RunAppend(Next(s, first[0]), first[1..], second);
    }
  }

  lemma RunOne(s: System, step: Step)
    requires Enabled(s, step)
    ensures IsRun(s, [step]) && After(s, [step]) == Next(s, step)
  {
    hide Next, Enabled;
    assert [step][1..] == [];
  }

  lemma RunNothing(s: System)
    ensures IsRun(s, []) && After(s, []) == s
  {
  }

  /** One more step at the end of a run. */
  lemma RunExtend(s: System, steps: seq<Step>, step: Step)
    requires IsRun(s, steps) && Enabled(After(s, steps), step)
    ensures IsRun(s, steps + [step]) && After(s, steps + [step]) == Next(After(s, steps), step)
  {
    hide IsRun, After, Next, Enabled;
    RunOne(After(s, steps), step);
    RunAppend(s, steps, [step]);
  }

  /** Receiving a data packet that carries the right connection ID. */
  lemma ReceiveDataStep(s: System, isA: bool, bytes: seq<byte>, id: u32, payload: Chunk)
    requires var e := Get(s, isA);
      e.readerUp && e.draining == [] && Accepted(e, bytes) == Some(Data(e.clientID, id, payload))
    requires Datagram(isA, bytes) in s.net
    ensures Enabled(s, Do(isA, Receive(bytes)))
    ensures var s' := Next(s, Do(isA, Receive(bytes)));
      Get(s', isA) == OnData(Get(s, isA), id, payload) && Get(s', !isA) == Get(s, !isA) && s'.net == s.net
  {
    hide Accepted, OnData;
  }

  // ---- one session on its own

  ghost predicate CanRun(e: Endpoint, actions: seq<Action>)
    decreases |actions|
  {
    actions == [] || (!actions[0].Receive? && CanAct(e, actions[0]) && CanRun(Act(e, actions[0]), actions[1..]))
  }

  ghost function Acts(e: Endpoint, actions: seq<Action>): Endpoint
    requires CanRun(e, actions)
    decreases |actions|
  {
    if actions == [] then e else Acts(Act(e, actions[0]), actions[1..])
  }

  lemma ActsNothing(e: Endpoint)
    ensures CanRun(e, []) && Acts(e, []) == e
  {
  }

  lemma ActsMore(e: Endpoint, action: Action, rest: seq<Action>)
    requires !action.Receive? && CanAct(e, action) && CanRun(Act(e, action), rest)
    ensures CanRun(e, [action] + rest) && Acts(e, [action] + rest) == Acts(Act(e, action), rest)
  {
    hide CanAct, Act;
    assert ([action] + rest)[1..] == rest;
  }

  lemma {:induction false} ActsAppend(e: Endpoint, first: seq<Action>, second: seq<Action>)
    requires CanRun(e, first) && CanRun(Acts(e, first), second)
    ensures CanRun(e, first + second) && Acts(e, first + second) == Acts(Acts(e, first), second)
    decreases |first|
  {
    hide CanAct, Act;
    if first == [] {
      assert first + second == second;
    } else {
      assert (first + second)[1..] == first[1..] + second;
      ActsAppend(Act(e, first[0]), first[1..], second);
    }
  }

  function Steps(isA: bool, actions: seq<Action>): (steps: seq<Step>)
    ensures |steps| == |actions|
  {
    if actions == [] then [] else [Do(isA, actions[0])] + Steps(isA, actions[1..])
  }

  lemma {:induction false} StepsAre(isA: bool, actions: seq<Action>, step: Step)
    ensures step in Steps(isA, actions) <==> step.Do? && step.isA == isA && step.action in actions
  {
    if actions != [] {
      assert actions == [actions[0]] + actions[1..];
      StepsAre(isA, actions[1..], step);
    }
  }

  /** What a session can do on its own it can do in a system; the other one stays as it is, the network only grows. */
  lemma {:induction false} Lift(s: System, isA: bool, actions: seq<Action>)
    requires CanRun(Get(s, isA), actions)
    ensures IsRun(s, Steps(isA, actions))
    ensures var s' := After(s, Steps(isA, actions));
      Get(s', isA) == Acts(Get(s, isA), actions) && Get(s', !isA) == Get(s, !isA) && s.net <= s'.net
    decreases |actions|
  {
    hide CanAct, Act, Emits;
    if actions != [] {
      var step, steps := Do(isA, actions[0]), Steps(isA, actions);
      assert steps[1..] == Steps(isA, actions[1..]);
      Lift(Next(s, step), isA, actions[1..]);
    }
  }

  // ---- Write

  /** The session with n of the bytes still to be written moved to the queue. */
  function Pushed(e: Endpoint, n: nat): Endpoint
    requires n <= |e.writing| && MaxPayload(e.mtu) > 0
  {
    e.(writing := e.writing[n..], writeQueue := e.writeQueue + Chunks(e.writing[..n], MaxPayload(e.mtu)))
  }

  /** The loop of Write, undisturbed: a chunk per turn while there is room. */
  lemma {:induction false} PushRun(e: Endpoint, room: nat) returns (actions: seq<Action>)
    requires MaxPayload(e.mtu) > 0 && |e.writeQueue| + room <= QUEUE_CAP
    ensures CanRun(e, actions)
    ensures var n := Fitting(|e.writing|, room, MaxPayload(e.mtu)); n <= |e.writing| && Acts(e, actions) == Pushed(e, n)
    decreases room
  {
    hide CanRun, Acts, Chunks, Fitting, Pushed;
    var size: nat := MaxPayload(e.mtu);
    FittingAtMost(|e.writing|, room, size);
    if e.writing == [] || room == 0 {
      NoneFit(|e.writing|, room, size);
      actions := [];
      ActsNothing(e);
      PushedNone(e);
    } else {
      FittingStep(|e.writing|, room, size);
      var e1 := Act(e, QueueChunk);
      var rest := PushRun(e1, room - 1);
      actions := [QueueChunk] + rest;
      ActsMore(e, QueueChunk, rest);
      PushedFirst(e, Fitting(|e.writing|, room, size));
    }
  }

  lemma PushedNone(e: Endpoint)
    requires MaxPayload(e.mtu) > 0
    ensures Pushed(e, 0) == e
  {
    NoChunks(MaxPayload(e.mtu));
    assert e.writing[..0] == [] && e.writing[0..] == e.writing && e.writeQueue + [] == e.writeQueue;
  }

  lemma PushedFirst(e: Endpoint, n: nat)
    requires MaxPayload(e.mtu) > 0 && e.writing != []
    requires Min(|e.writing|, MaxPayload(e.mtu)) <= n <= |e.writing|
    ensures Pushed(PushChunk(e), n - Min(|e.writing|, MaxPayload(e.mtu))) == Pushed(e, n)
  {
    hide Chunks;
    var c := Min(|e.writing|, MaxPayload(e.mtu));
    QueuedChunks(e.writeQueue, e.writing, c, n, MaxPayload(e.mtu));
    PushedSlices(e.writing, c, n);
  }

  lemma QueuedChunks(queue: seq<Chunk>, p: seq<byte>, c: nat, n: nat, size: nat)
    requires size > 0 && p != [] && c == Min(|p|, size) && c <= n <= |p|
    ensures queue + [p[..c]] + Chunks(p[c..][..n - c], size) == queue + Chunks(p[..n], size)
  {
    hide Chunks, Flat;
    var t, first, rest := p[..n], p[..c], p[c..][..n - c];
    assert |t| == n && Min(|t|, size) == c;
    PushedSlices(p, c, n);
    ChunksStep(t, size);
    assert Chunks(t, size) == [first] + Chunks(rest, size);
    Regroup(queue, first, Chunks(rest, size));
  }

  lemma NoneFit(n: nat, room: nat, size: nat)
    requires n == 0 || room == 0
    ensures Fitting(n, room, size) == 0
  {
  }

  lemma PushedSlices(p: seq<byte>, c: nat, n: nat)
    requires c <= n <= |p|
    ensures p[..n][..c] == p[..c] && p[..n][c..] == p[c..][..n - c] && p[c..][n - c..] == p[n..]
  {
  }

  /** The post-state of Write: what was written is offered and queued. */
  function Written(e: Endpoint, p: seq<byte>, n: nat): Endpoint
    requires n <= |p| && (n > 0 ==> MaxPayload(e.mtu) > 0)
  {
    e.(offered := e.offered + p[..n], writeQueue := Queued(e, p, n))
  }

  /** An undisturbed Write is a run: start, a chunk per turn, and giving up on what is left. */
  lemma WriteIsARun(e: Endpoint, p: seq<byte>, room: nat) returns (actions: seq<Action>)
    requires e.writing == [] && |e.writeQueue| + room <= QUEUE_CAP
    ensures CanRun(e, actions)
    ensures var n := if MaxPayload(e.mtu) > 0 then Fitting(|p|, room, MaxPayload(e.mtu)) else 0;
      n <= |p| && Acts(e, actions) == Written(e, p, n)
  {
    hide Act, CanRun, Acts, Fitting, Written, Pushed;
    var start := Started(e, p);
    StartStep(e, p);
    if MaxPayload(e.mtu) > 0 {
      var n := Fitting(|p|, room, MaxPayload(e.mtu));
      var pushes := PushRun(start, room);
      PushedMeans(e, p, n);
      AbandonStep(e, p, n, Pushed(start, n));
      GiveUp(start, pushes);
      actions := [StartWrite(p)] + (pushes + [AbandonWrite]);
      ActsMore(e, StartWrite(p), pushes + [AbandonWrite]);
    } else {
      ActsNothing(start);
      AbandonStep(e, p, 0, start);
      GiveUp(start, []);
      actions := [StartWrite(p)] + ([] + [AbandonWrite]);
      ActsMore(e, StartWrite(p), [] + [AbandonWrite]);
    }
  }

  function Started(e: Endpoint, p: seq<byte>): Endpoint { e.(writing := p, offered := e.offered + p) }

  lemma StartStep(e: Endpoint, p: seq<byte>)
    requires e.writing == []
    ensures CanAct(e, StartWrite(p)) && Act(e, StartWrite(p)) == Started(e, p)
  {
  }

  lemma GiveUp(e: Endpoint, pushes: seq<Action>)
    requires CanRun(e, pushes)
    ensures CanRun(e, pushes + [AbandonWrite]) && Acts(e, pushes + [AbandonWrite]) == Act(Acts(e, pushes), AbandonWrite)
  {
    hide Act, CanRun, Acts;
    var e1 := Acts(e, pushes);
    ActsNothing(Act(e1, AbandonWrite));
    ActsMore(e1, AbandonWrite, []);
    assert [AbandonWrite] + [] == [AbandonWrite];
    ActsAppend(e, pushes, [AbandonWrite]);
  }

  /** The queue after n bytes of a write. */
  function Queued(e: Endpoint, p: seq<byte>, n: nat): seq<Chunk>
    requires n <= |p| && (n > 0 ==> MaxPayload(e.mtu) > 0)
  {
    e.writeQueue + if n == 0 then [] else Chunks(p[..n], MaxPayload(e.mtu))
  }

  lemma PushedMeans(e: Endpoint, p: seq<byte>, n: nat)
    requires n <= |p| && MaxPayload(e.mtu) > 0
    ensures Pushed(Started(e, p), n) == Started(e, p).(writing := p[n..], writeQueue := Queued(e, p, n))
  {
    hide Chunks;
    if n == 0 {
      NoChunks(MaxPayload(e.mtu));
      assert p[..0] == [];
    }
  }

  lemma AbandonStep(e: Endpoint, p: seq<byte>, n: nat, x: Endpoint)
    requires e.writing == [] && n <= |p| && (n > 0 ==> MaxPayload(e.mtu) > 0)
    requires (n == 0 && x == Started(e, p)) || x == Started(e, p).(writing := p[n..], writeQueue := Queued(e, p, n))
    ensures Act(x, AbandonWrite) == Written(e, p, n)
  {
    hide Chunks;
    assert (e.offered + p)[..|e.offered + p| - |p[n..]|] == e.offered + p[..n];
    assert e.writeQueue + [] == e.writeQueue;
  }

  // ---- Read

  /** Read is a run: fetch until there is something, then hand it out. */
  lemma {:induction false} ReadIsARun(e: Endpoint, n: nat) returns (actions: seq<Action>)
    ensures CanRun(e, actions) && Acts(e, actions) == HandOutBytes(Refill(e), n)
    decreases |e.readQueue|
  {
    hide CanRun, Acts;
    if e.readBuf == [] && e.readQueue != [] {
      var e1 := Act(e, Fetch);
      var rest := ReadIsARun(e1, n);
      actions := [Fetch] + rest;
      ActsMore(e, Fetch, rest);
    } else if e.readBuf != [] {
      var e1 := Act(e, HandOut(n));
      ActsNothing(e1);
      ActsMore(e, HandOut(n), []);
      actions := [HandOut(n)];
      assert [HandOut(n)] + [] == actions;
    } else {
      ActsNothing(e);
      actions := [];
      assert e.delivered + [] == e.delivered;
    }
  }

  // ---- a reader that takes everything

  /** The session with everything it has put in order handed to its reader. */
  function Settled(e: Endpoint): Endpoint
  {
    e.(draining := [], readQueue := [], readBuf := [], delivered := Stream(e))
  }

  /** The read loop and the reader can always empty the buffers between them. */
  lemma {:induction false} SettleRun(e: Endpoint) returns (actions: seq<Action>)
    requires e.draining != [] ==> e.readerUp
    ensures CanRun(e, actions) && Acts(e, actions) == Settled(e) && StopReader !in actions
    decreases |e.draining|, |e.readQueue|, |e.readBuf|
  {
    hide CanRun, Acts, Flat, Stream;
    if e.readBuf != [] || e.readQueue != [] || e.draining != [] {
      var action :=
        if e.readBuf != [] then HandOut(|e.readBuf|) else if e.readQueue != [] then Fetch else Forward;
      SameStream(e, action);
      var rest := SettleRun(Act(e, action));
      actions := [action] + rest;
      ActsMore(e, action, rest);
    } else {
      actions := [];
      ActsNothing(e);
      NothingQueued(e);
    }
  }

  lemma SameStream(e: Endpoint, action: Action)
    requires CanAct(e, action) && (action == HandOut(|e.readBuf|) || action == Fetch || action == Forward)
    ensures Stream(Act(e, action)) == Stream(e)
  {
    hide Stream, ForwardChunk, FetchChunk, HandOutBytes;
    match action
    case Forward => ForwardKeepsStream(e);
    case Fetch => FetchKeepsStream(e);
    case HandOut(n) => HandOutKeepsStream(e, n);
  }

  lemma NothingQueued(e: Endpoint)
    requires e.readBuf == [] && e.readQueue == [] && e.draining == []
    ensures Stream(e) == e.delivered
  {
  }
}
