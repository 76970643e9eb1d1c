/**
 The ordered callback queue of a camera device (notifyState in pkg/bridge/device.go): callers append under
 a lock, and whoever finds no drainer running starts one. Every critical section is one step.
 */
module StateQueue {
  import opened Bytes

  /** The fields under the lock, and the two critical sections that change them. */
  datatype Shared = Shared(pending: seq<bool>, draining: bool)

  /** A caller appends, and starts a drainer if none is running. */
  function Enter(q: Shared, connected: bool): (Shared, bool)
  {
    (Shared(q.pending + [connected], true), !q.draining)
  }

  /** A drainer takes the first value, or clears the flag and ends. */
  function TakeNext(q: Shared): (Shared, Option<bool>)
  {
    if q.pending == [] then (Shared([], false), None)
    else (Shared(q.pending[1..], q.draining), Some(q.pending[0]))
  }

  /** Where a drainer is: about to take the lock, calling back with a value it took, or finished. */
  datatype Drainer = AtLock | Calling(value: bool) | Finished

  /**
   pending and draining are the fields under the lock; spawning counts the callers that have left the lock but not
   started their goroutine yet; delivered are the callbacks that have returned.
   */
  datatype System = System(
    pending: seq<bool>, draining: bool, spawning: nat, drainers: seq<Drainer>,
    notified: seq<bool>, delivered: seq<bool>)

  datatype Action = Notify(connected: bool) | Spawn | Lock(who: nat) | Return(who: nat)

  predicate Enabled(s: System, a: Action)
  {
    match a
    case Notify(_) => true
    case Spawn => s.spawning > 0
    case Lock(i) => i < |s.drainers| && s.drainers[i] == AtLock
    case Return(i) => i < |s.drainers| && s.drainers[i].Calling?
  }

  function Step(s: System, a: Action): System
    requires Enabled(s, a)
  {
    match a
    case Notify(v) =>
      var (q, start) := Enter(Shared(s.pending, s.draining), v);
      s.(pending := q.pending, draining := q.draining, notified := s.notified + [v],
         spawning := s.spawning + if start then 1 else 0)
    case Spawn => s.(spawning := s.spawning - 1, drainers := s.drainers + [AtLock])
    case Lock(i) =>
      var (q, next) := TakeNext(Shared(s.pending, s.draining));
      s.(pending := q.pending, draining := q.draining,
         drainers := s.drainers[i := if next == None then Finished else Calling(next.value)])
    case Return(i) =>
      s.(delivered := s.delivered + [s.drainers[i].value], drainers := s.drainers[i := AtLock])
  }

  function Initial(): System { System([], false, 0, [], [], []) }

  predicate IsRun(s: System, actions: seq<Action>)
    decreases |actions|
  {
    actions == [] || (Enabled(s, actions[0]) && IsRun(Step(s, actions[0]), actions[1..]))
  }

  function After(s: System, actions: seq<Action>): System
    requires IsRun(s, actions)
    decreases |actions|
  {
    if actions == [] then s else After(Step(s, actions[0]), actions[1..])
  }

  // ---- the invariant

  function Live(drainers: seq<Drainer>): nat
  {
    if drainers == [] then 0
    else Live(drainers[..|drainers| - 1]) + if drainers[|drainers| - 1].Finished? then 0 else 1
  }

  /** The values drainers have taken and not called back with yet. */
  function InHand(drainers: seq<Drainer>): seq<bool>
  {
    if drainers == [] then []
    else
      var d := drainers[|drainers| - 1];
      InHand(drainers[..|drainers| - 1]) + if d.Calling? then [d.value] else []
  }

  ghost predicate Inv(s: System)
  {
    // exactly one drainer is running or about to be started while the flag is set, else none
    && s.spawning + Live(s.drainers) == (if s.draining then 1 else 0)
    // nothing waits without it
    && (s.pending != [] ==> s.draining)
    && s.notified == s.delivered + InHand(s.drainers) + s.pending
  }

  lemma {:induction false} UpdateDrainer(drainers: seq<Drainer>, i: nat, d: Drainer)
    requires i < |drainers| && !drainers[i].Finished? && Live(drainers) == 1
    ensures Live(drainers[i := d]) == (if d.Finished? then 0 else 1)
    ensures InHand(drainers[i := d]) == (if d.Calling? then [d.value] else [])
    ensures InHand(drainers) == (if drainers[i].Calling? then [drainers[i].value] else [])
  {
    var n := |drainers| - 1;
    var front, updated := drainers[..n], drainers[i := d];
    if i == n {
      NoneLive(front);
      assert updated[..n] == front;
    } else {
      LiveIn(front, i);
      UpdateDrainer(front, i, d);
      assert updated[..n] == front[i := d] && updated[n] == drainers[n];
    }
  }

  lemma {:induction false} NoneLive(drainers: seq<Drainer>)
    requires Live(drainers) == 0
    ensures InHand(drainers) == []
  {
    if drainers != [] {
      NoneLive(drainers[..|drainers| - 1]);
    }
  }

  lemma {:induction false} LiveIn(drainers: seq<Drainer>, i: nat)
    requires i < |drainers| && !drainers[i].Finished?
    ensures Live(drainers) >= 1
  {
    if i < |drainers| - 1 {
      LiveIn(drainers[..|drainers| - 1], i);
    }
  }

  lemma StepKeepsInv(s: System, a: Action)
    requires Inv(s) && Enabled(s, a)
    ensures Inv(Step(s, a))
  {
    hide Live, InHand;
    match a {
      case Notify(v) =>
        assert s.delivered + InHand(s.drainers) + s.pending + [v]
            == s.delivered + InHand(s.drainers) + (s.pending + [v]);
      case Spawn =>
        NewDrainer(s.drainers);
      case Lock(i) =>
        LockKeepsInv(s, i);
      case Return(i) =>
        LiveIn(s.drainers, i);
        UpdateDrainer(s.drainers, i, AtLock);
    }
  }

  lemma LockKeepsInv(s: System, i: nat)
    requires Inv(s) && Enabled(s, Lock(i))
    ensures Inv(Step(s, Lock(i)))
  {
    hide Live, InHand;
    LiveIn(s.drainers, i);
    if s.pending == [] {
      UpdateDrainer(s.drainers, i, Finished);
    } else {
      UpdateDrainer(s.drainers, i, Calling(s.pending[0]));
      assert s.pending == [s.pending[0]] + s.pending[1..];
      assert s.delivered + [] + s.pending == s.delivered + [s.pending[0]] + s.pending[1..];
    }
  }

  lemma NewDrainer(drainers: seq<Drainer>)
    ensures Live(drainers + [AtLock]) == Live(drainers) + 1 && InHand(drainers + [AtLock]) == InHand(drainers)
  {
    assert (drainers + [AtLock])[..|drainers|] == drainers;
  }

  lemma {:induction false} RunKeepsInv(s: System, actions: seq<Action>)
    requires Inv(s) && IsRun(s, actions)
    ensures Inv(After(s, actions))
    decreases |actions|
  {
    hide Inv, Step, Enabled;
    if actions != [] {
      StepKeepsInv(s, actions[0]);
      RunKeepsInv(Step(s, actions[0]), actions[1..]);
    }
  }

  // ---- what callers can rely on

  lemma {:induction false} TwoLive(drainers: seq<Drainer>, i: nat, j: nat)
    requires i < j < |drainers| && !drainers[i].Finished? && !drainers[j].Finished?
    ensures Live(drainers) >= 2
  {
    var front := drainers[..|drainers| - 1];
    if j < |drainers| - 1 {
      TwoLive(front, i, j);
    } else {
      LiveIn(front, i);
    }
  }

  /**
   In every interleaving of callers and drainers: at most one drainer is running, so callbacks happen one at
   a time; what was called back with, what is in hand and what waits is everything notified, in order; and
   while anything waits a drainer is running or about to start.
   */
  lemma OrderedNotification(actions: seq<Action>)
    requires IsRun(Initial(), actions)
    ensures var s := After(Initial(), actions);
      && (forall i, j :: 0 <= i < j < |s.drainers| ==> s.drainers[i].Finished? || s.drainers[j].Finished?)
      && s.notified == s.delivered + InHand(s.drainers) + s.pending && |InHand(s.drainers)| <= 1
      && (s.pending != [] ==> s.spawning == 1 || exists i :: 0 <= i < |s.drainers| && !s.drainers[i].Finished?)
  {
    hide After, IsRun;
    RunKeepsInv(Initial(), actions);
    var s := After(Initial(), actions);
    forall i, j | 0 <= i < j < |s.drainers|
      ensures s.drainers[i].Finished? || s.drainers[j].Finished?
    {
      if !s.drainers[i].Finished? && !s.drainers[j].Finished? {
        TwoLive(s.drainers, i, j);
      }
    }
    AtMostOneInHand(s.drainers);
    if s.pending != [] && s.spawning == 0 {
      SomeLive(s.drainers);
    }
  }

  lemma {:induction false} AtMostOneInHand(drainers: seq<Drainer>)
    ensures |InHand(drainers)| <= Live(drainers)
  {
    if drainers != [] {
      AtMostOneInHand(drainers[..|drainers| - 1]);
    }
  }

  lemma {:induction false} SomeLive(drainers: seq<Drainer>)
    requires Live(drainers) > 0
    ensures exists i :: 0 <= i < |drainers| && !drainers[i].Finished?
  {
    var n := |drainers| - 1;
    if drainers[n].Finished? {
      var front := drainers[..n];
      SomeLive(front);
      var i :| 0 <= i < |front| && !front[i].Finished?;
      assert !drainers[i].Finished?;
    }
  }

  /** How many steps the machinery still takes on its own. */
  function Work(s: System): nat
  {
    2 * |s.pending| + 2 * s.spawning + Live(s.drainers) + |InHand(s.drainers)|
  }

  /**
   No wake-up is lost: every step other than a new notification brings the end nearer, and where no such
   step is possible any more everything notified has been called back with.
   */
  lemma NothingIsLeftBehind(s: System, a: Action)
    requires Inv(s)
    ensures Enabled(s, a) && !a.Notify? ==> Work(Step(s, a)) < Work(s)
    ensures (forall b :: Enabled(s, b) ==> b.Notify?) ==> s.delivered == s.notified
  {
    if Enabled(s, a) && !a.Notify? {
      WorkDecreases(s, a);
    }
    if s.spawning + Live(s.drainers) > 0 {
      var b := SomethingToDo(s);
      assert Enabled(s, b) && !b.Notify?;
    } else {
      NoneLive(s.drainers);
    }
  }

  lemma SomethingToDo(s: System) returns (b: Action)
    requires s.spawning + Live(s.drainers) > 0
    ensures Enabled(s, b) && !b.Notify?
  {
    if s.spawning > 0 {
      b := Spawn;
    } else {
      SomeLive(s.drainers);
      var i :| 0 <= i < |s.drainers| && !s.drainers[i].Finished?;
      b := if s.drainers[i] == AtLock then Lock(i) else Return(i);
    }
  }

  lemma WorkDecreases(s: System, a: Action)
    requires Inv(s) && Enabled(s, a) && !a.Notify?
    ensures Work(Step(s, a)) < Work(s)
  {
    hide Live, InHand;
    var t := Step(s, a);
    match a {
      case Spawn =>
        NewDrainer(s.drainers);
      case Lock(i) =>
        LiveIn(s.drainers, i);
        UpdateDrainer(s.drainers, i, t.drainers[i]);
      case Return(i) =>
        LiveIn(s.drainers, i);
        UpdateDrainer(s.drainers, i, AtLock);
    }
  }

  // ---- the object: its two critical sections, and a drainer that runs undisturbed

  class CallbackQueue {
    var statePending: seq<bool>
    var stateDraining: bool
    ghost var called: seq<bool>

    constructor ()
      ensures statePending == [] && !stateDraining && called == []
    {
      statePending, stateDraining, called := [], false, [];
    }

    function Fields(): Shared
      reads this
    {
      Shared(statePending, stateDraining)
    }

    /** The critical section of notifyState; the caller starts a drainer exactly if none is running. */
    method NotifyState(connected: bool) returns (start: bool)
      modifies this`statePending, this`stateDraining
      ensures (Fields(), start) == Enter(old(Fields()), connected)
    {
      statePending := statePending + [connected];
      if stateDraining {
        return false;
      }
      stateDraining := true;
      return true;
    }

    /** The critical section of a drainer. */
    method Take() returns (next: Option<bool>)
      modifies this`statePending, this`stateDraining
      ensures (Fields(), next) == TakeNext(old(Fields()))
    {
      if |statePending| == 0 {
        stateDraining := false;
        return None;
      }
      next := Some(statePending[0]);
      statePending := statePending[1..];
    }

    /** The goroutine: it calls back with everything that waits, in order, and clears the flag. */
    method Drain()
      modifies this
      ensures statePending == [] && !stateDraining
      ensures called == old(called) + old(statePending)
    {
      ghost var all := called + statePending;
      while true
        invariant called + statePending == all
        decreases |statePending|
      {
        var next := Take();
        if next == None {
          return;
        }
        called := called + [next.value];
      }
    }
  }
}
