/**
 Dropping a backlog to get back to live (liveEdge in pkg/bridge/stream_run.go). Wall times are in
 nanoseconds, media times in microseconds. The threshold is read per frame, so it may change at any time;
 zero or less switches the dropping off.
 */
module LiveEdge {
  import opened Bytes

  /** A frame, the wall time it arrives at, and the threshold in force then. */
  datatype Frame = Frame(mediaUs: nat, keyframe: bool, wall: int, maxLag: int)

  /** How far the wall clock is ahead of the media clock when the frame arrives. */
  function Offset(f: Frame): int { f.wall - f.mediaUs * 1000 }

  /** The fields of liveEdge that decide whether a frame is dropped. */
  datatype Edge = Edge(wallAnchor: int, mediaAnchor: nat, anchored: bool, catchingUp: bool)

  const START := Edge(0, 0, false, false)

  function Anchor(e: Edge, f: Frame): Edge { e.(wallAnchor := f.wall, mediaAnchor := f.mediaUs, anchored := true) }

  function Lag(e: Edge, f: Frame): int { f.wall - e.wallAnchor - (f.mediaUs - e.mediaAnchor) * 1000 }

  /** behind: the new state, and whether the frame is dropped. */
  function Behind(e: Edge, f: Frame): (Edge, bool)
  {
    if f.maxLag <= 0 then (e.(catchingUp := false), false)
    else if !e.anchored then (Anchor(e, f), false)
    else
      var lag := Lag(e, f);
      var e1 := if lag < 0 then Anchor(e, f) else if lag > f.maxLag then e.(catchingUp := true) else e;
      if !e1.catchingUp then (e1, false)
      else if !f.keyframe then (e1, true)
      else (Anchor(e1.(catchingUp := false), f), false)
  }

  // ---- the reference: a history of frames instead of an anchor

  function Least(frames: seq<Frame>): (m: int)
    requires frames != []
    ensures (exists f :: f in frames && m == Offset(f)) && forall f :: f in frames ==> m <= Offset(f)
  {
    if |frames| == 1 then
      assert frames[0] in frames;
      Offset(frames[0])
    else
      var m := Least(frames[1..]);
      var f :| f in frames[1..] && m == Offset(f);
      assert f in frames && frames[0] in frames;
      Min(Offset(frames[0]), m)
  }

  /** The frames since the last resync, that one included, and whether a backlog is being dropped. */
  datatype History = History(since: seq<Frame>, dropping: bool)

  /** A frame's delay against the smallest offset since the last resync. */
  function Delay(h: History, f: Frame): int
  {
    if h.since == [] then 0 else Offset(f) - Least(h.since)
  }

  /**
   A delay above the threshold starts dropping, the next keyframe ends it and starts a new history. While
   the threshold is off frames pass, end any dropping, and are not remembered.
   */
  function Judge(h: History, f: Frame): (History, bool)
  {
    var late := h.dropping || Delay(h, f) > f.maxLag;
    if f.maxLag <= 0 then (h.(dropping := false), false)
    else if late && f.keyframe then (History([f], false), false)
    else (History(h.since + [f], late), late)
  }

  /** The frame is the keyframe that ends the dropping. */
  predicate Resyncs(h: History, f: Frame)
  {
    f.maxLag > 0 && f.keyframe && (h.dropping || Delay(h, f) > f.maxLag)
  }

  ghost predicate Tracks(e: Edge, h: History)
  {
    && e.catchingUp == h.dropping && (e.anchored <==> h.since != [])
    && (e.anchored ==> e.wallAnchor - e.mediaAnchor * 1000 == Least(h.since))
    && (!e.anchored ==> !h.dropping)
  }

  lemma {:induction false} LeastAppend(frames: seq<Frame>, f: Frame)
    requires frames != []
    ensures Least(frames + [f]) == Min(Least(frames), Offset(f))
    decreases |frames|
  {
    hide Offset;
    var all := frames + [f];
    if |frames| == 1 {
      assert all[1..] == [f];
    } else {
      assert all[1..] == frames[1..] + [f];
      LeastAppend(frames[1..], f);
    }
  }

  /**
   The anchor arithmetic computes the reference: the measured lag is the frame's offset minus the
   running minimum since the last resync, and the same frames are dropped.
   */
  lemma AnchorTracksRunningMinimum(e: Edge, h: History, f: Frame)
    requires Tracks(e, h)
    ensures e.anchored ==> Lag(e, f) == Delay(h, f)
    ensures var (e', drop), (h', late) := Behind(e, f), Judge(h, f);
      Tracks(e', h') && drop == late
  {
    hide Least;
    if e.anchored {
      LeastAppend(h.since, f);
    }
    OneFrame(f);
  }

  lemma OneFrame(f: Frame)
    ensures Least([f]) == Offset(f)
  {
  }

  // ---- whole runs

  function DropAll(e: Edge, frames: seq<Frame>): (drops: seq<bool>)
    ensures |drops| == |frames|
    decreases |frames|
  {
    if frames == [] then []
    else
      var r := Behind(e, frames[0]);
      [r.1] + DropAll(r.0, frames[1..])
  }

  /** The history in front of every frame of a run. */
  function Histories(h: History, frames: seq<Frame>): (hs: seq<History>)
    ensures |hs| == |frames|
    decreases |frames|
  {
    if frames == [] then [] else [h] + Histories(Judge(h, frames[0]).0, frames[1..])
  }

  /** Frame by frame the verdict is the reference's, and the reference goes on with its own history. */
  ghost predicate RunIsSound(frames: seq<Frame>, hs: seq<History>, drops: seq<bool>)
    requires |hs| == |drops| == |frames|
  {
    && (forall i :: 0 <= i < |frames| ==> drops[i] == Judge(hs[i], frames[i]).1)
    && (forall i :: 0 < i < |frames| ==> hs[i] == Judge(hs[i - 1], frames[i - 1]).0)
  }

  lemma {:induction false} RunFollowsReference(e: Edge, h: History, frames: seq<Frame>)
    requires Tracks(e, h)
    ensures RunIsSound(frames, Histories(h, frames), DropAll(e, frames))
    ensures frames != [] ==> Histories(h, frames)[0] == h
    decreases |frames|
  {
    hide Behind, Judge, Tracks;
    if frames != [] {
      var f, rest := frames[0], frames[1..];
      AnchorTracksRunningMinimum(e, h, f);
      var e', h' := Behind(e, f).0, Judge(h, f).0;
      RunFollowsReference(e', h', rest);
      var hs, drops := Histories(h, frames), DropAll(e, frames);
      var hs', drops' := Histories(h', rest), DropAll(e', rest);
      assert forall i :: 0 < i < |frames| ==>
        hs[i] == hs'[i - 1] && drops[i] == drops'[i - 1] && frames[i] == rest[i - 1];
    }
  }

  /**
   Over any run and any changes of the threshold: after a dropped frame only a keyframe is let through, or
   a frame for which the threshold is off. A delta frame with the threshold on is let through only if it
   trails the running minimum since the last resync by at most the threshold, and dropped if it trails it
   by more. Keyframes are never dropped.
   */
  lemma ResumesAtKeyframeWithinThreshold(frames: seq<Frame>)
    ensures var drops, hs := DropAll(START, frames), Histories(History([], false), frames);
      && (forall i :: 0 < i < |frames| && drops[i - 1] && !drops[i] && frames[i].maxLag > 0 ==> frames[i].keyframe)
      && (forall i :: 0 <= i < |frames| && !frames[i].keyframe && frames[i].maxLag > 0 && !drops[i] ==>
            Delay(hs[i], frames[i]) <= frames[i].maxLag)
      && (forall i :: 0 <= i < |frames| && !frames[i].keyframe && 0 < frames[i].maxLag < Delay(hs[i], frames[i]) ==>
            drops[i])
      && (forall i :: 0 <= i < |frames| && drops[i] ==> !frames[i].keyframe && frames[i].maxLag > 0)
  {
    hide DropAll, Histories;
    var drops, hs := DropAll(START, frames), Histories(History([], false), frames);
    RunFollowsReference(START, History([], false), frames);
    forall i | 0 < i < |frames| && drops[i - 1] && !drops[i] && frames[i].maxLag > 0
      ensures frames[i].keyframe
    {
      assert drops[i - 1] == Judge(hs[i - 1], frames[i - 1]).1;
      assert hs[i] == Judge(hs[i - 1], frames[i - 1]).0;
    }
  }

  /** Every frame is within its threshold of the smallest offset of all frames judged before it. */
  predicate KeepsUp(before: seq<Frame>, frames: seq<Frame>)
    decreases |frames|
  {
    frames == [] ||
    if frames[0].maxLag <= 0 then KeepsUp(before, frames[1..])
    else Delay(History(before, false), frames[0]) <= frames[0].maxLag && KeepsUp(before + [frames[0]], frames[1..])
  }

  lemma {:induction false} NeverCut(e: Edge, before: seq<Frame>, frames: seq<Frame>)
    requires Tracks(e, History(before, false)) && KeepsUp(before, frames)
    ensures forall drop :: drop in DropAll(e, frames) ==> !drop
    decreases |frames|
  {
    hide Behind, Tracks, Delay;
    if frames != [] {
      AnchorTracksRunningMinimum(e, History(before, false), frames[0]);
      var after := if frames[0].maxLag <= 0 then before else before + [frames[0]];
      NeverCut(Behind(e, frames[0]).0, after, frames[1..]);
    }
  }

  /** A stream that never falls behind its best delay so far by more than the threshold loses no frame. */
  lemma StreamThatKeepsUpIsNeverCut(frames: seq<Frame>)
    requires KeepsUp([], frames)
    ensures forall drop :: drop in DropAll(START, frames) ==> !drop
  {
    hide DropAll, KeepsUp;
    NeverCut(START, [], frames);
  }

  // ---- the object

  class Dropper {
    var wallAnchor: int
    var mediaAnchor: nat
    var anchored: bool
    var catchingUp: bool
    var skipped: nat
    ghost var history: History

    ghost function State(): Edge
      reads this
    {
      Edge(wallAnchor, mediaAnchor, anchored, catchingUp)
    }

    ghost predicate Valid()
      reads this
    {
      Tracks(State(), history)
    }

    constructor ()
      ensures Valid() && State() == START && history == History([], false) && skipped == 0
    {
      wallAnchor, mediaAnchor, anchored, catchingUp, skipped := 0, 0, false, false, 0;
      history := History([], false);
    }

    method Anchor(mediaUs: nat, now: int)
      modifies this`wallAnchor, this`mediaAnchor, this`anchored
      ensures wallAnchor == now && mediaAnchor == mediaUs && anchored
    {
      wallAnchor, mediaAnchor, anchored := now, mediaUs, true;
    }

    /**
     behind: the verdict is the reference's on the history so far. The count of skipped frames goes on
     until a keyframe ends the dropping.
     */
    method Behind(mediaUs: nat, keyframe: bool, now: int, maxLag: int) returns (drop: bool)
      requires Valid()
      modifies this
      ensures Valid()
      ensures (history, drop) == Judge(old(history), Frame(mediaUs, keyframe, now, maxLag))
      ensures drop ==> skipped == old(skipped) + 1
      ensures !drop ==>
        skipped == if Resyncs(old(history), Frame(mediaUs, keyframe, now, maxLag)) then 0 else old(skipped)
    {
      ghost var f := Frame(mediaUs, keyframe, now, maxLag);
      AnchorTracksRunningMinimum(State(), history, f);
      history := Judge(history, f).0;
      if maxLag <= 0 {
        catchingUp := false;
        return false;
      }
      if !anchored {
        Anchor(mediaUs, now);
        return false;
      }
      var lag := now - wallAnchor - (mediaUs - mediaAnchor) * 1000;
      if lag < 0 {
        Anchor(mediaUs, now);
      } else if lag > maxLag {
        catchingUp := true;
      }
      if !catchingUp {
        return false;
      }
      if !keyframe {
        skipped := skipped + 1;
        return true;
      }
      catchingUp := false;
      Anchor(mediaUs, now);
      skipped := 0;
      return false;
    }
  }
}
