/**
 The camera clock (pkg/bridge/stream_run.go): unwrapping 32-bit microseconds into one continuous clock
 and correcting gaps of the video clock. The moving average is taken over the reals.
 */
module MediaClock {
  import opened Bytes

  const MAX_TRUSTED_DELTA := 500_000
  const FALLBACK_DELTA := 40_000
  const EMA_ALPHA: real := 0.1

  type i64 = x: int | -0x8000_0000_0000_0000 <= x < 0x8000_0000_0000_0000

  function Abs(a: int): nat { if a < 0 then -a else a }

  /** int64 of a uint64. */
  function ToI64(v: u64): (r: i64)
    ensures (v < 0x8000_0000_0000_0000 <==> r == v) && (v >= 0x8000_0000_0000_0000 <==> r == v - TWO64)
  {
    if v < 0x8000_0000_0000_0000 then v else v - TWO64
  }

  // ---- unwrapping

  /** unwrapTimestamp: of the three candidates congruent to ts32 the one closest to the highest time seen. */
  function UnwrapTimestamp(ts32: u32, highest: u64): u64
  {
    if highest == 0 then ts32 else Closest(highest / TWO32 * TWO32 + ts32, highest)
  }

  /** The candidate, or its neighbour one wrap below or above. */
  function Closest(cand1: u64, highest: u64): u64
  {
    var cand2: u64 := if cand1 >= TWO32 then cand1 - TWO32 else cand1;
    var cand3: u64 := (cand1 + TWO32) % TWO64;
    var best := if Abs(cand2 - highest) < Abs(cand1 - highest) then cand2 else cand1;
    if Abs(cand3 - highest) < Abs(best - highest) then cand3 else best
  }

  lemma ClosestOfThree(cand1: u64, highest: u64)
    requires cand1 + TWO32 < TWO64
    ensures var r := Closest(cand1, highest);
      && (r == cand1 || (cand1 >= TWO32 && r == cand1 - TWO32) || r == cand1 + TWO32)
      && Abs(r - highest) <= Abs(cand1 - highest) && Abs(r - highest) <= Abs(cand1 + TWO32 - highest)
      && (cand1 >= TWO32 ==> Abs(r - highest) <= Abs(cand1 - TWO32 - highest))
  {
  }

  /** Exactly half a wrap away the time stays among those with the same high word as the highest one. */
  lemma TiesKeepTheHighWord(ts32: u32, highest: u64)
    requires 0 < highest < 0x8000_0000_0000_0000
    requires Abs(highest / TWO32 * TWO32 + ts32 - highest) == 0x8000_0000
    ensures UnwrapTimestamp(ts32, highest) == highest / TWO32 * TWO32 + ts32
  {
  }

  /** No other time with the same low 32 bits is closer to the highest time. */
  lemma UnwrapIsNearest(ts32: u32, highest: u64, v: nat)
    requires highest < 0x8000_0000_0000_0000 && v % TWO32 == ts32
    ensures var r := UnwrapTimestamp(ts32, highest);
      r % TWO32 == ts32 && Abs(r - highest) <= Abs(v - highest)
  {
    hide Closest;
    if highest > 0 {
      var base := highest / TWO32;
      Congruent(base, ts32);
      if base > 0 {
        Congruent(base - 1, ts32);
      }
      Congruent(base + 1, ts32);
      ClosestOfThree(base * TWO32 + ts32, highest);
      NoneCloser(base, highest % TWO32, ts32, v / TWO32);
    }
  }

  lemma Congruent(base: nat, low: u32)
    ensures (base * TWO32 + low) % TWO32 == low
  {
  }

  /** Of all numbers of the same residue one of the three around the wrap of the reference is closest. */
  lemma NoneCloser(base: nat, low: u32, ts32: u32, k: nat)
    ensures var h, v := base * TWO32 + low, k * TWO32 + ts32;
      || Abs((base * TWO32 + ts32) - h) <= Abs(v - h)
      || (base > 0 && Abs(((base - 1) * TWO32 + ts32) - h) <= Abs(v - h))
      || Abs(((base + 1) * TWO32 + ts32) - h) <= Abs(v - h)
  {
    if k > base + 1 {
      assert k * TWO32 + ts32 - (base * TWO32 + low) >= TWO32;
    } else if k + 1 < base {
      assert base * TWO32 + low - (k * TWO32 + ts32) >= TWO32;
    }
  }

  /** A time less than half a wrap away from the highest time is recovered from its low 32 bits. */
  lemma UnwrapRecovers(t: nat, highest: u64)
    requires highest < 0x8000_0000_0000_0000 && Abs(t - highest) < 0x8000_0000
    ensures UnwrapTimestamp(t % TWO32, highest) == t
  {
    hide UnwrapTimestamp;
    UnwrapIsNearest(t % TWO32, highest, t);
    CongruentAndClose(UnwrapTimestamp(t % TWO32, highest), t);
  }

  lemma CongruentAndClose(r: nat, t: nat)
    requires r % TWO32 == t % TWO32 && Abs(r - t) < TWO32
    ensures r == t
  {
    assert r == r / TWO32 * TWO32 + r % TWO32 && t == t / TWO32 * TWO32 + t % TWO32;
  }

  datatype Unwrapper = Unwrapper(highest: u64, offset: u64, baseSet: bool)

  /** The result of one call of unwrap; wall is the wall clock in microseconds, used by the first call only. */
  function Unwrap(u: Unwrapper, ts32: u32, wall: i64): (Unwrapper, u64)
  {
    if !u.baseSet then
      var now: u64 := Max(wall, 0);
      (Unwrapper(ts32, (now - ts32) % TWO64, true), now)
    else
      var continuous := UnwrapTimestamp(ts32, u.highest);
      (u.(highest := Max(continuous, u.highest)), (continuous + u.offset) % TWO64)
  }

  function UnwrapAll(u: Unwrapper, times: seq<nat>, wall: i64): seq<u64>
    decreases |times|
  {
    if times == [] then []
    else
      var r := Unwrap(u, times[0] % TWO32, wall);
      [r.1] + UnwrapAll(r.0, times[1..], wall)
  }

  /** Every time is less than half a wrap away from the highest time before it. */
  predicate Plausible(highest: nat, times: seq<nat>)
    decreases |times|
  {
    times == [] ||
    (Abs(times[0] - highest) < 0x8000_0000 && times[0] < 0x7FFF_FFFF_0000_0000
     && Plausible(Max(times[0], highest), times[1..]))
  }

  lemma {:induction false} UnwrapAllRecovers(u: Unwrapper, times: seq<nat>, wall: i64)
    requires u.baseSet && u.highest < 0x7FFF_FFFF_0000_0000 && Plausible(u.highest, times)
    ensures var out := UnwrapAll(u, times, wall);
      |out| == |times| && forall i :: 0 <= i < |times| ==> out[i] == (times[i] + u.offset) % TWO64
    decreases |times|
  {
    hide UnwrapTimestamp;
    if times != [] {
      UnwrapRecovers(times[0], u.highest);
      var r := Unwrap(u, times[0] % TWO32, wall);
      UnwrapAllRecovers(r.0, times[1..], wall);
    }
  }

  /**
   Whatever the number of wraps, the unwrapped clock is the true clock plus a constant: the shift that
   maps the first time to the wall clock. The first time has to be known, hence below 2^32, and every
   later one less than half a wrap away from the highest so far.
   */
  lemma TrueClockRecovered(times: seq<nat>, wall: i64)
    requires times != [] && times[0] < TWO32 && Plausible(times[0], times[1..])
    ensures var out := UnwrapAll(Unwrapper(0, 0, false), times, wall);
      var shift := Max(wall, 0) - times[0];
      && |out| == |times|
      && (forall i :: 0 <= i < |times| ==> out[i] == (times[i] + shift) % TWO64)
      && (forall i :: 0 <= i < |times| && 0 <= times[i] + shift < TWO64 ==> out[i] == times[i] + shift)
  {
    hide UnwrapAll, Plausible;
    FirstTimeSetsShift(Unwrapper(0, 0, false), times, wall);
    var shift := Max(wall, 0) - times[0];
    forall i | 0 <= i < |times| && 0 <= times[i] + shift < TWO64
      ensures (times[i] + shift) % TWO64 == times[i] + shift
    {
    }
  }

  lemma FirstTimeSetsShift(u0: Unwrapper, times: seq<nat>, wall: i64)
    requires !u0.baseSet && times != [] && times[0] < TWO32 && Plausible(times[0], times[1..])
    ensures var out := UnwrapAll(u0, times, wall);
      var shift := Max(wall, 0) - times[0];
      |out| == |times| && forall i :: 0 <= i < |times| ==> out[i] == (times[i] + shift) % TWO64
  {
    hide Plausible, UnwrapAll, Unwrap;
    var shift := Max(wall, 0) - times[0];
    FirstUnwrap(u0, times[0], wall);
    var u := Unwrap(u0, times[0] % TWO32, wall).0;
    UnwrapAllStep(u0, times, wall);
    UnwrapAllRecovers(u, times[1..], wall);
    ShiftedTail(UnwrapAll(u0, times, wall), UnwrapAll(u, times[1..], wall), times, shift);
  }

  lemma UnwrapAllStep(u: Unwrapper, times: seq<nat>, wall: i64)
    requires times != []
    ensures var r := Unwrap(u, times[0] % TWO32, wall);
      UnwrapAll(u, times, wall) == [r.1] + UnwrapAll(r.0, times[1..], wall)
  {
    hide Unwrap;
  }

  lemma FirstUnwrap(u0: Unwrapper, t: nat, wall: i64)
    requires !u0.baseSet && t < TWO32
    ensures var now: u64 := Max(wall, 0);
      Unwrap(u0, t % TWO32, wall) == (Unwrapper(t, (now - t) % TWO64, true), now)
  {
  }

  lemma ShiftedTail(out: seq<u64>, rest: seq<u64>, times: seq<nat>, shift: int)
    requires |rest| + 1 == |times| && times[0] + shift < TWO64 && 0 <= times[0] + shift
    requires out == [times[0] + shift] + rest
    requires forall i :: 0 <= i < |rest| ==> rest[i] == (times[1..][i] + shift % TWO64) % TWO64
    ensures forall i :: 0 <= i < |times| ==> out[i] == (times[i] + shift) % TWO64
  {
    forall i | 0 <= i < |times|
      ensures out[i] == (times[i] + shift) % TWO64
    {
      if i > 0 {
        assert out[i] == rest[i - 1] == (times[1..][i - 1] + shift % TWO64) % TWO64;
        AddModulo(times[i], shift);
      }
    }
  }

  lemma AddModulo(a: int, b: int)
    ensures (a + b % TWO64) % TWO64 == (a + b) % TWO64
  {
    assert b == b / TWO64 * TWO64 + b % TWO64;
    var q := b / TWO64;
    assert (a + b % TWO64 + q * TWO64) % TWO64 == (a + b % TWO64) % TWO64;
  }

  // ---- the corrected timeline

  datatype Timeline = Timeline(unwrapper: Unwrapper, offset: int, lastVideo: nat, avgDelta: real, haveVideo: bool)

  const START := Timeline(Unwrapper(0, 0, false), 0, 0, 0.0, false)

  function ApplyOffset(offset: int, raw: u64): nat { Max(ToI64(raw) - offset, 0) }

  /** The step of an untrusted frame: the average frame duration, or a 25 fps guess before there is one. */
  function Step(avgDelta: real): (step: nat)
    ensures step > 0
  {
    if avgDelta.Floor <= 0 then FALLBACK_DELTA else avgDelta.Floor
  }

  /** mediaTimeline.video after the unwrapping: the new timeline and the time to publish. */
  function PlaceVideo(t: Timeline, raw: u64): (Timeline, nat)
  {
    var us := ApplyOffset(t.offset, raw);
    if !t.haveVideo then (t.(haveVideo := true, lastVideo := us), us)
    else
      var delta := us - t.lastVideo;
      if delta <= 0 || delta > MAX_TRUSTED_DELTA then
        var step := Step(t.avgDelta);
        (t.(offset := t.offset + delta - step, lastVideo := t.lastVideo + step), t.lastVideo + step)
      else if t.avgDelta == 0.0 then (t.(avgDelta := delta as real, lastVideo := us), us)
      else (t.(avgDelta := t.avgDelta + (delta as real - t.avgDelta) * EMA_ALPHA, lastVideo := us), us)
  }

  function Video(t: Timeline, ts32: u32, wall: i64): (Timeline, nat)
  {
    var r := Unwrap(t.unwrapper, ts32, wall);
    PlaceVideo(t.(unwrapper := r.0), r.1)
  }

  function Audio(t: Timeline, ts32: u32, wall: i64): (Timeline, nat)
  {
    var r := Unwrap(t.unwrapper, ts32, wall);
    (t.(unwrapper := r.0), ApplyOffset(t.offset, r.1))
  }

  /** The average frame duration is unset or lies in the range of trusted durations. */
  predicate AverageInRange(t: Timeline)
  {
    t.avgDelta == 0.0 || 1.0 <= t.avgDelta <= MAX_TRUSTED_DELTA as real
  }

  /** Whatever the camera clock says, the next published frame is 1 to 500000 microseconds later. */
  lemma VideoAdvances(t: Timeline, raw: u64)
    requires AverageInRange(t)
    ensures var (t', us) := PlaceVideo(t, raw);
      && AverageInRange(t') && t'.haveVideo && t'.lastVideo == us && t'.unwrapper == t.unwrapper
      && (t.haveVideo ==> 1 <= us - t.lastVideo <= MAX_TRUSTED_DELTA)
  {
    var delta := ApplyOffset(t.offset, raw) - t.lastVideo;
    if t.haveVideo && 0 < delta <= MAX_TRUSTED_DELTA && t.avgDelta != 0.0 {
      AverageStays(t.avgDelta, delta as real);
    }
  }

  lemma AverageStays(avg: real, delta: real)
    requires 1.0 <= avg <= MAX_TRUSTED_DELTA as real && 1.0 <= delta <= MAX_TRUSTED_DELTA as real
    ensures 1.0 <= avg + (delta - avg) * EMA_ALPHA <= MAX_TRUSTED_DELTA as real
  {
    assert avg + (delta - avg) * EMA_ALPHA == avg * 0.9 + delta * 0.1;
  }

  /**
   The correction is carried: from a frame on, the offset maps the frame's own raw time to the time it
   was published at, exactly if the time was not clamped at zero before the correction.
   */
  lemma CorrectionIsCarried(t: Timeline, raw: u64)
    requires AverageInRange(t) && t.haveVideo
    ensures var (t', us) := PlaceVideo(t, raw);
      ApplyOffset(t'.offset, raw) == us <==> ToI64(raw) >= t.offset
  {
    VideoAdvances(t, raw);
  }

  /** Audio lands on the corrected timeline: it keeps its raw distance to the frame before it. */
  lemma AudioKeepsItsDistance(t: Timeline, raw: u64, audioRaw: u64)
    requires AverageInRange(t) && t.haveVideo && ToI64(raw) >= t.offset
    ensures var (t', us) := PlaceVideo(t, raw);
      ApplyOffset(t'.offset, audioRaw) == Max(us + (ToI64(audioRaw) - ToI64(raw)), 0)
  {
    VideoAdvances(t, raw);
  }

  /**
   A frame is published at its corrected time, and leaves the correction alone, exactly if it follows the
   frame before it at a trusted distance.
   */
  lemma TrustedDeltasPassThrough(t: Timeline, raw: u64)
    requires AverageInRange(t) && t.haveVideo
    ensures var (t', us) := PlaceVideo(t, raw);
      var trusted := 1 <= ApplyOffset(t.offset, raw) - t.lastVideo <= MAX_TRUSTED_DELTA;
      (us == ApplyOffset(t.offset, raw) <==> trusted) && (t'.offset == t.offset <==> trusted)
  {
    StepIsTrusted(t);
  }

  /** The step of an untrusted frame is itself a trusted distance, so it never hits such a frame's own time. */
  lemma StepIsTrusted(t: Timeline)
    requires AverageInRange(t)
    ensures 1 <= Step(t.avgDelta) <= MAX_TRUSTED_DELTA
  {
  }

  // ---- the pace of a stream, learned from its trusted distances

  function PlaceAll(t: Timeline, raws: seq<u64>): Timeline
    decreases |raws|
  {
    if raws == [] then t else PlaceAll(PlaceVideo(t, raws[0]).0, raws[1..])
  }

  /** Each frame follows the one before it at the distance d. */
  predicate Paced(last: int, raws: seq<u64>, d: nat)
    decreases |raws|
  {
    raws == [] || (ToI64(raws[0]) == last + d && Paced(last + d, raws[1..], d))
  }

  /** A trusted distance enters the average with a tenth of its weight, the first one as it is. */
  lemma AverageMoves(t: Timeline, raw: u64)
    requires t.haveVideo
    ensures var d := ApplyOffset(t.offset, raw) - t.lastVideo;
      PlaceVideo(t, raw).0.avgDelta ==
        if d < 1 || d > 500_000 then t.avgDelta
        else if t.avgDelta == 0.0 then d as real
        else t.avgDelta * 0.9 + d as real * 0.1
  {
  }

  lemma {:induction false} PaceIsKept(t: Timeline, raws: seq<u64>, d: nat)
    requires t.haveVideo && 1 <= d <= 500_000 && Paced(t.lastVideo + t.offset, raws, d)
    requires t.avgDelta == d as real || (t.avgDelta == 0.0 && raws != [])
    ensures var t' := PlaceAll(t, raws); t'.haveVideo && t'.avgDelta == d as real
    decreases |raws|
  {
    hide PlaceVideo;
    if raws != [] {
      PacedStep(t, raws[0], d);
      AverageMoves(t, raws[0]);
      PaceIsKept(PlaceVideo(t, raws[0]).0, raws[1..], d);
    }
  }

  lemma PacedStep(t: Timeline, raw: u64, d: nat)
    requires t.haveVideo && 1 <= d <= 500_000 && ToI64(raw) == t.lastVideo + t.offset + d
    ensures var t' := PlaceVideo(t, raw).0;
      t'.haveVideo && t'.lastVideo == t.lastVideo + d && t'.offset == t.offset
  {
  }

  /**
   A gap or a jump back after frames at a constant trusted distance is published at exactly that distance; before
   there was any trusted distance at 40 milliseconds.
   */
  lemma GapsAreFilledAtPace(t: Timeline, raws: seq<u64>, d: nat, raw: u64)
    requires t.haveVideo && t.avgDelta == 0.0 && 1 <= d <= 500_000 && Paced(t.lastVideo + t.offset, raws, d)
    ensures var t' := PlaceAll(t, raws);
      var gap := ApplyOffset(t'.offset, raw) - t'.lastVideo;
      (gap < 1 || gap > 500_000) ==>
        PlaceVideo(t', raw).1 == t'.lastVideo + if raws == [] then 40_000 else d
  {
    hide PlaceAll;
    if raws == [] {
      PlaceNone(t);
    } else {
      PaceIsKept(t, raws, d);
    }
  }

  lemma PlaceNone(t: Timeline)
    ensures PlaceAll(t, []) == t
  {
  }

  // ---- whole runs of both tracks

  datatype Packet = VideoPacket(ts32: u32) | AudioPacket(ts32: u32)

  function PublishedVideo(t: Timeline, packets: seq<Packet>, wall: i64): seq<nat>
    decreases |packets|
  {
    if packets == [] then []
    else match packets[0]
      case VideoPacket(ts32) =>
        var r := Video(t, ts32, wall);
        [r.1] + PublishedVideo(r.0, packets[1..], wall)
      case AudioPacket(ts32) => PublishedVideo(Audio(t, ts32, wall).0, packets[1..], wall)
  }

  /** Frames are published one after the other, never the same time twice, never more than 500 ms apart. */
  predicate Advancing(times: seq<nat>)
  {
    forall i :: 0 < i < |times| ==> times[i - 1] < times[i] <= times[i - 1] + 500_000
  }

  lemma {:induction false} PublishedFollows(t: Timeline, packets: seq<Packet>, wall: i64)
    requires AverageInRange(t)
    ensures Advancing(PublishedVideo(t, packets, wall))
    ensures var out := PublishedVideo(t, packets, wall);
      t.haveVideo && out != [] ==> 1 <= out[0] - t.lastVideo <= MAX_TRUSTED_DELTA
    decreases |packets|
  {
    hide Unwrap, PlaceVideo;
    if packets != [] {
      match packets[0]
      case VideoPacket(ts32) =>
        var r := Unwrap(t.unwrapper, ts32, wall);
        VideoAdvances(t.(unwrapper := r.0), r.1);
        PublishedFollows(Video(t, ts32, wall).0, packets[1..], wall);
      case AudioPacket(ts32) =>
        PublishedFollows(Audio(t, ts32, wall).0, packets[1..], wall);
    }
  }

  /** For any camera clock whatsoever, on both tracks, published video times strictly increase in bounded steps. */
  lemma PublishedVideoAdvances(packets: seq<Packet>, wall: i64)
    ensures Advancing(PublishedVideo(START, packets, wall))
  {
    PublishedFollows(START, packets, wall);
  }

  /** The unwrapped times of the video packets. */
  function UnwrappedVideo(u: Unwrapper, packets: seq<Packet>, wall: i64): seq<u64>
    decreases |packets|
  {
    if packets == [] then []
    else
      var r := Unwrap(u, packets[0].ts32, wall);
      (if packets[0].VideoPacket? then [r.1] else []) + UnwrappedVideo(r.0, packets[1..], wall)
  }

  /** No time has the sign bit, which the conversion to a signed time would read as negative. */
  predicate NoneNegative(times: seq<u64>) { forall time :: time in times ==> time < 0x8000_0000_0000_0000 }

  /** Without a correction so far, as long as it stays that way. */
  lemma {:induction false} SteadyAlong(t: Timeline, packets: seq<Packet>, wall: i64)
    requires AverageInRange(t) && t.haveVideo && t.offset == 0
    requires NoneNegative(UnwrappedVideo(t.unwrapper, packets, wall))
    ensures var raw := UnwrappedVideo(t.unwrapper, packets, wall);
      PublishedVideo(t, packets, wall) == raw <==> Advancing([t.lastVideo] + raw)
    decreases |packets|
  {
    hide Unwrap, PlaceVideo, NoneNegative, Advancing;
    var raw := UnwrappedVideo(t.unwrapper, packets, wall);
    if packets == [] {
      OnlyOne(t.lastVideo);
    } else if packets[0].AudioPacket? {
      var t1 := Audio(t, packets[0].ts32, wall).0;
      assert raw == UnwrappedVideo(t1.unwrapper, packets[1..], wall);
      SteadyAlong(t1, packets[1..], wall);
    } else {
      var r := Unwrap(t.unwrapper, packets[0].ts32, wall);
      var t1 := t.(unwrapper := r.0);
      var placed := PlaceVideo(t1, r.1);
      var rest := UnwrappedVideo(r.0, packets[1..], wall);
      NoneNegativeFrom(r.1, rest);
      SteadyStep(t1, r.1);
      AdvancingFrom(t.lastVideo, r.1, rest);
      assert PublishedVideo(t, packets, wall) == [placed.1] + PublishedVideo(placed.0, packets[1..], wall);
      if placed.1 == r.1 {
        SteadyAlong(placed.0, packets[1..], wall);
        SameHead(r.1, PublishedVideo(placed.0, packets[1..], wall), rest);
      } else {
        assert PublishedVideo(t, packets, wall)[0] != raw[0];
      }
    }
  }

  /** Without a correction a frame passes unchanged exactly at a trusted distance, and there is none then. */
  lemma SteadyStep(t: Timeline, raw: u64)
    requires AverageInRange(t) && t.haveVideo && t.offset == 0 && raw < 0x8000_0000_0000_0000
    ensures var (t', us) := PlaceVideo(t, raw);
      && (us == raw <==> 1 <= raw - t.lastVideo <= MAX_TRUSTED_DELTA)
      && (us == raw ==> t'.offset == 0 && t'.lastVideo == raw)
      && AverageInRange(t') && t'.haveVideo && t'.unwrapper == t.unwrapper
  {
    hide PlaceVideo, AverageInRange;
    VideoAdvances(t, raw);
    TrustedDeltasPassThrough(t, raw);
  }

  lemma OnlyOne(time: nat)
    ensures Advancing([time] + [])
  {
  }

  lemma SameHead(first: nat, a: seq<nat>, b: seq<nat>)
    ensures [first] + a == [first] + b <==> a == b
  {
    assert ([first] + a)[1..] == a && ([first] + b)[1..] == b;
  }

  lemma AdvancingFrom(last: nat, first: nat, rest: seq<nat>)
    ensures Advancing([last] + ([first] + rest)) <==>
      1 <= first - last <= MAX_TRUSTED_DELTA && Advancing([first] + rest)
  {
    var all, tail := [last] + ([first] + rest), [first] + rest;
    if Advancing(all) {
      assert all[1] == first && all[0] == last;
      forall i | 0 < i < |tail|
        ensures 1 <= tail[i] - tail[i - 1] <= MAX_TRUSTED_DELTA
      {
        assert tail[i] == all[i + 1] && tail[i - 1] == all[(i + 1) - 1];
      }
    }
    if 1 <= first - last <= MAX_TRUSTED_DELTA && Advancing(tail) {
      forall i | 0 < i < |all|
        ensures 1 <= all[i] - all[i - 1] <= MAX_TRUSTED_DELTA
      {
        if i > 1 {
          assert all[i] == tail[i - 1] && all[i - 1] == tail[(i - 1) - 1];
        }
      }
    }
  }

  lemma NoneNegativeFrom(first: u64, rest: seq<u64>)
    ensures NoneNegative([first] + rest) <==> first < 0x8000_0000_0000_0000 && NoneNegative(rest)
  {
    assert first in [first] + rest && forall time :: time in rest ==> time in [first] + rest;
  }

  /** The first frame is always published as it is. */
  lemma {:induction false} SteadyFromStart(t: Timeline, packets: seq<Packet>, wall: i64)
    requires !t.haveVideo && t.offset == 0 && t.avgDelta == 0.0
    requires NoneNegative(UnwrappedVideo(t.unwrapper, packets, wall))
    ensures var raw := UnwrappedVideo(t.unwrapper, packets, wall);
      PublishedVideo(t, packets, wall) == raw <==> Advancing(raw)
    decreases |packets|
  {
    hide Unwrap, NoneNegative, Advancing;
    var raw := UnwrappedVideo(t.unwrapper, packets, wall);
    if packets == [] {
      NothingAdvances();
    } else if packets[0].AudioPacket? {
      var t1 := Audio(t, packets[0].ts32, wall).0;
      assert raw == UnwrappedVideo(t1.unwrapper, packets[1..], wall);
      SteadyFromStart(t1, packets[1..], wall);
    } else {
      var r := Unwrap(t.unwrapper, packets[0].ts32, wall);
      var placed := PlaceVideo(t.(unwrapper := r.0), r.1);
      var rest := UnwrappedVideo(r.0, packets[1..], wall);
      NoneNegativeFrom(r.1, rest);
      assert PublishedVideo(t, packets, wall) == [placed.1] + PublishedVideo(placed.0, packets[1..], wall);
      SteadyAlong(placed.0, packets[1..], wall);
      SameHead(r.1, PublishedVideo(placed.0, packets[1..], wall), rest);
    }
  }

  lemma NothingAdvances()
    ensures Advancing([])
  {
  }

  /**
   The timeline corrects nothing exactly where there is nothing to correct: over any run of both tracks the
   video times are published as they were unwrapped only if these advance at trusted distances, and always
   then, unless one of them has the sign bit.
   */
  lemma SteadyStreamsPassUnchanged(packets: seq<Packet>, wall: i64)
    ensures var raw, out := UnwrappedVideo(START.unwrapper, packets, wall), PublishedVideo(START, packets, wall);
      && (out == raw ==> Advancing(raw))
      && (NoneNegative(raw) ==> (out == raw <==> Advancing(raw)))
  {
    hide UnwrappedVideo, PublishedVideo, NoneNegative, Advancing;
    PublishedVideoAdvances(packets, wall);
    if NoneNegative(UnwrappedVideo(START.unwrapper, packets, wall)) {
      SteadyFromStart(START, packets, wall);
    }
  }

  // ---- the object

  class MediaTimeline {
    var highest: u64
    var unwrapOffset: u64
    var baseSet: bool
    var offset: int
    var lastVideo: nat
    var avgDelta: real
    var haveVideo: bool

    function State(): Timeline
      reads this
    {
      Timeline(Unwrapper(highest, unwrapOffset, baseSet), offset, lastVideo, avgDelta, haveVideo)
    }

    constructor ()
      ensures State() == START
    {
      highest, unwrapOffset, baseSet := 0, 0, false;
      offset, lastVideo, avgDelta, haveVideo := 0, 0, 0.0, false;
    }

    method UnwrapClock(ts32: u32, wall: i64) returns (us: u64)
      modifies this`highest, this`unwrapOffset, this`baseSet
      ensures var r := Unwrap(old(State()).unwrapper, ts32, wall);
        us == r.1 && State() == old(State()).(unwrapper := r.0)
    {
      if !baseSet {
        var systemMicro: u64 := Max(wall, 0);
        unwrapOffset := (systemMicro - ts32) % TWO64;
        highest := ts32;
        baseSet := true;
        return systemMicro;
      }
      var continuous := UnwrapTimestamp(ts32, highest);
      if continuous > highest {
        highest := continuous;
      }
      us := (continuous + unwrapOffset) % TWO64;
    }

    method PlaceNextVideo(ts32: u32, wall: i64) returns (mediaUs: nat, rawUs: u64)
      modifies this
      ensures (State(), mediaUs) == Video(old(State()), ts32, wall)
      ensures rawUs == Unwrap(old(State()).unwrapper, ts32, wall).1
      ensures old(AverageInRange(State())) ==>
        AverageInRange(State()) && (old(haveVideo) ==> 1 <= mediaUs - old(lastVideo) <= MAX_TRUSTED_DELTA)
    {
      rawUs := UnwrapClock(ts32, wall);
      ghost var before := State();
      var us := ApplyOffset(offset, rawUs);
      if !haveVideo {
        haveVideo := true;
        lastVideo := us;
        return us, rawUs;
      }
      var delta := us - lastVideo;
      if delta <= 0 || delta > MAX_TRUSTED_DELTA {
        var step := avgDelta.Floor;
        if step <= 0 {
          step := FALLBACK_DELTA;
        }
        offset := offset + delta - step;
        us := lastVideo + step;
      } else if avgDelta == 0.0 {
        avgDelta := delta as real;
      } else {
        avgDelta := avgDelta + (delta as real - avgDelta) * EMA_ALPHA;
      }
      lastVideo := us;
      if AverageInRange(before) {
        VideoAdvances(before, rawUs);
      }
      mediaUs := us;
    }

    method PlaceAudio(ts32: u32, wall: i64) returns (us: nat)
      modifies this`highest, this`unwrapOffset, this`baseSet
      ensures (State(), us) == Audio(old(State()), ts32, wall)
    {
      var raw := UnwrapClock(ts32, wall);
      us := ApplyOffset(offset, raw);
    }
  }
}
