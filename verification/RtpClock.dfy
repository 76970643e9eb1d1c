/**
 From media time to RTP timestamps (pkg/bridge/rtsp.go and pkg/bridge/stream_run.go): the conversion to
 clock ticks, the guard that keeps both tracks moving forward, and the audio bookkeeping around it.
 Timestamps are compared in the serial number order of section 3.2 of RFC 1982.
 */
module RtpClock {
  import opened Bytes
  import MediaClock

  const MICROS := 1_000_000
  const BACKWARD_LIMIT := 90000
  const HALF: int := 0x8000_0000

  function Add(a: u32, b: u32): u32 { (a + b) % TWO32 }

  function Sub(a: u32, b: u32): u32 { (a - b) % TWO32 }

  /** rtpTimestampAfter and rtpTimestampBefore: the sign of the 32-bit difference. */
  predicate After(ts: u32, prev: u32) { ToI32(Sub(ts, prev)) > 0 }

  predicate Before(ts: u32, prev: u32) { ToI32(Sub(ts, prev)) < 0 }

  // ---- arithmetic modulo 2^32

  lemma AddCases(a: u32, b: u32)
    ensures Add(a, b) == if a + b < TWO32 then a + b else a + b - TWO32
  {
  }

  lemma SubCases(a: u32, b: u32)
    ensures Sub(a, b) == if a >= b then a - b else a - b + TWO32
  {
  }

  lemma AddSub(a: u32, b: u32)
    ensures Add(a, Sub(b, a)) == b && Add(Sub(b, a), a) == b && Sub(Add(a, b), a) == b
    ensures Sub(a, a) == 0 && Add(a, 0) == a
  {
    hide Add, Sub;
    AddCases(a, b);
    AddCases(a, 0);
    AddCases(a, Sub(b, a));
    AddCases(Sub(b, a), a);
    SubCases(b, a);
    SubCases(a, a);
    SubCases(Add(a, b), a);
  }

  lemma AfterIsForward(ts: u32, prev: u32)
    ensures After(ts, prev) <==> 1 <= Sub(ts, prev) < HALF
    ensures Before(ts, prev) <==> Sub(ts, prev) >= HALF
  {
  }

  /** rtpTimestampForClock, in 64-bit arithmetic. */
  function RtpTimestamp(us: nat, clockRate: nat): u32
  {
    var seconds, rem := us / MICROS, us % MICROS;
    (seconds * clockRate % TWO64 + rem * clockRate % TWO64 / MICROS) % TWO64 % TWO32
  }

  function Ticks(us: nat, clockRate: nat): nat { us * clockRate / 1_000_000 }

  lemma DivSplit(a: nat, b: nat)
    ensures (a * MICROS + b) / MICROS == a + b / MICROS
  {
  }

  lemma DropLaps(k: nat, m: nat)
    ensures (k * TWO32 + m) % TWO32 == m % TWO32
  {
  }

  lemma WrapOnce(z: nat)
    ensures z % TWO64 % TWO32 == z % TWO32
  {
    var p := z / TWO64;
    assert z == p * TWO32 * TWO32 + z % TWO64;
    DropLaps(p * TWO32, z % TWO64);
  }

  lemma WrapTwice(x: nat, y: nat)
    ensures (x % TWO64 + y) % TWO64 % TWO32 == (x + y) % TWO32
  {
    var q := x / TWO64;
    var z := x % TWO64 + y;
    assert x + y == q * TWO32 * TWO32 + z;
    WrapOnce(z);
    DropLaps(q * TWO32, z);
  }

  /** The timestamp is the exact number of elapsed ticks, rounded down, modulo 2^32. */
  lemma TimestampIsFloorOfTicks(us: nat, clockRate: nat)
    requires clockRate < HALF
    ensures RtpTimestamp(us, clockRate) == Ticks(us, clockRate) % TWO32
  {
    hide Ticks, RtpTimestamp;
    var seconds, rem := us / MICROS, us % MICROS;
    assert us == seconds * MICROS + rem;
    FloorSplit(seconds, rem, clockRate);
    SplitProduct(seconds, rem, clockRate, us);
  }

  lemma SplitProduct(seconds: nat, rem: nat, clockRate: nat, us: nat)
    requires clockRate < HALF && seconds == us / MICROS && rem == us % MICROS
    ensures RtpTimestamp(us, clockRate) == (seconds * clockRate + rem * clockRate / MICROS) % TWO32
  {
    ProductBound(rem, clockRate);
    var whole: nat, part: nat := seconds * clockRate, rem * clockRate;
    assert part % TWO64 == part;
    WrapTwice(whole, part / MICROS);
  }

  lemma FloorSplit(seconds: nat, rem: nat, clockRate: nat)
    ensures Ticks(seconds * MICROS + rem, clockRate) == seconds * clockRate + rem * clockRate / MICROS
  {
    Distribute(seconds, rem, clockRate);
    DivSplit(seconds * clockRate, rem * clockRate);
  }

  lemma Distribute(s: nat, r: nat, rate: nat)
    ensures (s * MICROS + r) * rate == s * rate * MICROS + r * rate
  {
  }

  lemma ProductBound(r: nat, rate: nat)
    requires r < MICROS && rate < HALF
    ensures 0 <= r * rate < TWO64
  {
    assert r * rate <= MICROS * rate;
  }

  // ---- the guard

  datatype Guard = Guard(offset: u32, last: u32, isSet: bool)

  const FRESH := Guard(0, 0, false)

  /** rtpTimestampGuard.next. */
  function Next(g: Guard, ts: u32): (Guard, u32)
  {
    if !g.isSet then (g.(last := ts, isSet := true), ts)
    else if ts == g.last then (Guard(Sub(Add(g.last, 1), ts), Add(g.last, 1), true), Add(g.last, 1))
    else
      var adjusted := Add(ts, g.offset);
      if After(adjusted, g.last) then (g.(last := adjusted), adjusted)
      else if Sub(g.last, adjusted) > BACKWARD_LIMIT then
        var offset := Sub(Add(g.last, 1), ts);
        (Guard(offset, Add(ts, offset), true), Add(ts, offset))
      else (g.(last := Add(g.last, 1)), Add(g.last, 1))
  }

  /** Whatever comes in, the next stamp lies 1 to 2^31 - 1 ticks after the one before. */
  lemma GuardAdvances(g: Guard, ts: u32)
    ensures var (g', out) := Next(g, ts);
      g'.isSet && g'.last == out && (g.isSet ==> 1 <= Sub(out, g.last) < HALF)
  {
    hide Add, Sub, After;
    AddSub(g.last, 1);
    AddSub(ts, Add(g.last, 1));
    AfterIsForward(Add(ts, g.offset), g.last);
  }

  /** With no correction pending, a stamp passes unchanged exactly if it lies ahead in serial order. */
  lemma GuardTransparent(g: Guard, ts: u32)
    requires g.isSet && g.offset == 0
    ensures var (g', out) := Next(g, ts);
      && (out == ts <==> 1 <= Sub(ts, g.last) < HALF)
      && (out == ts ==> g'.offset == 0)
  {
    hide Add, Sub, After;
    AddSub(ts, 0);
    AddSub(g.last, 1);
    AddSub(ts, Add(g.last, 1));
    AddSub(g.last, 0);
    AfterIsForward(ts, g.last);
  }

  /** The guard only moves the stamp past the last one, without a correction: it was a little behind. */
  predicate Nudged(g: Guard, ts: u32)
  {
    var adjusted := Add(ts, g.offset);
    g.isSet && ts != g.last && !After(adjusted, g.last) && Sub(g.last, adjusted) <= 90_000
  }

  /**
   A stamp keeps its distance to the one sent before it exactly if it follows it by one tick, or the one
   before was not nudged and its own uncorrected value is not the last stamp that went out.
   */
  lemma GuardKeepsSpacing(g: Guard, ts: u32, distance: u32)
    requires 1 <= distance < HALF && (g.isSet || g.offset == 0)
    ensures var (g', out) := Next(g, ts);
      Next(g', Add(ts, distance)).1 == Add(out, distance) <==>
        distance == 1 || (!Nudged(g, ts) && Add(ts, distance) != out)
  {
    hide Add, Sub, After, Nudged, Next;
    var g' := Next(g, ts).0;
    NextIsLast(g, ts);
    NudgedMeans(g, ts);
    if Nudged(g, ts) {
      NudgeShows(g', ts, distance);
    } else {
      KeepsSpacing(g', ts, distance);
    }
  }

  /** Any other stamp goes out as itself plus the offset that is in force from then on. */
  lemma NudgedMeans(g: Guard, ts: u32)
    requires g.isSet || g.offset == 0
    ensures var (g', out) := Next(g, ts);
      if Nudged(g, ts) then g'.offset == g.offset && 1 <= Sub(out, Add(ts, g.offset)) <= BACKWARD_LIMIT + 1
      else out == Add(ts, g'.offset)
  {
    hide Add, Sub, After;
    AddSub(ts, Add(g.last, 1));
    AddSub(ts, 0);
    OneFurther(g.last, Add(ts, g.offset));
  }

  lemma OneFurther(a: u32, b: u32)
    ensures Sub(a, b) < HALF ==> Sub(Add(a, 1), b) == Sub(a, b) + 1
  {
    hide Add, Sub;
    AddCases(a, 1);
    SubCases(a, b);
    SubCases(Add(a, 1), b);
  }

  /** Behind a nudge the next stamp is on the old offset again, or one tick further. */
  lemma NudgeShows(g: Guard, ts: u32, distance: u32)
    requires g.isSet && 1 <= distance < HALF
    requires 1 <= Sub(g.last, Add(ts, g.offset)) <= BACKWARD_LIMIT + 1
    ensures Next(g, Add(ts, distance)).1 == Add(g.last, distance) <==> distance == 1
  {
    hide Add, Sub, After, Next;
    var adjusted := Add(ts, g.offset);
    AddCommutes(ts, distance, g.offset);
    OneFurtherOrAhead(g, Add(ts, distance));
    DistancesDiffer(g.last, adjusted, distance);
  }

  lemma OneFurtherOrAhead(g: Guard, ts: u32)
    requires g.isSet
    ensures var out, adjusted := Next(g, ts).1, Add(ts, g.offset);
      out == Add(g.last, 1) || (out == adjusted && After(adjusted, g.last))
  {
    hide Add, Sub, After;
    AddSub(ts, Add(g.last, 1));
  }

  lemma DistancesDiffer(last: u32, adjusted: u32, distance: u32)
    requires 1 <= distance < HALF && 1 <= Sub(last, adjusted) <= BACKWARD_LIMIT + 1
    ensures Add(adjusted, distance) != Add(last, distance)
    ensures Add(last, distance) == Add(last, 1) <==> distance == 1
    ensures !After(Add(adjusted, 1), last)
  {
    hide Add, Sub, After;
    AddCases(adjusted, distance);
    AddCases(last, distance);
    AddCases(last, 1);
    AddCases(adjusted, 1);
    SubCases(last, adjusted);
    SubCases(Add(adjusted, 1), last);
    AfterIsForward(Add(adjusted, 1), last);
  }

  lemma NextIsLast(g: Guard, ts: u32)
    ensures Next(g, ts).0.isSet && Next(g, ts).0.last == Next(g, ts).1
  {
    hide Add, Sub, After;
    AddSub(ts, Add(g.last, 1));
  }

  lemma KeepsSpacing(g: Guard, ts: u32, distance: u32)
    requires g.isSet && g.last == Add(ts, g.offset) && 1 <= distance < HALF
    ensures var ts2 := Add(ts, distance);
      Next(g, ts2).1 == Add(g.last, distance) <==> ts2 != g.last || distance == 1
  {
    hide Add, Sub, After;
    var ts2 := Add(ts, distance);
    AddCommutes(ts, distance, g.offset);
    assert Add(ts2, g.offset) == Add(g.last, distance);
    AddSub(g.last, distance);
    AddSub(g.last, 1);
    AfterIsForward(Add(g.last, distance), g.last);
  }

  function GuardAll(g: Guard, stamps: seq<u32>): (out: seq<u32>)
    ensures |out| == |stamps|
    decreases |stamps|
  {
    if stamps == [] then []
    else
      var r := Next(g, stamps[0]);
      [r.1] + GuardAll(r.0, stamps[1..])
  }

  /** The guard in front of stamp i of a stream. */
  function GuardAt(g: Guard, stamps: seq<u32>, i: nat): Guard
    requires i <= |stamps|
    decreases i
  {
    if i == 0 then g else GuardAt(Next(g, stamps[0]).0, stamps[1..], i - 1)
  }

  lemma {:induction false} GuardedAt(g: Guard, stamps: seq<u32>, i: nat)
    requires i < |stamps|
    ensures GuardAll(g, stamps)[i] == Next(GuardAt(g, stamps, i), stamps[i]).1
    ensures GuardAt(g, stamps, i + 1) == Next(GuardAt(g, stamps, i), stamps[i]).0
    ensures GuardAt(g, stamps, i).isSet || GuardAt(g, stamps, i) == g
    decreases i
  {
    hide Next;
    if i > 0 {
      NextIsLast(g, stamps[0]);
      GuardedAt(Next(g, stamps[0]).0, stamps[1..], i - 1);
    }
  }

  /** Over any stream from the start two neighbouring stamps keep their distance exactly under that condition. */
  lemma StreamKeepsSpacing(stamps: seq<u32>, i: nat)
    requires i + 1 < |stamps| && 1 <= Sub(stamps[i + 1], stamps[i]) < HALF
    ensures var out, distance := GuardAll(FRESH, stamps), Sub(stamps[i + 1], stamps[i]);
      Sub(out[i + 1], out[i]) == distance <==>
        distance == 1 || (!Nudged(GuardAt(FRESH, stamps, i), stamps[i]) && stamps[i + 1] != out[i])
  {
    hide Add, Sub, Next, Nudged, GuardAll, GuardAt;
    var out, distance := GuardAll(FRESH, stamps), Sub(stamps[i + 1], stamps[i]);
    GuardedAt(FRESH, stamps, i);
    GuardedAt(FRESH, stamps, i + 1);
    AddSub(stamps[i], stamps[i + 1]);
    GuardKeepsSpacing(GuardAt(FRESH, stamps, i), stamps[i], distance);
    SameDistance(out[i], out[i + 1], distance);
  }

  lemma SameDistance(a: u32, b: u32, distance: u32)
    ensures Sub(b, a) == distance <==> b == Add(a, distance)
  {
    hide Add, Sub;
    AddSub(a, b);
    AddSub(a, distance);
  }

  /** A stamp a little behind is nudged, and the distance of 60 to the one after it becomes 9. */
  lemma NudgeChangesSpacing()
    ensures GuardAll(FRESH, [100, 50, 110]) == [100, 101, 110]
  {
    GuardThree(100, 50, 110);
  }

  /** The raw stamp 1000001 happens to be the last stamp sent, so it counts as a repetition. */
  lemma CollisionChangesSpacing()
    ensures GuardAll(FRESH, [1_000_000, 0, 1_000_001]) == [1_000_000, 1_000_001, 1_000_002]
  {
    GuardThree(1_000_000, 0, 1_000_001);
  }

  lemma FirstStamp(ts: u32)
    ensures Next(FRESH, ts).1 == ts
  {
  }

  lemma GuardThree(a: u32, b: u32, c: u32)
    ensures var g := Next(FRESH, a).0;
      GuardAll(FRESH, [a, b, c]) == [a, Next(g, b).1, Next(Next(g, b).0, c).1]
  {
    hide Add, Sub, After, Next;
    var g := Next(FRESH, a).0;
    assert [a, b, c][1..] == [b, c] && [b, c][1..] == [c] && [c][1..] == [];
    assert GuardAll(Next(Next(g, b).0, c).0, []) == [];
    assert GuardAll(Next(g, b).0, [c]) == [Next(Next(g, b).0, c).1];
    assert GuardAll(g, [b, c]) == [Next(g, b).1, Next(Next(g, b).0, c).1];
    FirstStamp(a);
  }

  /** Consecutive stamps move forward in serial order. */
  predicate Forward(stamps: seq<u32>)
  {
    forall i :: 0 < i < |stamps| ==> 1 <= Sub(stamps[i], stamps[i - 1]) < HALF
  }

  lemma {:induction false} GuardedFollows(g: Guard, stamps: seq<u32>)
    ensures var out := GuardAll(g, stamps);
      Forward(out) && (g.isSet && out != [] ==> 1 <= Sub(out[0], g.last) < HALF)
    decreases |stamps|
  {
    hide Next;
    if stamps != [] {
      GuardAdvances(g, stamps[0]);
      GuardedFollows(Next(g, stamps[0]).0, stamps[1..]);
    }
  }

  /** Guarded stamps always move forward, for any input. */
  lemma GuardedStampsMoveForward(stamps: seq<u32>)
    ensures Forward(GuardAll(FRESH, stamps))
  {
    GuardedFollows(FRESH, stamps);
  }

  lemma {:induction false} TransparentAlong(g: Guard, stamps: seq<u32>)
    requires g.isSet && g.offset == 0
    ensures GuardAll(g, stamps) == stamps <==> Forward([g.last] + stamps)
    decreases |stamps|
  {
    hide Next;
    if stamps != [] {
      var r, rest := Next(g, stamps[0]), stamps[1..];
      var all := [g.last] + stamps;
      GuardTransparent(g, stamps[0]);
      GuardAdvances(g, stamps[0]);
      assert stamps == [stamps[0]] + rest;
      assert Forward(all) ==> 1 <= Sub(all[1], all[0]) < HALF;
      if r.1 == stamps[0] {
        TransparentAlong(r.0, rest);
        assert [stamps[0]] + rest == all[1..];
        ForwardSplit(all);
      }
    }
  }

  lemma ForwardSplit(all: seq<u32>)
    requires |all| >= 2
    ensures Forward(all) <==> 1 <= Sub(all[1], all[0]) < HALF && Forward(all[1..])
  {
    hide Sub;
    var tail := all[1..];
    if 1 <= Sub(all[1], all[0]) < HALF && Forward(tail) {
      forall i | 0 < i < |all|
        ensures 1 <= Sub(all[i], all[i - 1]) < HALF
      {
        if i > 1 {
          assert all[i] == tail[i - 1] && all[i - 1] == tail[(i - 1) - 1];
        }
      }
    }
    if Forward(all) {
      forall i | 0 < i < |tail|
        ensures 1 <= Sub(tail[i], tail[i - 1]) < HALF
      {
        assert tail[i] == all[i + 1] && tail[i - 1] == all[(i + 1) - 1];
      }
    }
  }

  /** The guard leaves a whole stream alone exactly if its stamps already move forward one after the other. */
  lemma GuardLeavesForwardStreamsAlone(stamps: seq<u32>)
    ensures GuardAll(FRESH, stamps) == stamps <==> Forward(stamps)
  {
    if stamps != [] {
      var rest := stamps[1..];
      FirstPasses(FRESH, stamps);
      TransparentAlong(Guard(0, stamps[0], true), rest);
      assert stamps == [stamps[0]] + rest;
    }
  }

  lemma FirstPasses(g: Guard, stamps: seq<u32>)
    requires !g.isSet && g.offset == 0 && stamps != []
    ensures GuardAll(g, stamps) == [stamps[0]] + GuardAll(Guard(0, stamps[0], true), stamps[1..])
  {
  }

  // ---- the video chain

  function Stamps(times: seq<nat>, clockRate: nat): (s: seq<u32>)
    ensures |s| == |times|
  {
    seq(|times|, i requires 0 <= i < |times| => RtpTimestamp(times[i], clockRate))
  }

  lemma TicksApart(a: nat, b: nat, clockRate: nat)
    requires 1 <= b - a <= MediaClock.MAX_TRUSTED_DELTA && clockRate < HALF
    ensures Ticks(a, clockRate) <= Ticks(b, clockRate) <= Ticks(a, clockRate) + clockRate / 2 + 1
  {
    ProductsApart(a, b, clockRate);
    QuotientsApart(a * clockRate, b * clockRate, clockRate);
  }

  lemma ProductsApart(a: nat, b: nat, rate: nat)
    requires 0 <= b - a <= MediaClock.MAX_TRUSTED_DELTA
    ensures a * rate <= b * rate <= a * rate + MediaClock.MAX_TRUSTED_DELTA * rate
  {
    var d := b - a;
    assert b * rate == a * rate + d * rate;
    assert 0 <= d * rate <= MediaClock.MAX_TRUSTED_DELTA * rate;
  }

  lemma QuotientsApart(x: nat, y: nat, rate: nat)
    requires x <= y <= x + MediaClock.MAX_TRUSTED_DELTA * rate
    ensures x / MICROS <= y / MICROS <= x / MICROS + rate / 2 + 1
  {
  }

  lemma SubOfTicks(m: nat, n: nat)
    requires 0 <= n - m < HALF
    ensures Sub(n % TWO32, m % TWO32) == n - m
  {
    var p, q := m / TWO32, n / TWO32;
    assert m == p * TWO32 + m % TWO32 && n == q * TWO32 + n % TWO32;
    assert n - m == (q - p) * TWO32 + (n % TWO32 - m % TWO32);
    assert (n % TWO32 - m % TWO32) % TWO32 == (n - m) % TWO32;
  }

  /**
   The video chain from camera clock to RTP: published times advance by at most 500 ms, so their stamps
   never jump half the number space, and the guard changes nothing exactly if no two consecutive frames
   fall into the same clock tick.
   */
  lemma VideoStampsFollowTheClock(packets: seq<MediaClock.Packet>, wall: MediaClock.i64, clockRate: nat)
    requires clockRate < HALF
    ensures var times := MediaClock.PublishedVideo(MediaClock.START, packets, wall);
      var raw := Stamps(times, clockRate);
      && Forward(GuardAll(FRESH, raw))
      && (GuardAll(FRESH, raw) == raw <==>
            forall i :: 0 < i < |times| ==> Ticks(times[i - 1], clockRate) != Ticks(times[i], clockRate))
  {
    hide GuardAll, MediaClock.PublishedVideo, MediaClock.Advancing, Stamps, Forward, Ticks;
    var times := MediaClock.PublishedVideo(MediaClock.START, packets, wall);
    var raw := Stamps(times, clockRate);
    MediaClock.PublishedVideoAdvances(packets, wall);
    GuardedStampsMoveForward(raw);
    GuardLeavesForwardStreamsAlone(raw);
    ForwardMeansNewTicks(times, clockRate);
  }

  /** Stamps of advancing times are in serial order exactly if no two neighbours share a tick. */
  lemma ForwardMeansNewTicks(times: seq<nat>, clockRate: nat)
    requires MediaClock.Advancing(times) && clockRate < HALF
    ensures Forward(Stamps(times, clockRate)) <==>
      forall i :: 0 < i < |times| ==> Ticks(times[i - 1], clockRate) != Ticks(times[i], clockRate)
  {
    hide RtpTimestamp, Ticks, Sub;
    var raw := Stamps(times, clockRate);
    forall i | 0 < i < |times|
      ensures 1 <= Sub(raw[i], raw[i - 1]) < HALF <==> Ticks(times[i - 1], clockRate) != Ticks(times[i], clockRate)
    {
      StampsApart(times[i - 1], times[i], clockRate);
    }
  }

  lemma StampsApart(a: nat, b: nat, clockRate: nat)
    requires 1 <= b - a <= MediaClock.MAX_TRUSTED_DELTA && clockRate < HALF
    ensures 1 <= Sub(RtpTimestamp(b, clockRate), RtpTimestamp(a, clockRate)) < HALF <==>
      Ticks(a, clockRate) != Ticks(b, clockRate)
  {
    hide RtpTimestamp, Ticks, Sub;
    TicksApart(a, b, clockRate);
    TimestampIsFloorOfTicks(a, clockRate);
    TimestampIsFloorOfTicks(b, clockRate);
    SubOfTicks(Ticks(a, clockRate), Ticks(b, clockRate));
  }

  // ---- audio batches

  /** The guard's offset for a batch, and where the batch starts. */
  function BatchOffset(g: Guard, base: u32, rel: u32): u32
  {
    var sum := Add(base, rel);
    var offset := if g.isSet && sum == g.last then 0 else g.offset;
    var first := Add(sum, offset);
    if g.isSet && Before(first, g.last) && Sub(g.last, first) > BACKWARD_LIMIT then Sub(g.last, sum) else offset
  }

  function BatchStart(g: Guard, base: u32, rel: u32): u32
  {
    var sum := Add(base, rel);
    var first := Add(sum, if g.isSet && sum == g.last then 0 else g.offset);
    if !(g.isSet && Before(first, g.last)) then first
    else if Sub(g.last, first) > BACKWARD_LIMIT then Add(sum, Sub(g.last, sum))
    else g.last
  }

  /** applyBaseToPackets for a batch whose first packet carries the relative stamp rel. */
  function ApplyBase(g: Guard, base: u32, rel: u32, duration: u32): (Guard, u32)
  {
    var start := BatchStart(g, base, rel);
    (Guard(BatchOffset(g, base, rel), if duration == 0 then start else Add(start, duration), true), Sub(start, rel))
  }

  /** A batch never starts before the end of the batch before it, and the guard remembers where it ends. */
  lemma BatchNeverOverlaps(g: Guard, base: u32, rel: u32, duration: u32)
    ensures var (g', base') := ApplyBase(g, base, rel, duration);
      var start := Add(base', rel);
      && (g.isSet ==> !Before(start, g.last))
      && g'.isSet && g'.last == Add(start, duration)
  {
    hide Add, Sub, Before;
    var start := BatchStart(g, base, rel);
    AddSub(rel, start);
    AddSub(start, duration);
    AddSub(Add(base, rel), g.last);
    AddSub(g.last, g.last);
    AfterIsForward(start, g.last);
    AfterIsForward(g.last, g.last);
  }

  /**
   Where a batch goes: to its own stamp plus the pending correction, or to the end of the batch before it if that
   is later. A correction is dropped when the uncorrected stamp fits; only one that is more than a second of video
   clock behind gets a new one, which puts it at that end.
   */
  lemma BatchPlacement(g: Guard, base: u32, rel: u32, duration: u32)
    ensures var (g', base') := ApplyBase(g, base, rel, duration);
      var sum := Add(base, rel);
      var pending := if g.isSet && sum == g.last then 0 else g.offset;
      var behind := g.isSet && Sub(Add(sum, pending), g.last) >= HALF;
      && Add(base', rel) == (if behind then g.last else Add(sum, pending))
      && (if behind && Sub(g.last, Add(sum, pending)) > 90_000 then Add(sum, g'.offset) == g.last
          else g'.offset == pending)
  {
    hide Add, Sub, Before;
    var sum := Add(base, rel);
    AddSub(rel, BatchStart(g, base, rel));
    AddSub(sum, g.last);
    AfterIsForward(Add(sum, if g.isSet && sum == g.last then 0 else g.offset), g.last);
  }

  /** A batch that continues where the last one ended starts exactly there. */
  lemma ContinuationIsGapless(g: Guard, base: u32, rel: u32, duration: u32)
    requires g.isSet && Add(base, rel) == g.last
    ensures Add(ApplyBase(g, base, rel, duration).1, rel) == g.last
  {
    hide Add, Sub, Before;
    AddSub(rel, g.last);
    AddSub(g.last, g.last);
    AfterIsForward(g.last, g.last);
  }

  /**
   Batches that follow each other on the camera clock are published without a gap, whatever correction
   the guard had to make for the first of them.
   */
  lemma ContiguousBatchesAreGapless(g: Guard, base: u32, rel: u32, duration: u32, next: u32)
    ensures var (g', base') := ApplyBase(g, base, rel, duration);
      Add(ApplyBase(g', Add(base, duration), rel, next).1, rel) == Add(Add(base', rel), duration)
  {
    hide Add, Sub, Before, BatchStart, BatchOffset;
    var (g', base') := ApplyBase(g, base, rel, duration);
    var start := BatchStart(g, base, rel);
    AddSub(rel, start);
    AddSub(start, 0);
    var sum := Add(base, rel);
    AddCommutes(base, duration, rel);
    StartByOffset(g, base, rel);
    AddCommutes(sum, duration, g'.offset);
    FollowingStart(g', Add(base, duration), rel, duration, start, Add(sum, g'.offset));
    AddSub(rel, g'.last);
  }

  /** A batch starts where the guard's offset puts it, or a little later, at the end of the one before it. */
  lemma StartByOffset(g: Guard, base: u32, rel: u32)
    ensures var start, first := BatchStart(g, base, rel), Add(Add(base, rel), BatchOffset(g, base, rel));
      start == first || (Before(first, start) && Sub(start, first) <= BACKWARD_LIMIT)
  {
    hide Add, Sub, Before;
    AddSub(Add(base, rel), g.last);
    AddSub(Add(base, rel), 0);
  }

  lemma FollowingStart(g: Guard, base: u32, rel: u32, duration: u32, start: u32, first: u32)
    requires g.isSet && g.last == Add(start, duration) && Add(Add(base, rel), g.offset) == Add(first, duration)
    requires start == first || (Before(first, start) && Sub(start, first) <= BACKWARD_LIMIT)
    ensures BatchStart(g, base, rel) == g.last
  {
    hide Add, Sub, Before;
    ShiftKeepsOrder(first, start, duration);
    AddSub(Add(base, rel), 0);
    AfterIsForward(g.last, g.last);
    AddSub(g.last, 0);
  }

  lemma ShiftKeepsOrder(a: u32, b: u32, c: u32)
    ensures Sub(Add(b, c), Add(a, c)) == Sub(b, a) && Sub(Add(a, c), Add(b, c)) == Sub(a, b)
    ensures Before(Add(a, c), Add(b, c)) == Before(a, b)
  {
    hide Add, Sub;
    ShiftKeepsDistance(b, a, c);
    ShiftKeepsDistance(a, b, c);
  }

  lemma ShiftKeepsDistance(x: u32, y: u32, c: u32)
    ensures Sub(Add(x, c), Add(y, c)) == Sub(x, y)
  {
    var xc, yc := Add(x, c), Add(y, c);
    assert xc == x + c || xc == x + c - TWO32;
    assert yc == y + c || yc == y + c - TWO32;
    DifferenceModulo((xc as int) - yc, (x as int) - y);
  }

  lemma DifferenceModulo(m: int, n: int)
    requires -TWO32 < m < TWO32 && -TWO32 < n < TWO32
    requires m == n || m == n + TWO32 || m == n - TWO32
    ensures m % TWO32 == n % TWO32
  {
  }

  /** The publisher's bookkeeping: the stamp expected next, whether the video clock has anchored it, the guard. */
  datatype Publisher = Publisher(nextTimestamp: u32, anchored: bool, guard: Guard)

  /** A batch of packets: their relative stamps, the media time if one is known, the length in samples. */
  datatype Batch = Batch(rel: u32, expected: Option<u32>, authoritative: bool, duration: u32)

  /** The shared end of processAAC and processADPCM: the new state and the stamp of the first packet. */
  function Publish(p: Publisher, b: Batch): (Publisher, u32)
  {
    var anchor := b.expected.Some? && (b.authoritative || !p.anchored);
    var base := if anchor then b.expected.value else p.nextTimestamp;
    var r := ApplyBase(p.guard, base, b.rel, b.duration);
    (Publisher(Add(r.1, b.duration), p.anchored || anchor, r.0), Add(r.1, b.rel))
  }

  function PublishAll(p: Publisher, batches: seq<Batch>): (starts: seq<u32>)
    ensures |starts| == |batches|
    decreases |batches|
  {
    if batches == [] then []
    else
      var r := Publish(p, batches[0]);
      [r.1] + PublishAll(r.0, batches[1..])
  }

  /** Once a batch with relative stamp rel went out, the guard's end and the expected stamp agree. */
  predicate InStep(p: Publisher, rel: u32)
  {
    p.guard.isSet && p.guard.last == Add(p.nextTimestamp, rel)
  }

  /** The publisher's next stamp and the end of its batch differ by the relative stamp only. */
  lemma PublishedStart(b: Batch)
    ensures forall base: u32 :: Add(Add(base, b.duration), b.rel) == Add(Add(base, b.rel), b.duration)
  {
    forall base: u32
      ensures Add(Add(base, b.duration), b.rel) == Add(Add(base, b.rel), b.duration)
    {
      AddCommutes(base, b.duration, b.rel);
    }
  }

  lemma AddCommutes(a: u32, b: u32, c: u32)
    ensures Add(Add(a, b), c) == Add(Add(a, c), b)
  {
  }

  lemma PublishKeepsInStep(p: Publisher, b: Batch)
    ensures var (p', start) := Publish(p, b);
      && InStep(p', b.rel) && p'.guard.last == Add(start, b.duration)
      && (p.guard.isSet ==> !Before(start, p.guard.last))
      && (InStep(p, b.rel) && !(b.expected.Some? && (b.authoritative || !p.anchored)) ==> start == p.guard.last)
  {
    hide ApplyBase, Before, Add;
    PublishedStart(b);
    var anchor := b.expected.Some? && (b.authoritative || !p.anchored);
    var base := if anchor then b.expected.value else p.nextTimestamp;
    BatchNeverOverlaps(p.guard, base, b.rel, b.duration);
    if p.guard.isSet && Add(base, b.rel) == p.guard.last {
      ContinuationIsGapless(p.guard, base, b.rel, b.duration);
    }
  }

  lemma {:induction false} BatchesFollow(p: Publisher, batches: seq<Batch>)
    ensures var starts := PublishAll(p, batches);
      && (forall i :: 0 < i < |batches| ==> !Before(starts[i], Add(starts[i - 1], batches[i - 1].duration)))
      && (p.guard.isSet && batches != [] ==> !Before(starts[0], p.guard.last))
    decreases |batches|
  {
    hide Publish, Before, Add;
    if batches != [] {
      PublishKeepsInStep(p, batches[0]);
      BatchesFollow(Publish(p, batches[0]).0, batches[1..]);
    }
  }

  /** Over any sequence of batches none starts before the end of its predecessor. */
  lemma AudioNeverOverlaps(batches: seq<Batch>, first: u32)
    ensures var starts := PublishAll(Publisher(first, false, FRESH), batches);
      forall i :: 0 < i < |batches| ==> !Before(starts[i], Add(starts[i - 1], batches[i - 1].duration))
  {
    BatchesFollow(Publisher(first, false, FRESH), batches);
  }

  /**
   Audio without timestamps of its own runs gaplessly from its anchor: after the first batch every
   batch starts exactly where the one before it ended.
   */
  lemma {:induction false} UntimedAudioIsGapless(p: Publisher, batches: seq<Batch>, rel: u32)
    requires InStep(p, rel) && p.anchored
    requires forall b :: b in batches ==> b.rel == rel && !b.authoritative
    ensures var starts := PublishAll(p, batches);
      && (batches != [] ==> starts[0] == p.guard.last)
      && (forall i :: 0 < i < |batches| ==> starts[i] == Add(starts[i - 1], batches[i - 1].duration))
    decreases |batches|
  {
    hide Publish, Add;
    if batches != [] {
      PublishKeepsInStep(p, batches[0]);
      AnchorStays(p, batches[0]);
      UntimedAudioIsGapless(Publish(p, batches[0]).0, batches[1..], rel);
    }
  }

  lemma AnchorStays(p: Publisher, b: Batch)
    ensures p.anchored ==> Publish(p, b).0.anchored
  {
  }

  // ---- the object

  class RtpTimestampGuard {
    var offset: u32
    var last: u32
    var isSet: bool

    function State(): Guard
      reads this
    {
      Guard(offset, last, isSet)
    }

    constructor ()
      ensures State() == FRESH
    {
      offset, last, isSet := 0, 0, false;
    }

    method NextStamp(ts: u32) returns (out: u32)
      modifies this
      ensures (State(), out) == Next(old(State()), ts)
      ensures old(isSet) ==> 1 <= Sub(out, old(last)) < HALF
    {
      GuardAdvances(State(), ts);
      if !isSet {
        last := ts;
        isSet := true;
        return ts;
      }
      var adjusted := Add(ts, offset);
      if ts == last {
        offset := Sub(Add(last, 1), ts);
        adjusted := Add(last, 1);
      } else if !After(adjusted, last) {
        var jumpBackward := Sub(last, adjusted);
        if jumpBackward > BACKWARD_LIMIT {
          offset := Sub(Add(last, 1), ts);
          adjusted := Add(ts, offset);
        } else {
          adjusted := Add(last, 1);
        }
      }
      last := adjusted;
      out := adjusted;
    }

    /** rels are the relative stamps the encoder put on the packets of the batch. */
    method ApplyBaseToPackets(rels: seq<u32>, base: u32, duration: u32) returns (base': u32)
      modifies this
      ensures rels == [] ==> base' == base && State() == old(State())
      ensures rels != [] ==> (State(), base') == ApplyBase(old(State()), base, rels[0], duration)
      ensures rels != [] && old(isSet) ==> !Before(Add(base', rels[0]), old(last))
    {
      hide Add, Sub, Before;
      if |rels| == 0 {
        return base;
      }
      BatchNeverOverlaps(State(), base, rels[0], duration);
      AddSub(Add(base, rels[0]), 0);
      var sum := Add(base, rels[0]);
      var first := Add(sum, offset);
      if isSet && sum == last {
        offset := 0;
        first := sum;
      }
      if isSet && Before(first, last) {
        var jumpBackward := Sub(last, first);
        if jumpBackward > BACKWARD_LIMIT {
          offset := Sub(last, sum);
          first := Add(sum, offset);
        } else {
          first := last;
        }
      }
      var adjusted := first;
      last := if duration == 0 then adjusted else Add(adjusted, duration);
      isSet := true;
      base' := Sub(adjusted, rels[0]);
    }
  }
}
