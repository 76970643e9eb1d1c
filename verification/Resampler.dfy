/**
 The streaming sample rate converter of the talk path (pcmResampler in pkg/bridge/talk_pipeline.go):
 linear interpolation at positions k * from / to, carried on from packet to packet.
 */
module Resampler {
  import opened Bytes

  /** Go's integer division rounds towards zero. */
  function TruncDiv(n: int, d: int): int
    requires d > 0
  {
    if n >= 0 then n / d else -(-n / d)
  }

  /** The value p / to of the way from sample a to sample b. */
  function Between(a: i16, b: i16, p: nat, to: nat): int
    requires p < to
  {
    a + TruncDiv((b - a) * p, to)
  }

  lemma MulMono(a: nat, b: nat, c: nat)
    requires a <= b
    ensures a * c <= b * c
  {
  }

  lemma QuotientAtMost(n: nat, d: nat, c: nat)
    requires c > 0 && n <= d * c
    ensures n / c <= d
  {
    var q := n / c;
    assert q * c <= n;
    if q > d {
      MulMono(d + 1, q, c);
      Successor(d, c);
    }
  }

  lemma Successor(a: nat, c: nat)
    ensures (a + 1) * c == a * c + c
  {
  }

  lemma FractionBound(d: nat, p: nat, to: nat)
    requires p < to
    ensures 0 <= d * p / to <= d
  {
    MulMono(p, to, d);
    var n := d * p;
    assert n == p * d && d * to == to * d;
    QuotientAtMost(n, d, to);
  }

  /** An interpolated sample lies between its two neighbours, so its conversion to 16 bits loses nothing. */
  lemma BetweenNeighbours(a: i16, b: i16, p: nat, to: nat)
    requires p < to
    ensures Min(a, b) <= Between(a, b, p, to) <= Max(a, b)
  {
    if b >= a {
      FractionBound(b - a, p, to);
      assert (b - a) * p >= 0;
    } else {
      FractionBound(a - b, p, to);
      assert -((b - a) * p) == (a - b) * p;
    }
  }

  // ---- the batch specification

  /** How many output samples n input samples determine: ceil((n - 1) * to / from). */
  function BatchLength(n: nat, from: nat, to: nat): nat
    requires from > 0
  {
    if n == 0 then 0 else ((n - 1) * to + from - 1) / from
  }

  /** Output k is determined by n input samples exactly if its position lies before the last of them. */
  lemma BatchLengthMeaning(n: nat, from: nat, to: nat, k: nat)
    requires from > 0 && n > 0
    ensures k < BatchLength(n, from, to) <==> k * from < (n - 1) * to
  {
    Ceiling((n - 1) * to, from, k);
  }

  lemma Ceiling(m: nat, d: nat, k: nat)
    requires d > 0
    ensures k < (m + d - 1) / d <==> k * d < m
  {
    var q := (m + d - 1) / d;
    assert q * d <= m + d - 1 < q * d + d;
    if k < q {
      MulMono(k + 1, q, d);
      Successor(k, d);
    } else {
      MulMono(q, k, d);
    }
  }

  /** The input sample at or just before the position of output k. */
  function Base(from: nat, to: nat, k: nat): nat
    requires to > 0
  {
    k * from / to
  }

  /** How far output k lies behind that sample, in 1/to of an input sample. */
  function Fraction(from: nat, to: nat, k: nat): (p: nat)
    requires to > 0
    ensures p < to
  {
    k * from % to
  }

  /** Output k is determined: both samples around its position are there. */
  predicate Determined(n: nat, from: nat, to: nat, k: nat)
  {
    n > 0 && to > 0 && Base(from, to, k) + 1 < n
  }

  lemma PositionInRange(n: nat, from: nat, to: nat, k: nat)
    requires from > 0 && to > 0 && k < BatchLength(n, from, to)
    ensures Determined(n, from, to, k)
  {
    BatchLengthMeaning(n, from, to, k);
    var p := k * from;
    assert p / to * to <= p;
    if p / to >= n - 1 {
      MulMono(n - 1, p / to, to);
    }
  }

  /** Linear interpolation of the whole input at position k * from / to. */
  function Interpolated(x: seq<i16>, from: nat, to: nat, k: nat): (v: i16)
    requires Determined(|x|, from, to, k)
  {
    var base := Base(from, to, k);
    BetweenNeighbours(x[base], x[base + 1], Fraction(from, to, k), to);
    Between(x[base], x[base + 1], Fraction(from, to, k), to)
  }

  function Batch(x: seq<i16>, from: nat, to: nat): (out: seq<i16>)
    requires from > 0 && to > 0
    ensures |out| == BatchLength(|x|, from, to)
  {
    seq(BatchLength(|x|, from, to), k requires 0 <= k < BatchLength(|x|, from, to) =>
      PositionInRange(|x|, from, to, k); Interpolated(x, from, to, k))
  }

  /** Each output sample lies between the two input samples around its position. */
  lemma BatchIsBounded(x: seq<i16>, from: nat, to: nat, k: nat)
    requires from > 0 && to > 0 && k < BatchLength(|x|, from, to)
    ensures Determined(|x|, from, to, k)
    ensures var base := Base(from, to, k);
      Min(x[base], x[base + 1]) <= Batch(x, from, to)[k] <= Max(x[base], x[base + 1])
  {
    hide BatchLength, Between, Batch, Interpolated, Base;
    BatchAt(x, from, to, k);
    InterpolatedBetween(x, from, to, k);
  }

  /**
   Output k is the point of the straight line between the two samples around its position, which is sample j
   and p / to of the way to the next, rounded towards sample j.
   */
  lemma BatchIsLinear(x: seq<i16>, from: nat, to: nat, k: nat)
    requires from > 0 && to > 0 && k < BatchLength(|x|, from, to)
    ensures k * from / to + 1 < |x|
    ensures var j, p := k * from / to, k * from % to;
      var v, line := to * Batch(x, from, to)[k], x[j] * (to - p) + x[j + 1] * p;
      && (x[j] <= x[j + 1] ==> line - to < v <= line)
      && (x[j] >= x[j + 1] ==> line <= v < line + to)
  {
    hide BatchLength, Between, Batch, Interpolated, Base, Fraction;
    BatchAt(x, from, to, k);
    IsLinear(x, from, to, k);
  }

  lemma IsLinear(x: seq<i16>, from: nat, to: nat, k: nat)
    requires Determined(|x|, from, to, k)
    ensures k * from / to + 1 < |x|
    ensures var j, p := k * from / to, k * from % to;
      var v, line := to * Interpolated(x, from, to, k), x[j] * (to - p) + x[j + 1] * p;
      && (x[j] <= x[j + 1] ==> line - to < v <= line)
      && (x[j] >= x[j + 1] ==> line <= v < line + to)
  {
    hide Between;
    BetweenIsLinear(x[Base(from, to, k)], x[Base(from, to, k) + 1], Fraction(from, to, k), to);
  }

  lemma BetweenIsLinear(a: i16, b: i16, p: nat, to: nat)
    requires p < to
    ensures var v, line := to * Between(a, b, p, to), a * (to - p) + b * p;
      && (a <= b ==> line - to < v <= line)
      && (a >= b ==> line <= v < line + to)
  {
    hide TruncDiv;
    var n, q := (b - a) * p, TruncDiv((b - a) * p, to);
    assert to * (a + q) == to * a + to * q;
    assert a * (to - p) + b * p == a * to + n;
    SignOfProduct(b - a, p);
    Truncated(n, to);
  }

  lemma SignOfProduct(d: int, p: nat)
    ensures (d >= 0 ==> d * p >= 0) && (d <= 0 ==> d * p <= 0)
  {
  }

  lemma Truncated(n: int, d: int)
    requires d > 0
    ensures n >= 0 ==> n - d < d * TruncDiv(n, d) <= n
    ensures n <= 0 ==> n <= d * TruncDiv(n, d) < n + d
  {
    if n >= 0 {
      WholePart(n, d);
    } else {
      WholePart(-n, d);
      assert d * TruncDiv(n, d) == -(d * (-n / d));
    }
  }

  lemma WholePart(n: nat, d: nat)
    requires d > 0
    ensures n - d < d * (n / d) <= n
  {
  }

  /** An output on the very position of an input sample is that sample. */
  lemma SamplesAreKept(x: seq<i16>, from: nat, to: nat, k: nat, j: nat)
    requires from > 0 && to > 0 && k < BatchLength(|x|, from, to) && k * from == j * to
    ensures j < |x| && Batch(x, from, to)[k] == x[j]
  {
    hide BatchLength, Batch;
    DivUnique(k * from, to, j, 0);
    BatchIsLinear(x, from, to, k);
    OnTheSample(Batch(x, from, to)[k], x[j], x[j + 1], to);
  }

  lemma OnTheSample(v: int, a: int, b: int, to: int)
    requires to > 0
    requires var line := a * (to - 0) + b * 0;
      (a <= b ==> line - to < to * v <= line) && (a >= b ==> line <= to * v < line + to)
    ensures v == a
  {
    StepsApart(v, a, to);
  }

  lemma StepsApart(v: int, a: int, to: int)
    requires to > 0
    ensures (v > a ==> to * v >= to * a + to) && (v < a ==> to * v <= to * a - to)
  {
    var d := v - a;
    assert to * v == to * a + to * d;
    if d > 0 {
      assert to * d >= to;
    }
    if d < 0 {
      assert to * d <= -to;
    }
  }

  lemma BatchAt(x: seq<i16>, from: nat, to: nat, k: nat)
    requires from > 0 && to > 0 && k < BatchLength(|x|, from, to)
    ensures Determined(|x|, from, to, k) && Batch(x, from, to)[k] == Interpolated(x, from, to, k)
  {
    hide BatchLength, Interpolated, Determined, Base;
    PositionInRange(|x|, from, to, k);
  }

  lemma InterpolatedBetween(x: seq<i16>, from: nat, to: nat, k: nat)
    requires Determined(|x|, from, to, k)
    ensures var base := Base(from, to, k);
      Min(x[base], x[base + 1]) <= Interpolated(x, from, to, k) <= Max(x[base], x[base + 1])
  {
    hide Between, Base, Fraction;
    var base := Base(from, to, k);
    BetweenNeighbours(x[base], x[base + 1], Fraction(from, to, k), to);
  }

  /** More input only adds output. */
  lemma BatchGrows(x: seq<i16>, more: seq<i16>, from: nat, to: nat)
    requires from > 0 && to > 0
    ensures Batch(x, from, to) <= Batch(x + more, from, to)
  {
    hide Determined, Base, BatchLength, Interpolated;
    var n, m := BatchLength(|x|, from, to), BatchLength(|x + more|, from, to);
    forall k | 0 <= k < n
      ensures k < m && Batch(x, from, to)[k] == Batch(x + more, from, to)[k]
    {
      LengthGrows(|x|, |x + more|, from, to, k);
      PositionInRange(|x|, from, to, k);
      PositionInRange(|x + more|, from, to, k);
      SameInterpolation(x, more, from, to, k);
    }
    if n > 0 {
      LengthGrows(|x|, |x + more|, from, to, n - 1);
    }
  }

  lemma LengthGrows(n: nat, m: nat, from: nat, to: nat, k: nat)
    requires n <= m && from > 0 && k < BatchLength(n, from, to)
    ensures k < BatchLength(m, from, to)
  {
    BatchLengthMeaning(n, from, to, k);
    BatchLengthMeaning(m, from, to, k);
    MulMono(n - 1, m - 1, to);
  }

  lemma SameInterpolation(x: seq<i16>, more: seq<i16>, from: nat, to: nat, k: nat)
    requires Determined(|x|, from, to, k) && Determined(|x + more|, from, to, k)
    ensures Interpolated(x, from, to, k) == Interpolated(x + more, from, to, k)
  {
    hide Base, Fraction, Between;
  }

  // ---- the object

  /** The position of output k, counted from input sample n - 1, in 1/to of an input sample. */
  function Position(n: nat, from: nat, to: nat, k: nat): int { k * from - (n - 1) * to }

  class PcmResampler {
    const from: nat
    const to: nat
    var pos: int
    var prev: i16
    var primed: bool
    ghost var seen: seq<i16>

    /** pos is the position of the next output sample, counted from the last input sample. */
    ghost predicate Valid()
      reads this
    {
      && from > 0 && to > 0 && 0 <= pos < from
      && (!primed ==> seen == [] && pos == 0)
      && (primed ==> seen != [] && prev == seen[|seen| - 1])
      && (primed ==> pos == Position(|seen|, from, to, BatchLength(|seen|, from, to)))
    }

    constructor (fromRate: nat, toRate: nat)
      requires fromRate > 0 && toRate > 0
      ensures Valid() && seen == [] && from == fromRate && to == toRate
    {
      from, to := fromRate, toRate;
      pos, prev, primed := 0, 0, false;
      seen := [];
    }

    /** resample: the output continues the batch conversion of everything seen before by this packet's share. */
    method Resample(input: seq<i16>) returns (out: seq<i16>)
      requires Valid()
      modifies this
      ensures Valid() && seen == old(seen) + input
      ensures Batch(seen, from, to) == Batch(old(seen), from, to) + out
    {
      hide Batch, BatchLength, Interpolated, Between, Determined, Position, Base, Fraction;
      var rest := input;
      ghost var x := seen + input;
      if !primed {
        if |rest| == 0 {
          assert seen + input == seen;
          return [];
        }
        prev, rest, primed := rest[0], rest[1..], true;
        seen := [prev];
        OneSample(prev, from, to);
      }
      assert x == seen + rest;
      out := Interpolate(rest);
      if |rest| > 0 {
        prev := rest[|rest| - 1];
      }
      seen := x;
    }

    /** The loop of resample: all output before the last sample of the packet; pos is then counted from there. */
    method Interpolate(rest: seq<i16>) returns (out: seq<i16>)
      requires Valid() && primed
      modifies this`pos
      ensures var x := seen + rest;
        && Batch(x, from, to) == Batch(seen, from, to) + out
        && 0 <= pos < from && pos == Position(|x|, from, to, BatchLength(|x|, from, to))
    {
      hide Batch, BatchLength, Interpolated, Between, Determined, Position, Base, Fraction;
      ghost var x, n := seen + rest, |seen|;
      var limit := |rest| * to;
      // the capacity handed to make is not negative
      assert limit - pos + from > 0;
      out := [];
      ghost var k: nat := BatchLength(n, from, to);
      BatchGrows(seen, rest, from, to);
      while pos < limit
        invariant pos >= 0 && pos - from < Max(limit, 0)
        invariant pos == Position(n, from, to, k)
        invariant k <= BatchLength(|x|, from, to) && k == BatchLength(n, from, to) + |out|
        invariant Batch(x, from, to)[..k] == Batch(seen, from, to) + out
      {
        WithinBatch(n, |rest|, from, to, k, pos);
        NextSample(x, from, to, k);
        var s := SampleAt(rest, pos);
        out := out + [s];
        NextPosition(n, from, to, k);
        k := k + 1;
        pos := pos + from;
      }
      AllMade(n, |rest|, from, to, k, pos);
      pos := pos - limit;
      assert Batch(x, from, to)[..k] == Batch(x, from, to);
    }

    /** One output sample, from the samples before and behind its position. */
    method SampleAt(rest: seq<i16>, at: int) returns (s: i16)
      requires from > 0 && to > 0 && 0 <= at < |rest| * to && seen != [] && prev == seen[|seen| - 1]
      requires exists k: nat :: at == Position(|seen|, from, to, k)
      ensures forall k: nat :: at == Position(|seen|, from, to, k) ==>
        var x := seen + rest;
        && Base(from, to, k) + 1 < |x|
        && s == Between(x[Base(from, to, k)], x[Base(from, to, k) + 1], Fraction(from, to, k), to)
    {
      hide Between, Position, Base, Fraction;
      ghost var x, n := seen + rest, |seen|;
      var base := at / to;
      BaseInPacket(at, |rest|, to);
      var a := prev;
      if base > 0 {
        a := rest[base - 1];
      }
      var b := rest[base];
      assert base > 0 ==> rest[base - 1] == x[n + (base - 1)];
      assert a == x[n - 1 + base] && b == x[n + base];
      BetweenNeighbours(a, b, at % to, to);
      forall k: nat | at == Position(n, from, to, k)
        ensures Base(from, to, k) == n - 1 + base && Fraction(from, to, k) == at % to
      {
        SplitPosition(n, from, to, k, at);
      }
      s := Between(a, b, at % to, to);
    }
  }

  lemma OneSample(s: i16, from: nat, to: nat)
    requires from > 0 && to > 0
    ensures BatchLength(1, from, to) == 0 && Batch([s], from, to) == [] == Batch([], from, to)
    ensures Position(1, from, to, 0) == 0
  {
  }

  lemma NextPosition(n: nat, from: nat, to: nat, k: nat)
    ensures Position(n, from, to, k + 1) == Position(n, from, to, k) + from
  {
    Successor(k, from);
  }

  lemma WithinBatch(n: nat, m: nat, from: nat, to: nat, k: nat, pos: int)
    requires n > 0 && from > 0 && to > 0 && pos == Position(n, from, to, k) && pos < m * to
    ensures k < BatchLength(n + m, from, to)
  {
    BatchLengthMeaning(n + m, from, to, k);
    assert (n + m - 1) * to == (n - 1) * to + m * to;
  }

  lemma SplitPosition(n: nat, from: nat, to: nat, k: nat, pos: int)
    requires n > 0 && to > 0 && pos >= 0 && pos == Position(n, from, to, k)
    ensures Base(from, to, k) == n - 1 + pos / to && Fraction(from, to, k) == pos % to
  {
    DivOfSum(n - 1, pos, to);
  }

  lemma DivOfSum(a: nat, b: nat, c: nat)
    requires c > 0
    ensures (a * c + b) / c == a + b / c && (a * c + b) % c == b % c
  {
    var q, r := b / c, b % c;
    assert a * c + b == (a + q) * c + r;
    DivUnique(a * c + b, c, a + q, r);
  }

  lemma DivUnique(n: nat, c: nat, q: nat, r: nat)
    requires c > 0 && n == q * c + r && r < c
    ensures n / c == q && n % c == r
  {
    var q', r' := n / c, n % c;
    assert n == q' * c + r';
    assert (q' + 1) * c == q' * c + c && (q + 1) * c == q * c + c;
    if q' < q {
      MulMono(q' + 1, q, c);
    } else if q < q' {
      MulMono(q + 1, q', c);
    }
  }

  lemma NextSample(x: seq<i16>, from: nat, to: nat, k: nat)
    requires from > 0 && to > 0 && k < BatchLength(|x|, from, to)
    ensures Determined(|x|, from, to, k) && Base(from, to, k) + 1 < |x|
    ensures Batch(x, from, to)[..k + 1] == Batch(x, from, to)[..k] +
      [Between(x[Base(from, to, k)], x[Base(from, to, k) + 1], Fraction(from, to, k), to)]
  {
    hide BatchLength, Between, Base, Fraction, Batch;
    BatchAt(x, from, to, k);
  }

  lemma BaseInPacket(pos: int, m: nat, to: nat)
    requires 0 <= pos < m * to && to > 0
    ensures 0 <= pos / to < m && pos % to < to
  {
    var q := pos / to;
    assert q * to <= pos;
    if q >= m {
      MulMono(m, q, to);
    }
  }

  lemma AllMade(n: nat, m: nat, from: nat, to: nat, k: nat, pos: int)
    requires n > 0 && from > 0 && to > 0 && pos == Position(n, from, to, k) && pos >= m * to
    requires k <= BatchLength(n + m, from, to)
    ensures k == BatchLength(n + m, from, to)
    ensures pos - m * to == Position(n + m, from, to, k)
  {
    BatchLengthMeaning(n + m, from, to, k);
    assert (n + m - 1) * to == (n - 1) * to + m * to;
  }

  /** However the input is cut into packets, empty ones included, the outputs join to the batch conversion. */
  method ResampleAll(packets: seq<seq<i16>>, fromRate: nat, toRate: nat) returns (out: seq<i16>)
    requires fromRate > 0 && toRate > 0
    ensures out == Batch(Flat(packets), fromRate, toRate)
  {
    hide Batch;
    var r := new PcmResampler(fromRate, toRate);
    out := [];
    NoSamples(fromRate, toRate);
    for i := 0 to |packets|
      invariant r.Valid() && r.from == fromRate && r.to == toRate && fresh(r)
      invariant r.seen == Flat(packets[..i]) && out == Batch(r.seen, fromRate, toRate)
    {
      var more := r.Resample(packets[i]);
      out := out + more;
      assert packets[..i + 1] == packets[..i] + [packets[i]];
      FlatAppend(packets[..i], [packets[i]]);
      FlatOne(packets[i]);
    }
    assert packets[..|packets|] == packets;
  }

  lemma NoSamples(from: nat, to: nat)
    requires from > 0 && to > 0
    ensures Batch([], from, to) == []
  {
  }
}
