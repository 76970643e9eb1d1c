/**
 The IMA ADPCM codec (pkg/codec/adpcm.go, the DVI4 layout of section 4.5.1 of RFC 3551): an encoder and a
 decoder that each predict the next sample from what was coded so far.
 */
module Adpcm {
  import opened Bytes

  type nibble = x: int | 0 <= x < 16
  type stepindex = x: int | 0 <= x <= 88

  const INDEX_TABLE: seq<int> := [-1, -1, -1, -1, 2, 4, 6, 8, -1, -1, -1, -1, 2, 4, 6, 8]

  /** The step table, ten steps to a row. */
  function StepRow(r: nat): (row: seq<int>)
    ensures |row| == if r < 8 then 10 else 9
    ensures (forall j :: 0 <= j < |row| ==> 7 <= row[j] <= 32767) && (r >= 8 ==> row[8] == 32767)
  {
    if r == 0 then [7, 8, 9, 10, 11, 12, 13, 14, 16, 17]
    else if r == 1 then [19, 21, 23, 25, 28, 31, 34, 37, 41, 45]
    else if r == 2 then [50, 55, 60, 66, 73, 80, 88, 97, 107, 118]
    else if r == 3 then [130, 143, 157, 173, 190, 209, 230, 253, 279, 307]
    else if r == 4 then [337, 371, 408, 449, 494, 544, 598, 658, 724, 796]
    else if r == 5 then [876, 963, 1060, 1166, 1282, 1411, 1552, 1707, 1878, 2066]
    else if r == 6 then [2272, 2499, 2749, 3024, 3327, 3660, 4026, 4428, 4871, 5358]
    else if r == 7 then [5894, 6484, 7132, 7845, 8630, 9493, 10442, 11487, 12635, 13899]
    else [15289, 16818, 18500, 20350, 22385, 24623, 27086, 29794, 32767]
  }

  function StepSize(index: stepindex): (step: int)
    ensures 7 <= step <= 32767 && (index == 88 ==> step == 32767)
  {
    StepRow(index / 10)[index % 10]
  }

  function Clamp16(x: int): i16 { Max(-32768, Min(x, 32767)) }

  function MoveIndex(index: stepindex, n: nibble): stepindex { Max(0, Min(index + INDEX_TABLE[n], 88)) }

  /** The fields of ADPCMEncoder and of ADPCMDecoder. */
  datatype State = State(predicted: i16, index: stepindex)

  // ---- one sample, on either side

  /** The jump the decoder reads from a nibble: an eighth of the step, plus the parts its bits select. */
  function Jump(step: nat, n: nibble): nat
  {
    step / 8
    + (if n % 2 == 1 then step / 4 else 0)
    + (if n / 2 % 2 == 1 then step / 2 else 0)
    + (if n / 4 % 2 == 1 then step else 0)
  }

  function DecodeNibble(s: State, n: nibble): State
  {
    var jump := Jump(StepSize(s.index), n);
    State(Clamp16(if n >= 8 then s.predicted - jump else s.predicted + jump), MoveIndex(s.index, n))
  }

  /** The three magnitude bits the encoder chooses for a distance, and the jump it adds up meanwhile. */
  function Quantize(step: nat, distance: nat): (int, nat)
  {
    var (n4, d4, j4) := if distance >= step then (4, distance - step, step / 8 + step) else (0, distance, step / 8);
    var (n2, d2, j2) := if d4 >= step / 2 then (n4 + 2, d4 - step / 2, j4 + step / 2) else (n4, d4, j4);
    if d2 >= step / 4 then (n2 + 1, j2 + step / 4) else (n2, j2)
  }

  function EncodeSample(s: State, sample: i16): (nibble, State)
  {
    var down := sample < s.predicted;
    var (bits, jump) := Quantize(StepSize(s.index), if down then s.predicted - sample else sample - s.predicted);
    var n: nibble := if down then 8 + bits else bits;
    (n, State(Clamp16(if down then s.predicted - jump else s.predicted + jump), MoveIndex(s.index, n)))
  }

  /** The decoder reads from the chosen bits exactly the jump the encoder made. */
  lemma QuantizedJump(step: nat, distance: nat)
    ensures var (bits, jump) := Quantize(step, distance);
      0 <= bits < 8 && jump == Jump(step, bits) == Jump(step, 8 + bits)
  {
  }

  /** After any sample, encoder and decoder are in the same state. */
  lemma SampleLockstep(s: State, sample: i16)
    ensures var (n, s') := EncodeSample(s, sample); DecodeNibble(s, n) == s'
  {
    hide StepSize, Quantize, Jump, MoveIndex, Clamp16;
    var down := sample < s.predicted;
    QuantizedJump(StepSize(s.index), if down then s.predicted - sample else sample - s.predicted);
  }

  /**
   What a nibble n says, with m = n % 8 for its magnitude: the jump is (2 m + 1) / 8 of the step but for
   rounding, downwards from 8 on, and the index moves by -1 for the magnitudes below 4, else by 2, 4, 6 or 8.
   */
  lemma NibbleMeaning(s: State, n: nibble)
    ensures var (step, m, s') := (StepSize(s.index), n % 8, DecodeNibble(s, n));
      && s'.index == Max(0, Min(s.index + if m < 4 then -1 else 2 * (m - 3), 88))
      && exists jump ::
        && (2 * m + 1) * step - 32 < 8 * jump <= (2 * m + 1) * step
        && s'.predicted == Max(-32768, Min(s.predicted + if n < 8 then jump else -jump, 32767))
  {
    hide StepSize, Jump, MoveIndex;
    var jump := Jump(StepSize(s.index), n);
    JumpOfMagnitude(StepSize(s.index), n);
    IndexMoves(s.index, n);
    assert (2 * (n % 8) + 1) * StepSize(s.index) - 32 < 8 * jump;
  }

  lemma JumpOfMagnitude(step: nat, n: nibble)
    ensures (2 * (n % 8) + 1) * step - 32 < 8 * Jump(step, n) <= (2 * (n % 8) + 1) * step
  {
    RoundedDown(step, 8);
    RoundedDown(step, 4);
    RoundedDown(step, 2);
    BitsOfMagnitude(n);
    SumOfParts(step, step / 8, step / 4, step / 2, n % 2, n / 2 % 2, n / 4 % 2, n % 8);
  }

  lemma RoundedDown(step: nat, d: nat)
    requires d > 0
    ensures step - d < d * (step / d) <= step
  {
  }

  lemma BitsOfMagnitude(n: nibble)
    ensures n % 8 == n % 2 + 2 * (n / 2 % 2) + 4 * (n / 4 % 2)
  {
  }

  lemma SumOfParts(step: nat, eighth: nat, quarter: nat, half: nat, a: nat, b: nat, c: nat, m: nat)
    requires a < 2 && b < 2 && c < 2 && m == a + 2 * b + 4 * c
    requires step - 8 < 8 * eighth <= step && step - 4 < 4 * quarter <= step && step - 2 < 2 * half <= step
    ensures var jump := eighth + (if a == 1 then quarter else 0) + (if b == 1 then half else 0) +
          if c == 1 then step else 0;
      (2 * m + 1) * step - 32 < 8 * jump <= (2 * m + 1) * step
  {
    match m
    case 0 =>
    case 1 =>
    case 2 =>
    case 3 =>
    case 4 =>
    case 5 =>
    case 6 =>
    case _ =>
  }

  lemma IndexMoves(index: stepindex, n: nibble)
    ensures MoveIndex(index, n) == Max(0, Min(index + if n % 8 < 4 then -1 else 2 * (n % 8 - 3), 88))
  {
  }

  /** The whole, half and quarter steps a magnitude stands for. */
  function Parts(step: nat, m: nat): nat
  {
    (if m / 4 % 2 == 1 then step else 0) + (if m / 2 % 2 == 1 then step / 2 else 0) +
    if m % 2 == 1 then step / 4 else 0
  }

  /**
   The encoder takes the direction for the sign and the largest magnitude whose parts fit the distance, and
   moves its state by its own nibble.
   */
  lemma EncoderFollowsItsNibble(s: State, sample: i16)
    ensures var (n, s') := EncodeSample(s, sample);
      var (step, distance) := (StepSize(s.index), Distance(sample, s.predicted));
      && (n >= 8 <==> sample < s.predicted)
      && Parts(step, n % 8) <= distance && (n % 8 < 7 ==> distance < Parts(step, n % 8 + 1))
      && s'.index == Max(0, Min(s.index + if n % 8 < 4 then -1 else 2 * (n % 8 - 3), 88))
      && s' == DecodeNibble(s, n)
  {
    hide DecodeNibble, MoveIndex, StepSize, Quantize, Parts, EncodeSample, Distance;
    SampleLockstep(s, sample);
    EncoderSign(s, sample);
    IndexMoves(s.index, EncodeSample(s, sample).0);
    LargestThatFits(StepSize(s.index), Distance(sample, s.predicted));
  }

  lemma EncoderSign(s: State, sample: i16)
    ensures var (n, s') := EncodeSample(s, sample);
      && (n >= 8 <==> sample < s.predicted) && s'.index == MoveIndex(s.index, n)
      && n % 8 == Quantize(StepSize(s.index), Distance(sample, s.predicted)).0
  {
    hide StepSize, Quantize, MoveIndex, Clamp16;
    QuantizedJump(StepSize(s.index), Distance(sample, s.predicted));
  }

  lemma LargestThatFits(step: nat, distance: nat)
    requires step >= 7
    ensures var m := Quantize(step, distance).0;
      Parts(step, m) <= distance && (m < 7 ==> distance < Parts(step, m + 1))
  {
  }

  /** Larger by a tenth, but for rounding. */
  predicate TenthLarger(a: int, b: int) { a < b && -8 <= 10 * b - 11 * a <= 8 }

  lemma LowRowsGrow(r: nat, j: nat)
    requires r < 4 && j < 9
    ensures TenthLarger(StepRow(r)[j], StepRow(r)[j + 1])
  {
  }

  lemma HighRowsGrow(r: nat, j: nat)
    requires 4 <= r <= 8 && j + 1 < |StepRow(r)| && (r < 8 || j < 7)
    ensures TenthLarger(StepRow(r)[j], StepRow(r)[j + 1])
  {
  }

  lemma NextRowGrows(r: nat)
    requires r < 8
    ensures TenthLarger(StepRow(r)[9], StepRow(r + 1)[0])
  {
  }

  /** The steps: from 7 to 32767, each a tenth larger than the one before it, the last one a little less. */
  lemma StepsGrow(i: stepindex)
    requires i < 88
    ensures StepSize(0) == 7 && StepSize(88) == 32767 && StepSize(i) < StepSize(i + 1)
    ensures i < 87 ==> TenthLarger(StepSize(i), StepSize(i + 1))
  {
    hide TenthLarger;
    if i < 87 {
      TenthIsLarger(StepSize(i), StepSize(i + 1));
      RowsGrow(i);
    }
  }

  lemma TenthIsLarger(a: int, b: int)
    ensures TenthLarger(a, b) ==> a < b
  {
  }

  lemma RowsGrow(i: stepindex)
    requires i < 87
    ensures TenthLarger(StepSize(i), StepSize(i + 1))
  {
    hide StepRow, TenthLarger;
    if i % 10 == 9 {
      assert (i + 1) / 10 == i / 10 + 1 && (i + 1) % 10 == 0;
      NextRowGrows(i / 10);
    } else {
      assert (i + 1) / 10 == i / 10 && (i + 1) % 10 == i % 10 + 1;
      if i < 40 {
        LowRowsGrow(i / 10, i % 10);
      } else {
        HighRowsGrow(i / 10, i % 10);
      }
    }
  }

  /** Steps in between. */
  lemma KnownSteps()
    ensures StepSize(4) == 11 && StepSize(8) == 16 && StepSize(12) == 23 && StepSize(16) == 34
    ensures StepSize(20) == 50 && StepSize(24) == 73 && StepSize(28) == 107 && StepSize(32) == 157
    ensures StepSize(36) == 230 && StepSize(40) == 337 && StepSize(44) == 494 && StepSize(48) == 724
    ensures StepSize(52) == 1060 && StepSize(56) == 1552 && StepSize(60) == 2272 && StepSize(64) == 3327
    ensures StepSize(68) == 4871 && StepSize(72) == 7132 && StepSize(76) == 10442 && StepSize(80) == 15289
    ensures StepSize(84) == 22385 && StepSize(87) == 29794
  {
  }

  function Distance(a: int, b: int): nat { if a < b then b - a else a - b }

  lemma QuantizerError(step: nat, distance: nat)
    requires distance < 2 * step
    ensures Distance(distance, Quantize(step, distance).1) <= step / 8 + 2
  {
  }

  lemma QuantizerOverload(step: nat, distance: nat)
    requires distance >= 2 * step
    ensures Quantize(step, distance).0 == 7
    ensures Quantize(step, distance).1 <= distance
  {
  }

  lemma ClampCloser(x: int, target: i16)
    ensures Distance(Clamp16(x), target) <= Distance(x, target)
  {
  }

  /** A sample closer than twice the current step is reconstructed within an eighth of the step, plus 2. */
  lemma SmallJumpIsTracked(s: State, sample: i16)
    requires Distance(sample, s.predicted) < 2 * StepSize(s.index)
    ensures Distance(sample, EncodeSample(s, sample).1.predicted) <= StepSize(s.index) / 8 + 2
  {
    hide StepSize, Quantize, MoveIndex, Clamp16;
    var down, step := sample < s.predicted, StepSize(s.index);
    var distance: nat := if down then s.predicted - sample else sample - s.predicted;
    QuantizerError(step, distance);
    QuantizedJump(step, distance);
    var jump := Quantize(step, distance).1;
    ClampCloser(if down then s.predicted - jump else s.predicted + jump, sample);
  }

  /** A larger jump is coded with all bits set and raises the index by 8 until it tops out. */
  lemma LargeJumpRaisesIndex(s: State, sample: i16)
    requires Distance(sample, s.predicted) >= 2 * StepSize(s.index)
    ensures EncodeSample(s, sample).0 == (if sample < s.predicted then 15 else 7)
    ensures EncodeSample(s, sample).1.index == Min(s.index + 8, 88)
  {
    hide StepSize, Quantize, Clamp16;
    var down, step := sample < s.predicted, StepSize(s.index);
    QuantizerOverload(step, if down then s.predicted - sample else sample - s.predicted);
    assert INDEX_TABLE[7] == 8 && INDEX_TABLE[15] == 8;
  }

  /** At the top of the table every sample is reconstructed within 4099, whatever the jump. */
  lemma TopStepReachesAnything(s: State, sample: i16)
    requires s.index == 88
    ensures Distance(sample, EncodeSample(s, sample).1.predicted) <= 4099
  {
    hide StepSize, Quantize, MoveIndex;
    var down, step := sample < s.predicted, StepSize(s.index);
    var distance: nat := if down then s.predicted - sample else sample - s.predicted;
    if distance < 2 * step {
      SmallJumpIsTracked(s, sample);
    } else {
      QuantizerOverload(step, distance);
      QuantizedJump(step, distance);
      assert Jump(step, 7) == 61436;
    }
  }

  // ---- runs of samples

  datatype Coded = Coded(nibbles: seq<nibble>, track: seq<i16>, end: State)

  /** The nibbles for a run of samples, the encoder's own reconstruction, and its state afterwards. */
  function Encode(s: State, pcm: seq<i16>): (c: Coded)
    ensures |c.nibbles| == |c.track| == |pcm|
  {
    if pcm == [] then Coded([], [], s)
    else
      var c := Encode(s, pcm[..|pcm| - 1]);
      var (n, s') := EncodeSample(c.end, pcm[|pcm| - 1]);
      Coded(c.nibbles + [n], c.track + [s'.predicted], s')
  }

  datatype Decoded = Decoded(samples: seq<i16>, end: State)

  function Decode(s: State, nibbles: seq<nibble>): (d: Decoded)
    ensures |d.samples| == |nibbles|
  {
    if nibbles == [] then Decoded([], s)
    else
      var d := Decode(s, nibbles[..|nibbles| - 1]);
      var s' := DecodeNibble(d.end, nibbles[|nibbles| - 1]);
      Decoded(d.samples + [s'.predicted], s')
  }

  /** Over any run of samples the decoder reproduces the encoder's reconstruction and its state. */
  lemma {:induction false} RunLockstep(s: State, pcm: seq<i16>)
    ensures var c := Encode(s, pcm); Decode(s, c.nibbles) == Decoded(c.track, c.end)
  {
    hide EncodeSample, DecodeNibble;
    if pcm != [] {
      var front, last := pcm[..|pcm| - 1], pcm[|pcm| - 1];
      RunLockstep(s, front);
      var c, whole := Encode(s, front), Encode(s, pcm);
      SampleLockstep(c.end, last);
      assert whole.nibbles[..|pcm| - 1] == c.nibbles;
    }
  }

  lemma {:induction false} EncodeAppend(s: State, a: seq<i16>, b: seq<i16>)
    ensures var c := Encode(s, a);
      var d := Encode(c.end, b);
      Encode(s, a + b) == Coded(c.nibbles + d.nibbles, c.track + d.track, d.end)
    decreases |b|
  {
    hide EncodeSample;
    if b == [] {
      assert a + b == a;
    } else {
      var front := b[..|b| - 1];
      assert (a + b)[..|a + b| - 1] == a + front;
      EncodeAppend(s, a, front);
    }
  }

  predicate Overloads(s: State, pcm: seq<i16>)
    decreases |pcm|
  {
    pcm == [] ||
    (Distance(pcm[0], s.predicted) >= 2 * StepSize(s.index) && Overloads(EncodeSample(s, pcm[0]).1, pcm[1..]))
  }

  lemma FirstSample(s: State, pcm: seq<i16>)
    requires pcm != []
    ensures Encode(s, pcm).end == Encode(EncodeSample(s, pcm[0]).1, pcm[1..]).end
  {
    hide EncodeSample;
    assert pcm == pcm[..1] + pcm[1..];
    EncodeAppend(s, pcm[..1], pcm[1..]);
    assert pcm[..1][..0] == [];
    assert Encode(s, pcm[..1]).end == EncodeSample(s, pcm[0]).1;
  }

  /** A run of n too large jumps in a row leaves the index at 8 n or more, or at the top. */
  lemma {:induction false} AttackRaisesIndex(s: State, pcm: seq<i16>)
    requires Overloads(s, pcm)
    ensures Encode(s, pcm).end.index >= Min(s.index + 8 * |pcm|, 88)
    decreases |pcm|
  {
    hide EncodeSample, StepSize, Encode;
    if pcm == [] {
      EncodeNothing(s);
    } else {
      LargeJumpRaisesIndex(s, pcm[0]);
      AttackRaisesIndex(EncodeSample(s, pcm[0]).1, pcm[1..]);
      FirstSample(s, pcm);
    }
  }

  lemma EncodeNothing(s: State)
    ensures Encode(s, []) == Coded([], [], s)
  {
  }

  /** So the codec catches up with any input: after eleven overloaded samples the next is within 4099. */
  lemma AttackIsBounded(s: State, pcm: seq<i16>, sample: i16)
    requires Overloads(s, pcm) && |pcm| >= 11
    ensures Distance(sample, EncodeSample(Encode(s, pcm).end, sample).1.predicted) <= 4099
  {
    hide EncodeSample, Encode, Overloads;
    AttackRaisesIndex(s, pcm);
    TopStepReachesAnything(Encode(s, pcm).end, sample);
  }

  // ---- blocks

  /** (first << 4) | second */
  function Pair(first: nibble, second: nibble): (b: byte)
    ensures b / 16 == first && b % 16 == second
  {
    (first as int) * 16 + second
  }

  function Pack(nibbles: seq<nibble>): (bytes: seq<byte>)
    requires |nibbles| % 2 == 0
    ensures |bytes| == |nibbles| / 2
  {
    seq(|nibbles| / 2, k requires 0 <= k < |nibbles| / 2 => Pair(nibbles[2 * k], nibbles[2 * k + 1]))
  }

  /** The first sample is in the high half of a byte. */
  function Unpack(bytes: seq<byte>): (nibbles: seq<nibble>)
    ensures |nibbles| == 2 * |bytes|
  {
    seq(2 * |bytes|, k requires 0 <= k < 2 * |bytes| => if k % 2 == 0 then bytes[k / 2] / 16 else bytes[k / 2] % 16)
  }

  lemma UnpackPack(nibbles: seq<nibble>)
    requires |nibbles| % 2 == 0
    ensures Unpack(Pack(nibbles)) == nibbles
  {
    var bytes := Pack(nibbles);
    forall k | 0 <= k < |nibbles|
      ensures Unpack(bytes)[k] == nibbles[k]
    {
      var j := k / 2;
      assert bytes[j] == Pair(nibbles[2 * j], nibbles[2 * j + 1]);
    }
  }

  function Header(s: State): (h: seq<byte>)
    ensures |h| == 4
  {
    Le16(OfI16(s.predicted)) + [s.index, 0]
  }

  function EncodeBlock(s: State, pcm: seq<i16>): (block: seq<byte>)
    requires |pcm| % 2 == 0
    ensures |block| == 4 + |pcm| / 2
  {
    Header(s) + Pack(Encode(s, pcm).nibbles)
  }

  /** The state a block header sets; an index above the table is taken as its end. */
  function HeaderState(data: seq<byte>): State
    requires |data| >= 4
  {
    State(ToI16(GetU16(data, 0)), Min(Max(data[2], 0), 88))
  }

  function DecodeBlock(s: State, data: seq<byte>): Decoded
  {
    if |data| < 4 then Decoded([], s) else Decode(HeaderState(data), Unpack(data[4..]))
  }

  lemma HeaderRoundTrip(s: State, rest: seq<byte>)
    ensures HeaderState(Header(s) + rest) == s && Header(s)[2] == s.index && Header(s)[3] == 0
  {
    hide Le16, GetU16, OfI16, ToI16;
    var data := Header(s) + rest;
    assert data[0..0 + 2] == Le16(OfI16(s.predicted));
    ReadBackU16(data, 0, OfI16(s.predicted));
    assert data[2] == s.index;
  }

  /** Whatever state the decoder was in, an encoded block brings it in step with the encoder. */
  lemma BlockLockstep(s: State, pcm: seq<i16>, before: State)
    requires |pcm| % 2 == 0
    ensures DecodeBlock(before, EncodeBlock(s, pcm)) == Decoded(Encode(s, pcm).track, Encode(s, pcm).end)
  {
    hide Header, HeaderState, Pack, Unpack, Encode, Decode;
    var packed := Pack(Encode(s, pcm).nibbles);
    HeaderRoundTrip(s, packed);
    assert EncodeBlock(s, pcm)[4..] == packed;
    UnpackPack(Encode(s, pcm).nibbles);
    RunLockstep(s, pcm);
  }

  /** The blocks an encoder makes of a list of runs, one after the other. */
  function EncodeBlocks(s: State, runs: seq<seq<i16>>): (blocks: seq<seq<byte>>)
    requires forall run :: run in runs ==> |run| % 2 == 0
    ensures |blocks| == |runs|
    decreases |runs|
  {
    if runs == [] then []
    else [EncodeBlock(s, runs[0])] + EncodeBlocks(Encode(s, runs[0]).end, runs[1..])
  }

  /** What a decoder makes of a list of blocks, one after the other. */
  function DecodeBlocks(s: State, blocks: seq<seq<byte>>): Decoded
    decreases |blocks|
  {
    if blocks == [] then Decoded([], s)
    else
      var d := DecodeBlock(s, blocks[0]);
      var rest := DecodeBlocks(d.end, blocks[1..]);
      Decoded(d.samples + rest.samples, rest.end)
  }

  /**
   Over any sequence of blocks, decoding from any state gives the encoder's reconstruction of the whole
   unbroken sample stream and ends in the encoder's state: cutting into blocks is not audible.
   */
  lemma {:induction false} Lockstep(s: State, runs: seq<seq<i16>>, before: State)
    requires forall run :: run in runs ==> |run| % 2 == 0
    ensures DecodeBlocks(before, EncodeBlocks(s, runs)) ==
      Decoded(Encode(s, Flat(runs)).track, if runs == [] then before else Encode(s, Flat(runs)).end)
    decreases |runs|
  {
    hide DecodeBlock, EncodeBlock, Encode;
    if runs == [] {
      EncodeNothing(s);
    } else {
      var run, rest := runs[0], runs[1..];
      var end := Encode(s, run).end;
      BlockLockstep(s, run, before);
      Lockstep(end, rest, end);
      EncodeAppend(s, run, Flat(rest));
      EncodeNothing(end);
      assert EncodeBlocks(s, runs)[1..] == EncodeBlocks(end, rest);
    }
  }

  // ---- the objects

  /** The end of both per-sample steps: the prediction is clamped to 16 bits, the index to the table. */
  method Settle(next: int, index: stepindex, n: nibble) returns (predicted: i16, moved: stepindex)
    ensures predicted == Clamp16(next) && moved == MoveIndex(index, n)
  {
    var p, m := next, index + INDEX_TABLE[n];
    if p > 32767 {
      p := 32767;
    }
    if p < -32768 {
      p := -32768;
    }
    if m < 0 {
      m := 0;
    }
    if m > 88 {
      m := 88;
    }
    predicted, moved := p, m;
  }

  class Encoder {
    var predicted: i16
    var index: stepindex

    ghost function Now(): State
      reads this
    {
      State(predicted, index)
    }

    constructor ()
      ensures Now() == State(0, 0)
    {
      predicted, index := 0, 0;
    }

    method EncodeNibble(sample: i16) returns (n: nibble)
      modifies this
      ensures (n, Now()) == EncodeSample(old(Now()), sample)
    {
      hide StepSize, Clamp16, MoveIndex;
      var step := StepSize(index);
      var diff: int := sample - predicted;
      var bits, sign: int := 0, 0;
      if diff < 0 {
        sign := 8;
        diff := -diff;
      }
      var delta := step / 8;
      if diff >= step {
        bits := bits + 4;
        diff := diff - step;
        delta := delta + step;
      }
      if diff >= step / 2 {
        bits := bits + 2;
        diff := diff - step / 2;
        delta := delta + step / 2;
      }
      if diff >= step / 4 {
        bits := bits + 1;
        delta := delta + step / 4;
      }
      n := sign + bits;
      var next: int := if n >= 8 then predicted - delta else predicted + delta;
      predicted, index := Settle(next, index, n);
    }

    /** EncodeBlock: nothing for no samples, an error for an odd number of them. */
    method EncodePcm(pcm: seq<i16>) returns (ok: bool, block: array<byte>)
      modifies this
      ensures ok <==> |pcm| % 2 == 0
      ensures fresh(block)
      ensures !ok || pcm == [] ==> Now() == old(Now()) && block.Length == 0
      ensures ok && pcm != [] ==> block[..] == EncodeBlock(old(Now()), pcm) && Now() == Encode(old(Now()), pcm).end
    {
      hide Encode, EncodeSample, Header, Pack;
      if |pcm| == 0 {
        block := new byte[0];
        return true, block;
      }
      if |pcm| < 2 || |pcm| % 2 != 0 {
        block := new byte[0];
        return false, block;
      }
      block := new byte[4 + |pcm| / 2](_ => 0);
      PutHeader(block);
      EncodeSamples(pcm, block);
      assert block[..] == block[..4] + block[4..];
      return true, block;
    }

    method PutHeader(block: array<byte>)
      requires block.Length >= 4
      modifies block
      ensures block[..4] == Header(Now())
    {
      hide OfI16, Le16;
      PutU16(block, 0, OfI16(predicted));
      block[2] := index;
      block[3] := 0;
      assert block[..4] == block[0..2] + [block[2], block[3]];
    }

    /** The loop of EncodeBlock: two samples to a byte. */
    method EncodeSamples(pcm: seq<i16>, block: array<byte>)
      requires |pcm| % 2 == 0 && block.Length == 4 + |pcm| / 2
      modifies this, block
      ensures block[..4] == old(block[..4]) && block[4..] == Pack(Encode(old(Now()), pcm).nibbles)
      ensures Now() == Encode(old(Now()), pcm).end
    {
      hide Encode, EncodeSample, Pack, Pair;
      ghost var s := Now();
      var writePos, i := 4, 0;
      EncodeNothing(s);
      PackNothing();
      while i < |pcm|
        invariant 0 <= i <= |pcm| && i % 2 == 0 && writePos == 4 + i / 2
        invariant block[..4] == old(block[..4])
        invariant Now() == Encode(s, pcm[..i]).end
        invariant block[4..writePos] == Pack(Encode(s, pcm[..i]).nibbles)
      {
        var first := EncodeNibble(pcm[i]);
        ghost var mid := Now();
        var second := EncodeNibble(pcm[i + 1]);
        EncodeTwoMore(s, pcm, i, first, mid, second, Now());
        PackPair(Encode(s, pcm[..i]).nibbles, first, second);
        block[writePos] := Pair(first, second);
        assert block[4..writePos + 1] == block[4..writePos] + [Pair(first, second)];
        writePos := writePos + 1;
        i := i + 2;
      }
      assert pcm[..i] == pcm && block[4..] == block[4..writePos];
    }
  }

  lemma PackNothing()
    ensures Pack([]) == []
  {
  }

  lemma EncodeTwoMore(s: State, pcm: seq<i16>, i: nat, first: nibble, mid: State, second: nibble, end: State)
    requires i + 1 < |pcm|
    requires (first, mid) == EncodeSample(Encode(s, pcm[..i]).end, pcm[i])
    requires (second, end) == EncodeSample(mid, pcm[i + 1])
    ensures Encode(s, pcm[..i + 2]).end == end
    ensures Encode(s, pcm[..i + 2]).nibbles == Encode(s, pcm[..i]).nibbles + [first, second]
  {
    hide EncodeSample, Encode;
    EncodeOneMore(s, pcm, i);
    EncodeOneMore(s, pcm, i + 1);
    var nibbles := Encode(s, pcm[..i]).nibbles;
    assert nibbles + [first] + [second] == nibbles + [first, second];
  }

  lemma EncodeOneMore(s: State, pcm: seq<i16>, i: nat)
    requires i < |pcm|
    ensures var c := Encode(s, pcm[..i]);
      var (n, s') := EncodeSample(c.end, pcm[i]);
      Encode(s, pcm[..i + 1]) == Coded(c.nibbles + [n], c.track + [s'.predicted], s')
  {
    hide EncodeSample;
    assert pcm[..i + 1][..i] == pcm[..i];
  }

  lemma DecodeOneMore(s: State, nibbles: seq<nibble>, i: nat)
    requires i < |nibbles|
    ensures var d := Decode(s, nibbles[..i]);
      var s' := DecodeNibble(d.end, nibbles[i]);
      Decode(s, nibbles[..i + 1]) == Decoded(d.samples + [s'.predicted], s')
  {
    hide DecodeNibble;
    assert nibbles[..i + 1][..i] == nibbles[..i];
  }

  lemma PackPair(nibbles: seq<nibble>, first: nibble, second: nibble)
    requires |nibbles| % 2 == 0
    ensures Pack(nibbles + [first, second]) == Pack(nibbles) + [Pair(first, second)]
  {
  }

  class Decoder {
    var predicted: i16
    var index: stepindex

    ghost function Now(): State
      reads this
    {
      State(predicted, index)
    }

    constructor ()
      ensures Now() == State(0, 0)
    {
      predicted, index := 0, 0;
    }

    method OneNibble(n: nibble)
      modifies this
      ensures Now() == DecodeNibble(old(Now()), n)
    {
      hide StepSize, Clamp16, MoveIndex;
      var step := StepSize(index);
      var diff := step / 8;
      if n % 2 != 0 {
        diff := diff + step / 4;
      }
      if n / 2 % 2 != 0 {
        diff := diff + step / 2;
      }
      if n / 4 % 2 != 0 {
        diff := diff + step;
      }
      var next: int := if n / 8 % 2 != 0 then predicted - diff else predicted + diff;
      predicted, index := Settle(next, index, n);
    }

    method DecodeData(data: seq<byte>) returns (out: array<i16>)
      modifies this
      ensures fresh(out) && Decoded(out[..], Now()) == DecodeBlock(old(Now()), data)
    {
      hide Decode, Unpack, ToI16, GetU16;
      if |data| < 4 {
        out := new i16[0];
        return;
      }
      predicted := ToI16(GetU16(data, 0));
      index := Min(Max(data[2], 0), 88);
      out := DecodePayload(data[4..]);
    }

    /** The loop of Decode: two samples from a byte. */
    method DecodePayload(payload: seq<byte>) returns (out: array<i16>)
      modifies this
      ensures fresh(out) && Decoded(out[..], Now()) == Decode(old(Now()), Unpack(payload))
    {
      hide Decode, DecodeNibble;
      ghost var s, nibbles := Now(), Unpack(payload);
      out := new i16[|payload| * 2](_ => 0);
      DecodeNothing(s);
      for i := 0 to |payload|
        invariant Decoded(out[..2 * i], Now()) == Decode(s, nibbles[..2 * i])
      {
        assert nibbles[2 * i] == payload[i] / 16 && nibbles[2 * i + 1] == payload[i] % 16;
        OneNibble(payload[i] / 16);
        DecodeOneMore(s, nibbles, 2 * i);
        out[2 * i] := predicted;
        assert out[..2 * i + 1] == out[..2 * i] + [predicted];
        OneNibble(payload[i] % 16);
        DecodeOneMore(s, nibbles, 2 * i + 1);
        out[2 * i + 1] := predicted;
        assert out[..2 * i + 2] == out[..2 * i + 1] + [predicted];
      }
      assert nibbles[..2 * |payload|] == nibbles;
      assert out[..2 * |payload|] == out[..];
    }
  }

  lemma DecodeNothing(s: State)
    ensures Decode(s, []) == Decoded([], s)
  {
  }
}
