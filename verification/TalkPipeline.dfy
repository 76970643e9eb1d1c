/**
 The talk path from decoded packets to the camera (runBridgeInternal in pkg/bridge/talk_pipeline.go and
 TalkSession in pkg/baichuan/talk.go): resample, cut into blocks, encode, serialize, write.
 */
module TalkPipeline {
  import opened Bytes
  import opened Adpcm
  import Resampler
  import BcMedia

  // ---- the session that writes blocks

  /** When the camera has played what was sent: a block starts when it arrives or when the one before ends. */
  function PlayoutEnd(end: int, arrivals: seq<int>, duration: nat): int
  {
    if arrivals == [] then end
    else Max(PlayoutEnd(end, arrivals[..|arrivals| - 1], duration), arrivals[|arrivals| - 1]) + duration
  }

  /**
   The end of playout is the latest of what each arrival forces: the block that arrived at a time, and all
   blocks after it, are still to be played from then on.
   */
  lemma {:induction false} PlayoutIsTheBacklog(end: int, arrivals: seq<int>, duration: nat)
    ensures var e, n := PlayoutEnd(end, arrivals, duration), |arrivals|;
      && e >= end + n * duration
      && (forall i :: 0 <= i < n ==> e >= arrivals[i] + (n - i) * duration)
      && (e == end + n * duration || exists i :: 0 <= i < n && e == arrivals[i] + (n - i) * duration)
  {
    if arrivals != [] {
      var n, front := |arrivals|, arrivals[..|arrivals| - 1];
      PlayoutIsTheBacklog(end, front, duration);
      var e0, e := PlayoutEnd(end, front, duration), PlayoutEnd(end, arrivals, duration);
      Resampler.Successor(n - 1, duration);
      forall i | 0 <= i < n
        ensures e >= arrivals[i] + (n - i) * duration
      {
        Resampler.Successor(n - i - 1, duration);
        if i < n - 1 {
          assert front[i] == arrivals[i];
        }
      }
      if e0 >= arrivals[n - 1] && e0 != end + (n - 1) * duration {
        var i :| 0 <= i < n - 1 && e0 == front[i] + (n - 1 - i) * duration;
        Resampler.Successor(n - 1 - i, duration);
        assert e == arrivals[i] + (n - i) * duration;
      } else if e0 < arrivals[n - 1] {
        assert e == arrivals[n - 1] + (n - (n - 1)) * duration;
      }
    }
  }

  class TalkSession {
    const bytesPerBlock: nat
    const blockDuration: nat
    var closed: bool
    var seqNum: u16
    var playoutEnd: int
    // the payloads the connection took, and when, and whether it has refused one
    ghost var sent: seq<seq<byte>>
    ghost var arrivals: seq<int>
    ghost var refused: bool

    /** StartTalk: the block sizes follow from the negotiated samples per block. */
    constructor (lengthPerEncode: u16, duration: nat)
      ensures bytesPerBlock == lengthPerEncode / 2 + 4 && blockDuration == duration
      ensures !closed && seqNum == 0 && playoutEnd == 0 && sent == [] && arrivals == [] && !refused
    {
      bytesPerBlock, blockDuration := lengthPerEncode / 2 + 4, duration;
      closed, seqNum, playoutEnd := false, 0, 0;
      sent, arrivals, refused := [], [], false;
    }

    /** WriteADPCMBlock: a block of the wrong size is refused, and the connection may fail to take a right one. */
    method WriteAdpcmBlock(block: seq<byte>) returns (ok: bool)
      modifies this
      ensures closed == old(closed) && (old(refused) ==> refused)
      ensures ok ==> !closed && |block| == bytesPerBlock
      ensures ok ==> seqNum == (old(seqNum) + 1) % TWO16 && sent == old(sent) + [BcMedia.TalkUnit(block, seqNum)]
      ensures ok ==> exists now :: arrivals == old(arrivals) + [now]
      ensures ok ==> playoutEnd == Max(old(playoutEnd), arrivals[|arrivals| - 1]) + blockDuration
      ensures !ok ==> closed || |block| != bytesPerBlock || refused
      ensures closed || |block| != bytesPerBlock ==> !ok && seqNum == old(seqNum) && refused == old(refused)
      ensures !ok && !closed && |block| == bytesPerBlock ==> seqNum == (old(seqNum) + 1) % TWO16 && refused
      ensures !ok ==> sent == old(sent) && playoutEnd == old(playoutEnd) && arrivals == old(arrivals)
    {
      hide BcMedia.TalkUnit;
      if closed || |block| != bytesPerBlock {
        return false;
      }
      seqNum := (seqNum + 1) % TWO16;
      var payload := BcMedia.SerializeTalkAdpcmBlock(block, seqNum);
      var taken: bool := *;
      if !taken {
        refused := true;
        return false;
      }
      sent := sent + [payload[..]];
      var now: int := *;
      arrivals := arrivals + [now];
      if playoutEnd < now {
        playoutEnd := now;
      }
      playoutEnd := playoutEnd + blockDuration;
      return true;
    }
  }

  // ---- the pipeline

  /** The samples at the rate of the camera. */
  function Resampled(x: seq<i16>, from: nat, to: nat): seq<i16>
    requires from > 0 && to > 0
  {
    if from == to then x else Resampler.Batch(x, from, to)
  }

  /** Samples that are all zero. */
  function Silence(n: nat): (s: seq<i16>)
    ensures |s| == n
  {
    Zeros(n)
  }

  ghost predicate AllOfLength<T>(blocks: seq<seq<T>>, n: nat)
  {
    forall b :: b in blocks ==> |b| == n
  }

  /** What a connection has taken when the given blocks of samples were sent. */
  function Wire(start: State, cut: seq<seq<i16>>): seq<seq<byte>>
    requires forall b :: b in cut ==> |b| % 2 == 0
  {
    BcMedia.TalkUnits(EncodeBlocks(start, cut), 1)
  }

  lemma {:induction false} EncodeBlocksAppend(s: State, cut: seq<seq<i16>>, b: seq<i16>)
    requires |b| % 2 == 0 && forall c :: c in cut ==> |c| % 2 == 0
    ensures EncodeBlocks(s, cut + [b]) == EncodeBlocks(s, cut) + [EncodeBlock(Encode(s, Flat(cut)).end, b)]
    decreases |cut|
  {
    hide Encode, EncodeBlock;
    if cut == [] {
      EncodeNothing(s);
      assert cut + [b] == [b];
      assert [b][1..] == [];
    } else {
      var rest := cut[1..];
      assert (cut + [b])[1..] == rest + [b];
      EncodeBlocksAppend(Encode(s, cut[0]).end, rest, b);
      EncodeAppend(s, cut[0], Flat(rest));
    }
  }

  lemma {:induction false} TalkUnitsAppend(blocks: seq<seq<byte>>, b: seq<byte>, k: nat)
    ensures BcMedia.TalkUnits(blocks + [b], k) ==
      BcMedia.TalkUnits(blocks, k) + [BcMedia.TalkUnit(b, (k + |blocks|) % TWO16)]
    decreases |blocks|
  {
    hide BcMedia.TalkUnit;
    if blocks == [] {
      assert blocks + [b] == [b];
      assert [b][1..] == [];
    } else {
      assert (blocks + [b])[1..] == blocks[1..] + [b];
      TalkUnitsAppend(blocks[1..], b, k + 1);
    }
  }

  lemma EvenBlocks(cut: seq<seq<i16>>, n: nat)
    requires AllOfLength(cut, n) && n % 2 == 0
    ensures forall b :: b in cut ==> |b| % 2 == 0
  {
  }

  lemma StillOfLength(cut: seq<seq<i16>>, b: seq<i16>, n: nat)
    requires AllOfLength(cut, n) && |b| == n
    ensures AllOfLength(cut + [b], n)
  {
  }

  lemma OneMoreOnTheWire(start: State, cut: seq<seq<i16>>, b: seq<i16>)
    requires |b| % 2 == 0 && forall c :: c in cut ==> |c| % 2 == 0
    ensures Wire(start, cut + [b]) == Wire(start, cut) +
      [BcMedia.TalkUnit(EncodeBlock(Encode(start, Flat(cut)).end, b), (1 + |cut|) % TWO16)]
  {
    hide Encode, EncodeBlock, EncodeBlocks, BcMedia.TalkUnits, BcMedia.TalkUnit;
    EncodeBlocksAppend(start, cut, b);
    TalkUnitsAppend(EncodeBlocks(start, cut), EncodeBlock(Encode(start, Flat(cut)).end, b), 1);
  }

  lemma OneMoreCut(cut: seq<seq<i16>>, b: seq<i16>)
    ensures Flat(cut + [b]) == Flat(cut) + b
  {
    FlatAppend(cut, [b]);
    FlatOne(b);
  }

  /** Blocks and buffer make up the resampled input, and the silence added to it. */
  ghost predicate Balanced(cut: seq<seq<i16>>, buffer: seq<i16>, heard: seq<i16>, padding: nat,
                           n: nat, from: nat, to: nat)
    requires from > 0 && to > 0
  {
    AllOfLength(cut, n) && Flat(cut) + buffer == Resampled(heard, from, to) + Silence(padding)
  }

  lemma BalancedInput(cut: seq<seq<i16>>, buffer: seq<i16>, heard: seq<i16>, pcm: seq<i16>, samples: seq<i16>,
                      n: nat, from: nat, to: nat)
    requires from > 0 && to > 0 && Balanced(cut, buffer, heard, 0, n, from, to)
    requires from == to ==> samples == pcm
    requires from != to ==> Resampler.Batch(heard + pcm, from, to) == Resampler.Batch(heard, from, to) + samples
    ensures Balanced(cut, buffer + samples, heard + pcm, 0, n, from, to)
  {
    hide Silence, Flat, Resampler.Batch;
    NoSilence();
    assert Resampled(heard + pcm, from, to) == Resampled(heard, from, to) + samples;
    assert Flat(cut) + (buffer + samples) == Flat(cut) + buffer + samples;
  }

  lemma BalancedPadding(cut: seq<seq<i16>>, buffer: seq<i16>, heard: seq<i16>, padding: nat, n: nat, from: nat, to: nat)
    requires from > 0 && to > 0 && Balanced(cut, buffer, heard, 0, n, from, to)
    ensures Balanced(cut, buffer + Silence(padding), heard, padding, n, from, to)
  {
    hide Silence, Flat, Resampled;
    NoSilence();
    assert Flat(cut) + (buffer + Silence(padding)) == Flat(cut) + buffer + Silence(padding);
  }

  lemma BalancedCut(cut: seq<seq<i16>>, buffer: seq<i16>, heard: seq<i16>, padding: nat, n: nat, from: nat, to: nat)
    requires from > 0 && to > 0 && Balanced(cut, buffer, heard, padding, n, from, to) && n <= |buffer|
    ensures Balanced(cut + [buffer[..n]], buffer[n..], heard, padding, n, from, to)
  {
    hide Silence, Flat, Resampled, AllOfLength;
    StillOfLength(cut, buffer[..n], n);
    OneMoreCut(cut, buffer[..n]);
    assert buffer[..n] + buffer[n..] == buffer;
    assert Flat(cut) + buffer[..n] + buffer[n..] == Flat(cut) + (buffer[..n] + buffer[n..]);
  }

  class Pipeline {
    const encoder: Encoder
    const resampler: Resampler.PcmResampler
    const session: TalkSession
    const blockSamples: nat
    const from: nat
    const to: nat
    var pcmBuffer: seq<i16>
    ghost const start: State
    // the samples taken in, the blocks written, the zeros added at the end, and whether something failed
    ghost var heard: seq<i16>
    ghost var cut: seq<seq<i16>>
    ghost var padding: nat
    ghost var failed: bool

    ghost predicate Valid()
      reads this, encoder, resampler, session
    {
      && 0 < blockSamples < TWO16 && from > 0 && to > 0
      && resampler.Valid() && resampler.from == from && resampler.to == to
      && (from != to ==> resampler.seen == heard)
      && session.bytesPerBlock == blockSamples / 2 + 4
      && Conserved() && InStep()
    }

    /** No sample is lost, repeated or moved: what was written and what waits make up the resampled input. */
    ghost predicate Conserved()
      requires from > 0 && to > 0
      reads this`cut, this`pcmBuffer, this`heard, this`padding
    {
      Balanced(cut, pcmBuffer, heard, padding, blockSamples, from, to)
    }

    /**
     The connection has the encoding of exactly these blocks, and the encoder is where they left it. With an
     even block length only the session or its connection can make a write fail, never the size of a block.
     */
    ghost predicate InStep()
      reads this`cut, this`failed, encoder, session
    {
      && (cut != [] ==> blockSamples % 2 == 0) && AllOfLength(cut, blockSamples)
      && session.sent == Wire(start, cut)
      && (failed && blockSamples % 2 == 0 ==> session.closed || session.refused)
      && (!failed ==> encoder.Now() == Encode(start, Flat(cut)).end && session.seqNum == |cut| % TWO16)
    }

    constructor (input: nat, target: nat, samplesPerBlock: u16, duration: nat)
      requires input > 0 && target > 0 && samplesPerBlock > 0
      ensures Valid() && heard == [] && cut == [] && pcmBuffer == [] && padding == 0 && !failed
      ensures blockSamples == samplesPerBlock && from == input && to == target && start == State(0, 0)
      ensures fresh(encoder) && fresh(resampler) && fresh(session)
    {
      hide Resampler.Batch;
      encoder := new Encoder();
      resampler := new Resampler.PcmResampler(input, target);
      session := new TalkSession(samplesPerBlock, duration);
      blockSamples, from, to := samplesPerBlock, input, target;
      pcmBuffer := [];
      start := State(0, 0);
      heard, cut, padding, failed := [], [], 0, false;
      new;
      Resampler.NoSamples(from, to);
      EncodeNothing(start);
    }

    /** Encode a block of samples and write it; an even block has the size the session wants. */
    method Send(samples: seq<i16>) returns (ok: bool)
      requires |samples| == blockSamples > 0 && session.bytesPerBlock == blockSamples / 2 + 4
      modifies encoder, session
      ensures ok ==> blockSamples % 2 == 0 && encoder.Now() == Encode(old(encoder.Now()), samples).end
      ensures ok ==> session.seqNum == (old(session.seqNum) + 1) % TWO16
      ensures ok ==> (session.sent ==
        old(session.sent) + [BcMedia.TalkUnit(EncodeBlock(old(encoder.Now()), samples), session.seqNum)])
      ensures !ok ==> session.sent == old(session.sent)
      ensures !ok && blockSamples % 2 == 0 ==> session.closed || session.refused
    {
      hide Encode, EncodeBlock, BcMedia.TalkUnit;
      var encoded, block := encoder.EncodePcm(samples);
      if !encoded {
        return false;
      }
      ok := session.WriteAdpcmBlock(block[..]);
    }

    /** One round of writeBlocks: the block at the front of the buffer leaves it, unless something fails. */
    method WriteBlock() returns (ok: bool)
      requires Valid() && !failed && |pcmBuffer| >= blockSamples
      modifies this`pcmBuffer, this`cut, this`failed, encoder, session
      ensures Valid() && (ok <==> !failed)
      ensures ok ==> cut == old(cut) + [old(pcmBuffer)[..blockSamples]] && pcmBuffer == old(pcmBuffer)[blockSamples..]
      ensures !ok ==> cut == old(cut) && pcmBuffer == old(pcmBuffer)
      ensures blockSamples % 2 != 0 ==> !ok
    {
      hide Balanced, Encode, Wire, EncodeBlock, BcMedia.TalkUnit, Resampler.PcmResampler.Valid, Flat, AllOfLength;
      ghost var samples := pcmBuffer[..blockSamples];
      ok := Send(pcmBuffer[..blockSamples]);
      if ok {
        EvenBlocks(cut, blockSamples);
        StillOfLength(cut, samples, blockSamples);
        EvenBlocks(cut + [samples], blockSamples);
        OneMoreOnTheWire(start, cut, samples);
        CutOne(start, cut, pcmBuffer, blockSamples);
        BalancedCut(cut, pcmBuffer, heard, padding, blockSamples, from, to);
        cut := cut + [samples];
        pcmBuffer := pcmBuffer[blockSamples..];
      } else {
        failed := true;
      }
    }

    /** writeBlocks: full blocks leave the buffer from the front, and a block that fails stays in it. */
    method WriteBlocks() returns (ok: bool)
      requires Valid() && !failed
      modifies this`pcmBuffer, this`cut, this`failed, encoder, session
      ensures Valid() && (ok <==> !failed)
      ensures ok <==> |pcmBuffer| < blockSamples
      ensures Flat(cut) + pcmBuffer == old(Flat(cut) + pcmBuffer)
    {
      hide Balanced, InStep, Resampler.PcmResampler.Valid, Flat;
      while |pcmBuffer| >= blockSamples
        invariant Valid() && !failed
        invariant Flat(cut) + pcmBuffer == old(Flat(cut) + pcmBuffer)
        decreases |pcmBuffer|
      {
        CutOne(start, cut, pcmBuffer, blockSamples);
        var written := WriteBlock();
        if !written {
          return false;
        }
      }
      return true;
    }

    /** processPCM: bring a packet to the rate of the camera, add it to the buffer, write what is full. */
    method ProcessPcm(pcm: seq<i16>) returns (ok: bool)
      requires Valid() && !failed && padding == 0
      modifies this`pcmBuffer, this`cut, this`heard, this`failed, encoder, resampler, session
      ensures Valid() && (ok <==> !failed) && heard == old(heard) + pcm
      ensures ok <==> |pcmBuffer| < blockSamples
    {
      hide Resampler.Batch, InStep, Balanced, Flat, Resampler.PcmResampler.Valid;
      var samples := pcm;
      if from != to {
        samples := resampler.Resample(pcm);
      }
      BalancedInput(cut, pcmBuffer, heard, pcm, samples, blockSamples, from, to);
      heard := heard + pcm;
      pcmBuffer := pcmBuffer + samples;
      ok := WriteBlocks();
    }

    /** The packets of a list, one after the other, as long as nothing fails. */
    method ProcessAll(packets: seq<seq<i16>>) returns (ok: bool)
      requires Valid() && !failed && padding == 0 && |pcmBuffer| < blockSamples
      modifies this`pcmBuffer, this`cut, this`heard, this`failed, encoder, resampler, session
      ensures Valid() && (ok <==> !failed)
      ensures exists k :: 0 <= k <= |packets| && heard == old(heard) + Flat(packets[..k])
      ensures ok ==> |pcmBuffer| < blockSamples && heard == old(heard) + Flat(packets)
    {
      hide Conserved, InStep, Flat, Resampler.PcmResampler.Valid;
      FlatNothing<i16>();
      assert packets[..0] == [];
      for i := 0 to |packets|
        invariant Valid() && !failed && padding == 0 && |pcmBuffer| < blockSamples
        invariant heard == old(heard) + Flat(packets[..i])
      {
        assert packets[..i + 1] == packets[..i] + [packets[i]];
        OneMoreCut(packets[..i], packets[i]);
        ok := ProcessPcm(packets[i]);
        assert heard == old(heard) + Flat(packets[..i + 1]);
        if !ok {
          return;
        }
      }
      assert packets[..|packets|] == packets;
      ok := true;
    }

    /** The end of flush: what is left in the buffer becomes a last block, filled up with silence. */
    method PadLast()
      requires Valid() && !failed && padding == 0 && |pcmBuffer| < blockSamples
      modifies this`pcmBuffer, this`cut, this`padding, this`failed, encoder, session
      ensures Valid() && padding < blockSamples
      ensures !failed ==> pcmBuffer == []
    {
      hide Balanced, InStep, Flat, Resampler.PcmResampler.Valid;
      if |pcmBuffer| > 0 {
        var missing := blockSamples - |pcmBuffer|;
        BalancedPadding(cut, pcmBuffer, heard, missing, blockSamples, from, to);
        padding := missing;
        pcmBuffer := pcmBuffer + Silence(missing);
        ghost var before, whole := cut, pcmBuffer;
        BlocksOfLength(before, whole, heard, padding, blockSamples, from, to);
        var ok := WriteBlocks();
        BlocksOfLength(cut, pcmBuffer, heard, padding, blockSamples, from, to);
        if ok {
          NothingLeft(before, whole, cut, pcmBuffer, blockSamples);
        }
      }
    }

    /**
     flush: take in what is queued, then fill up the last block with silence. Unless something fails, the
     blocks written are then exactly the resampled samples and less than a block of silence.
     */
    method Flush(queue: seq<seq<i16>>)
      requires Valid() && !failed && padding == 0 && |pcmBuffer| < blockSamples
      modifies this`pcmBuffer, this`cut, this`heard, this`padding, this`failed, encoder, resampler, session
      ensures Valid() && padding < blockSamples
      ensures exists k :: 0 <= k <= |queue| && heard == old(heard) + Flat(queue[..k])
      ensures !failed ==> pcmBuffer == [] && heard == old(heard) + Flat(queue)
    {
      hide Conserved, InStep, Flat, Resampler.PcmResampler.Valid;
      var ok := ProcessAll(queue);
      if ok {
        PadLast();
      }
    }

    /**
     runBridgeInternal: of the packets that piled up before the start only the newest is kept, the packets
     received follow, and the queue left at the end is flushed.
     */
    method Run(firstPcm: seq<i16>, piledUp: seq<seq<i16>>, received: seq<seq<i16>>, queue: seq<seq<i16>>)
      requires Valid() && !failed && padding == 0 && heard == [] && cut == [] && pcmBuffer == []
      modifies this, encoder, resampler, session
      ensures Valid() && padding < blockSamples
      ensures !failed ==> pcmBuffer == [] && heard == Newest(firstPcm, piledUp) + Flat(received) + Flat(queue)
      ensures !failed ==> HeardHoweverCut(this)
    {
      hide Conserved, InStep, Flat, HeardHoweverCut, Resampler.PcmResampler.Valid;
      var first := KeepNewest(firstPcm, piledUp);
      var ok := ProcessPcm(first);
      if !ok {
        return;
      }
      ok := ProcessAll(received);
      if !ok {
        return;
      }
      Flush(queue);
      if !failed {
        WrittenIsHeard(this);
      }
    }
  }

  /** The loop that empties the channel before the first packet is processed. */
  method KeepNewest(firstPcm: seq<i16>, piledUp: seq<seq<i16>>) returns (first: seq<i16>)
    ensures first == Newest(firstPcm, piledUp)
  {
    first := firstPcm;
    for i := 0 to |piledUp|
      invariant first == Newest(firstPcm, piledUp[..i])
    {
      first := piledUp[i];
    }
    assert piledUp[..|piledUp|] == piledUp;
  }

  function Newest(first: seq<i16>, piledUp: seq<seq<i16>>): seq<i16>
  {
    if piledUp == [] then first else piledUp[|piledUp| - 1]
  }

  lemma NoSilence()
    ensures Silence(0) == []
  {
  }

  lemma {:induction false} FlatLength(cut: seq<seq<i16>>, n: nat)
    requires AllOfLength(cut, n)
    ensures |Flat(cut)| == |cut| * n
  {
    if cut != [] {
      FlatLength(cut[1..], n);
      Resampler.Successor(|cut| - 1, n);
    }
  }

  lemma BlocksOfLength(cut: seq<seq<i16>>, buffer: seq<i16>, heard: seq<i16>, padding: nat, n: nat, from: nat, to: nat)
    requires from > 0 && to > 0 && Balanced(cut, buffer, heard, padding, n, from, to)
    ensures AllOfLength(cut, n)
  {
  }

  /** One whole block more to write, and less than a block left over: nothing is left over. */
  lemma NothingLeft(before: seq<seq<i16>>, whole: seq<i16>, after: seq<seq<i16>>, rest: seq<i16>, n: nat)
    requires AllOfLength(before, n) && AllOfLength(after, n) && |whole| == n && |rest| < n
    requires Flat(before) + whole == Flat(after) + rest
    ensures rest == []
  {
    FlatLength(before, n);
    FlatLength(after, n);
    Resampler.Successor(|before|, n);
    assert |Flat(before) + whole| == |Flat(after) + rest|;
    Resampler.DivUnique((|before| + 1) * n, n, |before| + 1, 0);
    Resampler.DivUnique((|before| + 1) * n, n, |after|, |rest|);
  }

  // ---- the whole path

  function Payloads(packets: seq<BcMedia.MediaPacket>): seq<seq<byte>>
  {
    if packets == [] then [] else [packets[0].data] + Payloads(packets[1..])
  }

  lemma {:induction false} PayloadsOfAdpcm(blocks: seq<seq<byte>>)
    ensures Payloads(BcMedia.AdpcmPackets(blocks)) == blocks
  {
    if blocks != [] {
      PayloadsOfAdpcm(blocks[1..]);
      assert BcMedia.AdpcmPackets(blocks)[1..] == BcMedia.AdpcmPackets(blocks[1..]);
    }
  }

  lemma {:induction false} BlockSizes(start: State, cut: seq<seq<i16>>, n: nat)
    requires AllOfLength(cut, n) && (cut != [] ==> n % 2 == 0)
    ensures AllOfLength(EncodeBlocks(start, cut), n / 2 + 4)
    decreases |cut|
  {
    hide EncodeBlock;
    if cut != [] {
      BlockSizes(Encode(start, cut[0]).end, cut[1..], n);
    }
  }

  /**
   From the samples to the speaker: a camera that receives the written units, however cut in transit, parses
   them into whole blocks with nothing left over, and decodes them, whatever state its decoder is in, into
   the encoder's reconstruction of the resampled input and the final silence.
   */
  lemma CameraHearsTheInput(start: State, cut: seq<seq<i16>>, n: u16, heard: seq<i16>, from: nat, to: nat,
                            padding: nat, chunks: seq<seq<byte>>, decoder: State)
    requires from > 0 && to > 0 && AllOfLength(cut, n) && (cut != [] ==> n % 2 == 0)
    requires Flat(cut) == Resampled(heard, from, to) + Silence(padding)
    requires Flat(chunks) == Flat(Wire(start, cut))
    ensures var received := BcMedia.AppendAll([], chunks);
      && received.rest == [] && received.error == None
      && DecodeBlocks(decoder, Payloads(received.packets)).samples ==
        Encode(start, Resampled(heard, from, to) + Silence(padding)).track
  {
    hide Encode, DecodeBlocks, Resampled, Silence, EncodeBlocks, BcMedia.AppendAll, BcMedia.TalkUnits, Payloads,
      BcMedia.AdpcmPackets;
    var blocks := EncodeBlocks(start, cut);
    BlockSizes(start, cut, n);
    BcMedia.TalkStreamRoundTrip(blocks, 1, chunks);
    PayloadsOfAdpcm(blocks);
    Lockstep(start, cut, decoder);
  }

  /** A camera with its decoder in this state decodes these chunks into the pipeline's input and final silence. */
  ghost predicate Heard(p: Pipeline, chunks: seq<seq<byte>>, decoder: State)
    requires p.from > 0 && p.to > 0
    reads p
  {
    var received := BcMedia.AppendAll([], chunks);
    && received.rest == [] && received.error == None
    && DecodeBlocks(decoder, Payloads(received.packets)).samples ==
      Encode(p.start, Resampled(p.heard, p.from, p.to) + Silence(p.padding)).track
  }

  /** Any camera on the connection does, however the bytes are cut on their way. */
  ghost predicate HeardHoweverCut(p: Pipeline)
    requires p.from > 0 && p.to > 0
    reads p, p.session
  {
    forall chunks: seq<seq<byte>>, decoder: State ::
      Flat(chunks) == Flat(p.session.sent) ==> Heard(p, chunks, decoder)
  }

  /** Once everything is written, that is what any camera on the connection hears, however the bytes are cut. */
  lemma WrittenIsHeard(p: Pipeline)
    requires p.Valid() && p.pcmBuffer == []
    ensures HeardHoweverCut(p)
  {
    hide Flat, Balanced, Wire, Heard, Resampler.PcmResampler.Valid;
    BlocksOfLength(p.cut, [], p.heard, p.padding, p.blockSamples, p.from, p.to);
    BalancedAtEnd(p.cut, p.heard, p.padding, p.blockSamples, p.from, p.to);
    forall chunks: seq<seq<byte>>, decoder: State | Flat(chunks) == Flat(p.session.sent)
      ensures Heard(p, chunks, decoder)
    {
      HeardOnce(p, chunks, p.blockSamples, decoder);
    }
  }

  lemma BalancedAtEnd(cut: seq<seq<i16>>, heard: seq<i16>, padding: nat, n: nat, from: nat, to: nat)
    requires from > 0 && to > 0 && Balanced(cut, [], heard, padding, n, from, to)
    ensures Flat(cut) == Resampled(heard, from, to) + Silence(padding)
  {
    hide Flat, Resampled, Silence;
    assert Flat(cut) + [] == Flat(cut);
  }

  lemma HeardOnce(p: Pipeline, chunks: seq<seq<byte>>, n: u16, decoder: State)
    requires p.from > 0 && p.to > 0 && AllOfLength(p.cut, n) && (p.cut != [] ==> n % 2 == 0)
    requires Flat(p.cut) == Resampled(p.heard, p.from, p.to) + Silence(p.padding)
    requires Flat(chunks) == Flat(Wire(p.start, p.cut))
    ensures Heard(p, chunks, decoder)
  {
    hide Flat, Resampled, Silence, Encode, Wire;
    CameraHearsTheInput(p.start, p.cut, n, p.heard, p.from, p.to, p.padding, chunks, decoder);
  }

  lemma CutOne(start: State, cut: seq<seq<i16>>, buffer: seq<i16>, n: nat)
    requires n <= |buffer|
    ensures Flat(cut + [buffer[..n]]) == Flat(cut) + buffer[..n]
    ensures Flat(cut + [buffer[..n]]) + buffer[n..] == Flat(cut) + buffer
    ensures Encode(start, Flat(cut + [buffer[..n]])).end == Encode(Encode(start, Flat(cut)).end, buffer[..n]).end
  {
    hide Encode;
    OneMoreCut(cut, buffer[..n]);
    EncodeAppend(start, Flat(cut), buffer[..n]);
    assert buffer[..n] + buffer[n..] == buffer;
  }
}
