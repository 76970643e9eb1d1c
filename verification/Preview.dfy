/**
 Best-effort fan-out of messages and the preview consumer (pkg/baichuan/client.go). The read loop drops
 a message when a subscriber's channel is full; the consumer must never feed the bcmedia parser past
 such a hole.
 */
module Preview {
  import opened Bytes
  import opened BcMedia

  const CHANNEL_CAP := 256

  datatype Message = Message(binary: bool, streamType: byte, payload: seq<byte>)

  // ---- dispatch, sequentially

  class Subscription {
    var ch: seq<Message>
    var dropped: nat

    constructor ()
      ensures ch == [] && dropped == 0
    {
      ch, dropped := [], 0;
    }
  }

  /** The message of every subscriber with room is queued for it, every other subscriber counts a drop. */
  method Dispatch(subs: seq<Subscription>, msg: Message)
    requires forall i, j :: 0 <= i < j < |subs| ==> subs[i] != subs[j]
    modifies subs
    ensures forall i :: 0 <= i < |subs| ==>
      if old(|subs[i].ch|) < 256
      then subs[i].ch == old(subs[i].ch) + [msg] && subs[i].dropped == old(subs[i].dropped)
      else subs[i].ch == old(subs[i].ch) && subs[i].dropped == old(subs[i].dropped) + 1
  {
    for k := 0 to |subs|
      invariant forall i :: k <= i < |subs| ==> subs[i].ch == old(subs[i].ch) && subs[i].dropped == old(subs[i].dropped)
      invariant forall i :: 0 <= i < k ==>
        if old(|subs[i].ch|) < CHANNEL_CAP
        then subs[i].ch == old(subs[i].ch) + [msg] && subs[i].dropped == old(subs[i].dropped)
        else subs[i].ch == old(subs[i].ch) && subs[i].dropped == old(subs[i].dropped) + 1
    {
      var sub := subs[k];
      if |sub.ch| < CHANNEL_CAP {
        sub.ch := sub.ch + [msg];
      } else {
        sub.dropped := sub.dropped + 1;
      }
    }
  }

  // ---- the read loop and one preview consumer, interleaved

  /** What the consumer is doing: Cleared means it has read a zero drop counter for the message it holds. */
  datatype Hand = Waiting | Holding(msg: Message) | Cleared(msg: Message) | Publishing(packets: seq<MediaPacket>) | Done

  /**
   The shared channel and counter, the parser, and the history: the messages dispatched to the
   subscription, those taken from the channel, the payloads fed to the parser (the matching ones among
   the first fedTo dispatched), the packets handed to the viewer, and the index of the first lost message.
   */
  datatype State = State(
    ch: seq<Message>, dropped: nat, dropping: bool, hand: Hand, buf: seq<byte>,
    dispatched: seq<Message>, taken: seq<Message>, fed: seq<seq<byte>>, fedTo: nat,
    published: seq<MediaPacket>, firstLost: Option<nat>)

  datatype Step =
    | Send(msg: Message)   // the read loop finds room in the channel, or finds it full
    | CountDrop            // ... and then raises the drop counter
    | Take                 // the consumer receives the next message and filters it
    | CheckCounter         // it reads the drop counter
    | FeedParser           // it appends the payload to the parser
    | Publish              // it hands one parsed packet on
    | Stop

  predicate Matches(m: Message, streamType: byte)
  {
    m.binary && |m.payload| > 0 && m.streamType == streamType
  }

  predicate Enabled(s: State, step: Step)
  {
    match step
    case Send(_) => !s.dropping
    case CountDrop => s.dropping
    case Take => s.hand == Waiting && s.ch != []
    case CheckCounter => s.hand.Holding?
    case FeedParser => s.hand.Cleared?
    case Publish => s.hand.Publishing?
    case Stop => true
  }

  function Next(s: State, step: Step, streamType: byte): State
    requires Enabled(s, step)
  {
    match step
    case Send(msg) =>
      if |s.ch| < CHANNEL_CAP then s.(ch := s.ch + [msg], dispatched := s.dispatched + [msg])
      else s.(dropping := true, dispatched := s.dispatched + [msg],
              firstLost := if s.firstLost.Some? then s.firstLost else Some(|s.dispatched|))
    case CountDrop => s.(dropping := false, dropped := s.dropped + 1)
    case Take =>
      s.(ch := s.ch[1..], taken := s.taken + [s.ch[0]],
         hand := if Matches(s.ch[0], streamType) then Holding(s.ch[0]) else Waiting)
    case CheckCounter => s.(hand := if s.dropped > 0 then Done else Cleared(s.hand.msg))
    case FeedParser =>
      var o := Feed(s.buf + s.hand.msg.payload);
      s.(buf := o.rest, fed := s.fed + [s.hand.msg.payload], fedTo := |s.taken|,
         hand := if o.error.Some? then Done else Publishing(o.packets))
    case Publish =>
      if s.hand.packets == [] then s.(hand := Waiting)
      else s.(published := s.published + [s.hand.packets[0]], hand := Publishing(s.hand.packets[1..]))
    case Stop => s.(hand := Done)
  }

  const START := State([], 0, false, Waiting, [], [], [], [], 0, [], None)

  /** The payloads of the messages the consumer is interested in. */
  function Matching(ms: seq<Message>, streamType: byte): seq<seq<byte>>
  {
    if ms == [] then []
    else (if Matches(ms[0], streamType) then [ms[0].payload] else []) + Matching(ms[1..], streamType)
  }

  lemma {:induction false} MatchingAppend(a: seq<Message>, b: seq<Message>, streamType: byte)
    ensures Matching(a + b, streamType) == Matching(a, streamType) + Matching(b, streamType)
    decreases |a|
  {
    if a == [] {
      assert a + b == b;
    } else {
      assert (a + b)[1..] == a[1..] + b;
      MatchingAppend(a[1..], b, streamType);
    }
  }

  /** Message by message: a binary message of the stream with anything in it has its payload fed, no other. */
  lemma MatchingMeaning(ms: seq<Message>, m: Message, streamType: byte)
    ensures Matching(ms + [m], streamType) ==
      Matching(ms, streamType) + if m.binary && m.payload != [] && m.streamType == streamType then [m.payload] else []
  {
    MatchingAppend(ms, [m], streamType);
    MatchingOne(m, streamType);
  }

  lemma MatchingOne(m: Message, streamType: byte)
    ensures Matching([m], streamType) == if Matches(m, streamType) then [m.payload] else []
  {
    assert Matching([], streamType) == [];
  }

  /** How many messages were dispatched before the first one was lost. */
  function Intact(s: State): nat { if s.firstLost.Some? then s.firstLost.value else |s.dispatched| }

  /** Up to the first loss the channel is first in, first out; past it nothing is queued before the drop is counted. */
  ghost predicate ChannelInv(s: State)
  {
    && Intact(s) <= |s.dispatched|
    && Intact(s) <= |s.taken + s.ch|
    && (s.taken + s.ch)[..Intact(s)] == s.dispatched[..Intact(s)]
    && (s.dropped > 0 || s.dropping <==> s.firstLost.Some?)
    && (|s.taken + s.ch| > Intact(s) ==> s.dropped > 0)
  }

  ghost predicate ConsumerInv(s: State, streamType: byte)
  {
    && s.fedTo <= Intact(s) <= |s.dispatched| && s.fed == Matching(s.dispatched[..s.fedTo], streamType)
    && (s.hand.Waiting? || s.hand.Publishing? ==> s.fed == Matching(s.taken, streamType))
    && (s.hand.Holding? || s.hand.Cleared? ==>
          && s.taken != [] && s.taken[|s.taken| - 1] == s.hand.msg && Matches(s.hand.msg, streamType)
          && s.fed == Matching(s.taken[..|s.taken| - 1], streamType))
    && (s.hand.Cleared? ==> |s.taken| <= Intact(s))
  }

  /** The parser holds exactly the fed bytes, and what is published is what they yield, in order. */
  ghost predicate ParserInv(s: State)
  {
    var o := Feed(Flat(s.fed));
    && o.rest == s.buf
    && s.published <= o.packets
    && (s.hand.Publishing? ==> s.published + s.hand.packets == o.packets)
    && (!s.hand.Publishing? && !s.hand.Done? ==> s.published == o.packets)
  }

  ghost predicate Inv(s: State, streamType: byte)
  {
    ChannelInv(s) && ConsumerInv(s, streamType) && ParserInv(s)
  }

  lemma ChannelStep(s: State, step: Step, streamType: byte)
    requires ChannelInv(s) && Enabled(s, step)
    ensures var s' := Next(s, step, streamType);
      ChannelInv(s') && Intact(s) <= Intact(s') && s.dispatched <= s'.dispatched
  {
    hide Feed;
    var s' := Next(s, step, streamType);
    match step
    case Send(msg) =>
      assert |s.ch| < CHANNEL_CAP ==> s'.taken + s'.ch == s.taken + s.ch + [msg];
      if s.firstLost.None? {
        assert s.taken + s.ch == s.dispatched;
        assert s'.dispatched[..|s.dispatched|] == s.dispatched;
      } else {
        assert s'.dispatched[..Intact(s)] == s.dispatched[..Intact(s)];
      }
    case Take => assert s'.taken + s'.ch == s.taken + s.ch;
    case _ =>
  }

  lemma ConsumerStep(s: State, step: Step, streamType: byte)
    requires ChannelInv(s) && ConsumerInv(s, streamType) && Enabled(s, step)
    ensures ConsumerInv(Next(s, step, streamType), streamType)
  {
    hide Feed, Matching, Matches, ChannelInv;
    var s' := Next(s, step, streamType);
    ChannelStep(s, step, streamType);
    assert s'.dispatched[..s.fedTo] == s.dispatched[..s.fedTo];
    match step
    case Take =>
      MatchingAppend(s.taken, [s.ch[0]], streamType);
      MatchingOne(s.ch[0], streamType);
      assert s'.taken[..|s'.taken| - 1] == s.taken;
    case CheckCounter =>
      if s.dropped == 0 {
        NoDropMeansIntact(s);
      }
    case FeedParser => FedMessageIsIntact(s, streamType);
    case _ =>
  }

  lemma NoDropMeansIntact(s: State)
    requires ChannelInv(s) && s.dropped == 0
    ensures |s.taken| <= Intact(s)
  {
  }

  /** The message about to be fed was dispatched before anything was lost, right after those fed so far. */
  lemma FedMessageIsIntact(s: State, streamType: byte)
    requires ChannelInv(s) && ConsumerInv(s, streamType) && s.hand.Cleared?
    ensures s.fed + [s.hand.msg.payload] == Matching(s.taken, streamType)
    ensures |s.taken| <= Intact(s) && s.taken == s.dispatched[..|s.taken|]
  {
    hide Matching;
    var n := |s.taken|;
    var all, upTo := s.taken + s.ch, s.dispatched[..Intact(s)];
    assert s.taken == all[..n] && all[..Intact(s)][..n] == all[..n] && upTo[..n] == s.dispatched[..n];
    assert s.taken == s.taken[..n - 1] + [s.hand.msg];
    MatchingAppend(s.taken[..n - 1], [s.hand.msg], streamType);
    MatchingOne(s.hand.msg, streamType);
  }

  lemma ParserStep(s: State, step: Step, streamType: byte)
    requires ParserInv(s) && Enabled(s, step)
    ensures ParserInv(Next(s, step, streamType))
  {
    hide Feed, Flat;
    match step
    case FeedParser =>
      var payload := s.hand.msg.payload;
      FlatAppend(s.fed, [payload]);
      FlatOne(payload);
      FeedSplit(Flat(s.fed), payload);
    case _ =>
  }

  ghost predicate IsRun(s: State, steps: seq<Step>, streamType: byte)
    decreases |steps|
  {
    steps == [] || (Enabled(s, steps[0]) && IsRun(Next(s, steps[0], streamType), steps[1..], streamType))
  }

  ghost function After(s: State, steps: seq<Step>, streamType: byte): State
    requires IsRun(s, steps, streamType)
    decreases |steps|
  {
    if steps == [] then s else After(Next(s, steps[0], streamType), steps[1..], streamType)
  }

  lemma {:induction false} RunKeepsInv(s: State, steps: seq<Step>, streamType: byte)
    requires Inv(s, streamType) && IsRun(s, steps, streamType)
    ensures Inv(After(s, steps, streamType), streamType)
    decreases |steps|
  {
    hide Next, Enabled, ChannelInv, ConsumerInv, ParserInv;
    if steps != [] {
      ChannelStep(s, steps[0], streamType);
      ConsumerStep(s, steps[0], streamType);
      ParserStep(s, steps[0], streamType);
      RunKeepsInv(Next(s, steps[0], streamType), steps[1..], streamType);
    }
  }

  /**
   For every interleaving of the read loop and the consumer: the payloads fed to the parser are a prefix
   of the matching messages dispatched so far, so the parser never sees data from behind a lost message.
   */
  lemma ParserNeverFedPastAHole(steps: seq<Step>, streamType: byte)
    requires IsRun(START, steps, streamType)
    ensures var s := After(START, steps, streamType);
      && s.fed <= Matching(s.dispatched, streamType)
      && s.fedTo <= Intact(s) <= |s.dispatched| && s.fed == Matching(s.dispatched[..s.fedTo], streamType)
  {
    hide IsRun, After, Matching;
    InitialInv(START, streamType);
    RunKeepsInv(START, steps, streamType);
    var s := After(START, steps, streamType);
    assert s.dispatched == s.dispatched[..s.fedTo] + s.dispatched[s.fedTo..];
    MatchingAppend(s.dispatched[..s.fedTo], s.dispatched[s.fedTo..], streamType);
  }

  lemma InitialInv(s: State, streamType: byte)
    requires s == START
    ensures Inv(s, streamType)
  {
    NothingToFeed();
  }

  /**
   The viewer's packets are a prefix of those the gapless stream parses into: losing messages can cut
   the stream short but can never corrupt a packet.
   */
  lemma PublishedIsPrefixOfGaplessStream(steps: seq<Step>, streamType: byte)
    requires IsRun(START, steps, streamType)
    ensures var s := After(START, steps, streamType);
      s.published <= Feed(Flat(Matching(s.dispatched, streamType))).packets
  {
    hide IsRun, After, Matching, Feed, Flat;
    InitialInv(START, streamType);
    RunKeepsInv(START, steps, streamType);
    ParserNeverFedPastAHole(steps, streamType);
    var s := After(START, steps, streamType);
    var all := Matching(s.dispatched, streamType);
    var rest := all[|s.fed|..];
    assert all == s.fed + rest;
    FlatAppend(s.fed, rest);
    FeedSplit(Flat(s.fed), Flat(rest));
  }

  /** While nothing has been lost, a consumer that is between messages has fed everything it has taken. */
  lemma WithoutLossNothingIsWithheld(steps: seq<Step>, streamType: byte)
    requires IsRun(START, steps, streamType)
    ensures var s := After(START, steps, streamType);
      s.firstLost.None? && s.ch == [] && s.hand.Waiting? ==>
        s.fed == Matching(s.dispatched, streamType) && s.published == Feed(Flat(s.fed)).packets
  {
    hide IsRun, After, Matching, Feed, Flat;
    InitialInv(START, streamType);
    RunKeepsInv(START, steps, streamType);
    var s := After(START, steps, streamType);
    if s.firstLost.None? && s.ch == [] {
      assert s.taken + s.ch == s.taken;
      assert s.dispatched[..|s.dispatched|] == s.dispatched && s.taken[..|s.dispatched|] == s.dispatched;
    }
  }

  // ---- nothing is lost or stopped without cause

  /** Every dispatched message was taken, waits in the channel, or is counted as dropped. */
  ghost predicate Accounted(s: State)
  {
    |s.dispatched| == |s.taken| + |s.ch| + s.dropped + (if s.dropping then 1 else 0) && |s.ch| <= 256
  }

  lemma AccountedStep(s: State, step: Step, streamType: byte)
    requires Accounted(s) && Enabled(s, step)
    ensures var s' := Next(s, step, streamType);
      && Accounted(s')
      && (s.firstLost.None? && s'.firstLost.Some? ==>
            |s.ch| == 256 && step.Send? && s'.firstLost == Some(|s.dispatched|))
  {
    hide Feed, Matches;
  }

  /** What made the consumer end: a counted drop, or data the parser does not take. */
  ghost predicate EndedForCause(s: State)
  {
    s.hand.Done? ==> s.dropped > 0 || Feed(Flat(s.fed)).error.Some?
  }

  lemma CauseStep(s: State, step: Step, streamType: byte)
    requires EndedForCause(s) && ParserInv(s) && Enabled(s, step) && step != Stop
    ensures EndedForCause(Next(s, step, streamType))
  {
    hide Feed, Flat, Matches;
    if step.FeedParser? {
      var payload := s.hand.msg.payload;
      FlatAppend(s.fed, [payload]);
      FlatOne(payload);
      FeedSplit(Flat(s.fed), payload);
    }
  }

  lemma {:induction false} RunIsAccounted(s: State, steps: seq<Step>, streamType: byte)
    requires Inv(s, streamType) && Accounted(s) && EndedForCause(s) && IsRun(s, steps, streamType) && Stop !in steps
    ensures Accounted(After(s, steps, streamType)) && EndedForCause(After(s, steps, streamType))
    decreases |steps|
  {
    hide Next, Enabled, ChannelInv, ConsumerInv, ParserInv, Accounted, EndedForCause;
    if steps != [] {
      ChannelStep(s, steps[0], streamType);
      ConsumerStep(s, steps[0], streamType);
      ParserStep(s, steps[0], streamType);
      AccountedStep(s, steps[0], streamType);
      CauseStep(s, steps[0], streamType);
      RunIsAccounted(Next(s, steps[0], streamType), steps[1..], streamType);
    }
  }

  /**
   Until it is stopped the consumer ends only for a lost message or for data that does not parse, and messages are
   lost only while 256 of them wait: none is unaccounted for.
   */
  lemma EndsOnlyForCause(steps: seq<Step>, streamType: byte)
    requires IsRun(START, steps, streamType) && Stop !in steps
    ensures var s := After(START, steps, streamType);
      && (s.hand.Done? ==> s.dropped > 0 || Feed(Flat(s.fed)).error.Some?)
      && |s.dispatched| == |s.taken| + |s.ch| + s.dropped + (if s.dropping then 1 else 0) && |s.ch| <= 256
  {
    hide IsRun, After, Feed, Flat;
    InitialInv(START, streamType);
    RunIsAccounted(START, steps, streamType);
  }
}
