/** Messages over the P2P transport: framing on top of a network that loses, duplicates and reorders. */
module EndToEnd {
  import opened Bytes
  import Framing
  import UidDelivery
  import UidNetwork

  lemma {:induction false} WireOfMore(calls: seq<Framing.Call>, k: nat)
    requires k <= |calls|
    ensures Framing.Wire(calls[..k]) <= Framing.Wire(calls)
    decreases k
  {
    hide Framing.Encoded;
    if k > 0 {
      assert calls[..k][1..] == calls[1..][..k - 1];
      WireOfMore(calls[1..], k - 1);
    }
  }

  lemma PrefixSplits(short: seq<byte>, long: seq<byte>, all: seq<byte>)
    requires short <= all && long <= all && |short| <= |long|
    ensures long == short + long[|short|..]
  {
    assert long[..|short|] == all[..|short|] == short;
  }

  /**
   In every reachable state of the two sessions: once the reader has the bytes of the first k requests the
   writer's side has sent, it reads exactly those k requests, each as it was meant, whatever the network
   did on the way and whatever has arrived of the next ones, exactly if each is readable in its turn.
   */
  lemma RequestsSurviveTheNetwork(
    start: UidNetwork.System, steps: seq<UidNetwork.Step>, isA: bool,
    calls: seq<Framing.Call>, k: nat, xml: Framing.Xml, p: Framing.Peer)
    requires UidNetwork.Initially(start) && UidNetwork.IsRun(start, steps)
    requires k <= |calls| && Framing.OneKey(calls[..k], p)
    requires var s := UidNetwork.After(start, steps);
      && Framing.Wire(calls) <= UidNetwork.Get(s, isA).offered
      && |Framing.Wire(calls[..k])| <= |UidNetwork.Get(s, !isA).delivered|
    ensures var r := UidNetwork.Get(UidNetwork.After(start, steps), !isA);
      var (ms, left) := Framing.ReadMany(r.delivered, xml, p, Framing.Times(calls[..k]));
      && (ms == Framing.AllMeant(calls[..k], xml) <==> Framing.AllReadable(calls[..k], xml, p))
      && (ms == Framing.AllMeant(calls[..k], xml) ==> left == r.delivered[|Framing.Wire(calls[..k])|..])
  {
    hide UidNetwork.Initially, UidNetwork.IsRun, UidNetwork.After, Framing.AllReadable, Framing.Wire;
    hide Framing.ReadMany, Framing.OneKey, Framing.AllMeant, Flat;
    var s := UidNetwork.After(start, steps);
    var bytes := UidNetwork.Get(s, !isA).delivered;
    var sent := Framing.Wire(calls[..k]);
    UidDelivery.DeliveredIsPrefixOfWritten(start, steps, isA);
    WireOfMore(calls, k);
    PrefixSplits(sent, bytes, UidNetwork.Get(s, isA).offered);
    Framing.StreamReadsBack(calls[..k], bytes[|sent|..], xml, p);
  }
}
