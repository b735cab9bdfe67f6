/**
 The transport and the codec together: what a builder makes, the transport
 stamps and prints, the network carries and the peer parses, is what the peer
 delivers.
 */
module EndToEnd {
  import opened Bytes
  import opened SeqNum
  import opened TransportSpec
  import opened Endpoint
  import opened Network
  import opened NetworkTheorems
  import M = Msg
  import MsgSpec

  // setTransportSeqNum, on a value.
  function Stamped(m: M.Message, ns: U16, nr: U16): M.Message
    requires m.hdr.V2Header?
  {
    m.(hdr := M.V2Header(m.hdr.flagsVer, m.hdr.len, m.hdr.tid, m.hdr.sid, ns, nr))
  }

  // The transport's payload for a message is its encoding before it is stamped.
  function PayloadOf(m: M.Message): Payload { Control(M.ToBytes(m)) }

  // The octets on the network for a packet that carries the message.
  function Datagram(m: M.Message, p: Packet): seq<Octet>
    requires m.hdr.V2Header?
  {
    M.ToBytes(Stamped(m, p.ns, p.nr))
  }

  // Stamping changes neither the attributes nor what makes a message well formed or valid.
  lemma StampedIsLike(m: M.Message, ns: U16, nr: U16)
    requires m.hdr.V2Header?
    ensures M.WellFormed(m) <==> M.WellFormed(Stamped(m, ns, nr))
    ensures MsgSpec.ValidMessage(m) <==> MsgSpec.ValidMessage(Stamped(m, ns, nr))
    ensures M.WellFormed(m) ==> M.ParseMessages(M.ToBytes(Stamped(m, ns, nr))) == Ok([Stamped(m, ns, nr)])
  {
    M.RoundTripExactly(Stamped(m, ns, nr));
  }

  // The packet is the message under its number and some nr, and its octets parse to just that.
  ghost predicate Carries(p: Packet, k: nat, m: M.Message)
    requires m.hdr.V2Header?
  {
    && p.body == PayloadOf(m) && p.ns == Wrap(k)
    && M.ParseMessages(Datagram(m, p)) == Ok([Stamped(m, p.ns, p.nr)])
    && MsgSpec.ValidMessage(Stamped(m, p.ns, p.nr))
  }

  /**
   Every packet in flight for the message submitted as number k, and the packet
   that the peer hands to its user as number k, is the message stamped: its
   octets parse to that valid message under the packet's numbers, ns being k
   modulo 65536.
   */
  lemma SentIsReceived(cfgs: Configs, s: Net, k: nat, q: MsgSpec.Request)
    requires ConfigsOk(cfgs) && Reachable(cfgs, s)
    requires MsgSpec.IdsFit(q) && MsgSpec.TextFits(q)
    requires MsgSpec.Build(q).Ok? && MsgSpec.Build(q).value.hdr.V2Header?
    requires k < |s.a.subs| && s.a.subs[k] == PayloadOf(MsgSpec.Build(q).value)
    ensures forall f | f in s.ab && f.pkt.body.Control? && f.gns == k :: Carries(f.pkt, k, MsgSpec.Build(q).value)
    ensures k < |s.b.delivered| ==> Carries(s.b.delivered[k], k, MsgSpec.Build(q).value)
  {
    var m := MsgSpec.Build(q).value;
    MsgSpec.BuildersExactly(q);
    MsgSpec.BuiltIsWellFormed(q);
    ReachableInv(cfgs, s);
    DeliveredIsPrefixOfSubmitted(cfgs, s);
    forall f | f in s.ab && f.pkt.body.Control? && f.gns == k
      ensures Carries(f.pkt, k, m)
    {
      assert FlightOk(s.a, f);
      StampedIsLike(m, f.pkt.ns, f.pkt.nr);
    }
    if k < |s.b.delivered| {
      assert Bodies(s.b.delivered)[k] == s.b.accepted[k] == s.a.subs[k];
      StampedIsLike(m, s.b.delivered[k].ns, s.b.delivered[k].nr);
    }
  }
}
