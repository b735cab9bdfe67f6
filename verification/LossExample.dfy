/** A run in which a message completes without error and its receiver's user never gets it. */
module LossExample {
  import opened SlowStart
  import opened TransportSpec
  import opened Endpoint
  import opened Network
  import opened NetworkTheorems
  import opened WedgeExample

  // b's explicit acknowledgement of a's message.
  const AckByB: Flight := Flight(Packet(0, 1, AckBody), 0, 1)

  // b reads a's message and works on its nr.
  const BReads: seq<NetAct> := [ActB(Receive([FromA])), ActB(Hand), ActB(AckNext), ActB(AckEnds)]
  // b accepts the message and acknowledges it before handing it to the user.
  const BAcks: seq<NetAct> := [ActB(Drain), ActB(AckTimerFires(true))]
  // a takes the acknowledgement, and b's owner closes it.
  const AEnds: seq<NetAct> := [ActA(Receive([AckByB])), ActA(Hand), ActA(AckNext), ActB(Close)]

  function AfterBReads(): Net
  {
    var s := AfterASends();
    s.(b := s.b.(snd := s.b.snd.(ackTimer := true), rpc := Draining, rxq := [FromA]))
  }

  function AfterBAcks(): Net
  {
    var s := AfterASends();
    s.(b := s.b.(
         snd := s.b.snd.(win := IncrementNr(s.b.snd.win), wire := [OfAck(AckByB.pkt)]),
         rpc := Delivering(FromA.pkt), accepted := [Control([1])], recvd := 1, told := 1),
       ba := {AckByB})
  }

  // a has b's acknowledgement and works on it.
  function AfterAReads(): Net
  {
    var s := AfterBAcks();
    s.(a := s.a.(spc := Acking([Ind(true, 1, 1)], false), rpc := Draining, rxq := [AckByB]))
  }

  function Lost(): Net
  {
    var s := AfterAReads();
    s.(a := s.a.(
         snd := s.a.snd.(win := OnAck(s.a.snd.win, 4), ack := [], done := [Done(0, Acked)]),
         acked := 1, spc := Pumping([], false)),
       b := s.b.(rpc := Ready, open := false))
  }

  function AfterBHands(): Net
  {
    var s := AfterASends();
    s.(b := s.b.(spc := Acking([Ind(false, 0, 0)], true), rpc := Draining, rxq := [FromA]))
  }

  lemma RunBHands()
    ensures LegalNet(Both, AfterASends(), BReads[..2]) && RunNet(Both, AfterASends(), BReads[..2]) == AfterBHands()
  {
    var s1 := NetDo(Both, AfterASends(), BReads[0]);
    assert Packets([FromA]) == [FromA.pkt] && Indications([FromA]) == [Ind(false, 0, 0)];
    assert s1.b.rpc == Handing([Ind(false, 0, 0)]) && !s1.b.rpc.nrs[0].isAck;
    assert NetDo(Both, s1, BReads[1]) == AfterBHands();
    LegalCons(Both, s1, BReads[1], []);
    LegalCons(Both, AfterASends(), BReads[0], [BReads[1]]);
    assert BReads[..2] == [BReads[0]] + [BReads[1]];
  }

  // b has nothing to be acknowledged.
  function AfterBWorks(): Net
  {
    var s := AfterBHands();
    s.(b := s.b.(spc := Acking([], true)))
  }

  lemma NothingToCover()
    ensures NetEnabled(Both, AfterBHands(), BReads[2]) && NetDo(Both, AfterBHands(), BReads[2]) == AfterBWorks()
  {
    var b := AfterBHands().b;
    assert AckPrefix(Defaults, b.snd, 0) == b.snd && b.spc.nrs[1..] == [];
    assert Do(Defaults, b, AckNext) == b.(spc := Acking([], true));
  }

  lemma RunBWorks()
    ensures LegalNet(Both, AfterBHands(), BReads[2..]) && RunNet(Both, AfterBHands(), BReads[2..]) == AfterBReads()
  {
    NothingToCover();
    assert NetDo(Both, AfterBWorks(), BReads[3]) == AfterBReads();
    LegalCons(Both, AfterBWorks(), BReads[3], []);
    LegalCons(Both, AfterBHands(), BReads[2], [BReads[3]]);
    assert BReads[2..] == [BReads[2]] + [BReads[3]];
  }

  lemma RunBReads()
    ensures LegalNet(Both, AfterASends(), BReads) && RunNet(Both, AfterASends(), BReads) == AfterBReads()
  {
    RunBHands();
    RunBWorks();
    LegalConcat(Both, AfterASends(), BReads[..2], BReads[2..]);
    assert BReads[..2] + BReads[2..] == BReads;
  }

  lemma RunBAcks()
    ensures LegalNet(Both, AfterBReads(), BAcks) && RunNet(Both, AfterBReads(), BAcks) == AfterBAcks()
  {
    var s1 := NetDo(Both, AfterBReads(), BAcks[0]);
    assert Emitted(Defaults, s1.b, AckTimerFires(true)) == {AckByB};
    assert NetDo(Both, s1, BAcks[1]) == AfterBAcks();
    LegalCons(Both, s1, BAcks[1], []);
    LegalCons(Both, AfterBReads(), BAcks[0], [BAcks[1]]);
  }

  lemma RunAReadsAck()
    ensures LegalNet(Both, AfterBAcks(), AEnds[..2]) && RunNet(Both, AfterBAcks(), AEnds[..2]) == AfterAReads()
  {
    var s1 := NetDo(Both, AfterBAcks(), AEnds[0]);
    assert Packets([AckByB]) == [AckByB.pkt] && Indications([AckByB]) == [Ind(true, 1, 1)];
    assert NetDo(Both, s1, AEnds[1]) == AfterAReads();
    LegalCons(Both, s1, AEnds[1], []);
    LegalCons(Both, AfterBAcks(), AEnds[0], [AEnds[1]]);
    assert AEnds[..2] == [AEnds[0]] + [AEnds[1]];
  }

  // a with its message complete.
  function Acknowledged(): Net
  {
    Lost().(b := AfterAReads().b)
  }

  lemma AckTaken()
    ensures NetEnabled(Both, AfterAReads(), AEnds[2]) && NetDo(Both, AfterAReads(), AEnds[2]) == Acknowledged()
  {
    var a := AfterAReads().a;
    assert AckPrefix(Defaults, a.snd, 1) == AckHead(Defaults, a.snd);
    assert a.snd.ack[..1] == a.snd.ack && Stragglers(a.snd.ack) == [];
    var a' := Do(Defaults, a, AckNext);
    assert a'.late == [] && a'.snd == Lost().a.snd && a'.spc == Lost().a.spc;
  }

  lemma RunToLost()
    ensures LegalNet(Both, AfterAReads(), AEnds[2..]) && RunNet(Both, AfterAReads(), AEnds[2..]) == Lost()
  {
    AckTaken();
    assert NetDo(Both, Acknowledged(), AEnds[3]) == Lost();
    LegalCons(Both, Acknowledged(), AEnds[3], []);
    LegalCons(Both, AfterAReads(), AEnds[2], [AEnds[3]]);
    assert AEnds[2..] == [AEnds[2]] + [AEnds[3]];
  }

  lemma RunAEnds()
    ensures LegalNet(Both, AfterBAcks(), AEnds) && RunNet(Both, AfterBAcks(), AEnds) == Lost()
  {
    RunAReadsAck();
    RunToLost();
    LegalConcat(Both, AfterBAcks(), AEnds[..2], AEnds[2..]);
    assert AEnds[..2] + AEnds[2..] == AEnds;
  }

  lemma RunFromSent()
    ensures LegalNet(Both, AfterASends(), BReads + (BAcks + AEnds))
    ensures RunNet(Both, AfterASends(), BReads + (BAcks + AEnds)) == Lost()
  {
    RunBReads();
    RunBAcks();
    RunAEnds();
    LegalConcat(Both, AfterBReads(), BAcks, AEnds);
    LegalConcat(Both, AfterASends(), BReads, BAcks + AEnds);
  }

  lemma LostIsReachable()
    ensures Reachable(Both, Lost())
  {
    var rest := BReads + (BAcks + AEnds);
    RunASends();
    RunFromSent();
    LegalConcat(Both, StartNet(Both), ASends, rest);
    ReachedBy(Both, ASends + rest, Lost());
  }

  lemma {:induction false} ClosedStays(cfgs: Configs, s: Net, trace: seq<NetAct>)
    requires LegalNet(cfgs, s, trace) && !s.b.open
    ensures RunNet(cfgs, s, trace).b == s.b
    decreases |trace|
  {
    if trace != [] {
      ClosedStays(cfgs, NetDo(cfgs, s, trace[0]), trace[1..]);
    }
  }

  /**
   With the default configuration and no loss, failure or timeout: a's message
   has completed without error, b has accepted it and gone down before handing
   it over, and b's user does not get it in any continuation.
   */
  lemma CompletedButLost(trace: seq<NetAct>)
    requires LegalNet(Both, Lost(), trace)
    ensures Reachable(Both, Lost()) && Lost().a.snd.done == [Done(0, Acked)] && Lost().a.subs == [Control([1])]
    ensures Lost().b.accepted == [Control([1])] && RunNet(Both, Lost(), trace).b.delivered == []
  {
    LostIsReachable();
    ClosedStays(Both, Lost(), trace);
  }
}
