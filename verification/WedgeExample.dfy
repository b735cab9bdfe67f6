/** A run without loss, failure or timeout that wedges a receive queue. */
module WedgeExample {
  import opened SlowStart
  import opened TransportSpec
  import opened Endpoint
  import opened Network
  import opened NetworkTheorems

  const Defaults: Config := DefaultConfig
  const Both: Configs := Configs(Defaults, Defaults)

  // a's message, b's message, and a's explicit acknowledgement of b's message.
  const FromA: Flight := Flight(Packet(0, 0, Control([1])), 0, 0)
  const FromB: Flight := Flight(Packet(0, 0, Control([2])), 0, 0)
  const AckByA: Flight := Flight(Packet(1, 0, AckBody), 1, 0)

  // a sends a message; b sends one too and a reads it.
  const ASends: seq<NetAct> :=
    [ActA(Submit([1])), ActA(WriteNext(true)), ActA(CommitNext), ActA(PumpStops), ActA(AckEnds)]
  const BSends: seq<NetAct> := [ActB(Submit([2])), ActB(WriteNext(true)), ActB(CommitNext)]
  const AReads: seq<NetAct> := [ActA(Receive([FromB])), ActA(Hand), ActA(AckNext), ActA(AckEnds)]
  // a's acknowledgement overtakes its own message on the way to b.
  const AckOvertakes: seq<NetAct> := [ActA(AckTimerFires(true)), ActB(Receive([AckByA]))]

  function AfterASends(): Net
  {
    var win := Window(1, 0, 1, 4, 0, 1);
    var m := Xmit(0, Control([1]), 0, 0, 0, false, Armed(0));
    Net(Start(Defaults).(
          snd := Sender(win, [], [m], [], [OfMsg(0, FromA.pkt)], false), subs := [Control([1])], sent := 1,
          armed := [Arming(0, 0)]),
        Start(Defaults), {FromA}, {})
  }

  function AfterBSends(): Net
  {
    var win := Window(1, 0, 1, 4, 0, 1);
    var m := Xmit(0, Control([2]), 0, 0, 0, false, Armed(0));
    AfterASends().(
      b := Start(Defaults).(
        snd := Sender(win, [], [m], [], [OfMsg(0, FromB.pkt)], false), subs := [Control([2])], sent := 1,
        spc := Pumping([], false), armed := [Arming(0, 0)]),
      ba := {FromB})
  }

  function AfterAReads(): Net
  {
    var a := AfterBSends().a;
    AfterBSends().(a := a.(snd := a.snd.(ackTimer := true), rpc := Draining, rxq := [FromB]))
  }

  function AfterOvertaking(): Net
  {
    var a := AfterAReads().a;
    AfterAReads().(
      a := a.(snd := a.snd.(ackTimer := false, wire := a.snd.wire + [OfAck(AckByA.pkt)])),
      ab := {FromA, AckByA},
      b := AfterAReads().b.(rxq := [AckByA], rpc := Handing([Ind(true, 0, 0)])))
  }

  lemma LegalCons(cfgs: Configs, s: Net, na: NetAct, rest: seq<NetAct>)
    requires Fresh(s) && NetEnabled(cfgs, s, na) && LegalNet(cfgs, NetDo(cfgs, s, na), rest)
    ensures LegalNet(cfgs, s, [na] + rest)
    ensures RunNet(cfgs, s, [na] + rest) == RunNet(cfgs, NetDo(cfgs, s, na), rest)
  {
  }

  lemma {:induction false} LegalConcat(cfgs: Configs, s: Net, t1: seq<NetAct>, t2: seq<NetAct>)
    requires LegalNet(cfgs, s, t1) && LegalNet(cfgs, RunNet(cfgs, s, t1), t2)
    ensures LegalNet(cfgs, s, t1 + t2)
    ensures RunNet(cfgs, s, t1 + t2) == RunNet(cfgs, RunNet(cfgs, s, t1), t2)
    decreases |t1|
  {
    if t1 == [] {
      assert t1 + t2 == t2;
    } else {
      LegalConcat(cfgs, NetDo(cfgs, s, t1[0]), t1[1..], t2);
      assert (t1 + t2)[1..] == t1[1..] + t2;
    }
  }

  // a's message is in the acknowledgement queue and a is about to look for more to send.
  function AfterACommits(): Net
  {
    var done := AfterASends();
    done.(a := done.a.(spc := Pumping([], false)))
  }

  lemma RunACommits()
    ensures LegalNet(Both, StartNet(Both), ASends[..3])
    ensures RunNet(Both, StartNet(Both), ASends[..3]) == AfterACommits()
  {
    var s0 := StartNet(Both);
    var s1 := NetDo(Both, s0, ASends[0]);
    var s2 := NetDo(Both, s1, ASends[1]);
    assert Emitted(Defaults, s1.a, WriteNext(true)) == {FromA};
    var s3 := NetDo(Both, s2, ASends[2]);
    assert s3 == AfterACommits();
    LegalCons(Both, s2, ASends[2], []);
    LegalCons(Both, s1, ASends[1], [ASends[2]]);
    LegalCons(Both, s0, ASends[0], [ASends[1], ASends[2]]);
    assert ASends[..3] == [ASends[0]] + [ASends[1], ASends[2]];
  }

  lemma RunASends()
    ensures LegalNet(Both, StartNet(Both), ASends)
    ensures RunNet(Both, StartNet(Both), ASends) == AfterASends()
  {
    RunACommits();
    var s4 := NetDo(Both, AfterACommits(), ASends[3]);
    assert NetDo(Both, s4, ASends[4]) == AfterASends();
    LegalCons(Both, s4, ASends[4], []);
    LegalCons(Both, AfterACommits(), ASends[3], [ASends[4]]);
    LegalConcat(Both, StartNet(Both), ASends[..3], [ASends[3], ASends[4]]);
    assert ASends[..3] + [ASends[3], ASends[4]] == ASends;
  }

  lemma RunBSends()
    ensures LegalNet(Both, AfterASends(), BSends)
    ensures RunNet(Both, AfterASends(), BSends) == AfterBSends()
  {
    var s0 := AfterASends();
    var s1 := NetDo(Both, s0, BSends[0]);
    var s2 := NetDo(Both, s1, BSends[1]);
    assert Emitted(Defaults, s1.b, WriteNext(true)) == {FromB};
    var s3 := NetDo(Both, s2, BSends[2]);
    assert s3 == AfterBSends();
    LegalCons(Both, s2, BSends[2], []);
    LegalCons(Both, s1, BSends[1], [BSends[2]]);
    LegalCons(Both, s0, BSends[0], [BSends[1], BSends[2]]);
  }

  // a has b's message and works on its nr.
  function AfterAHands(): Net
  {
    var a := AfterBSends().a;
    AfterBSends().(a := a.(spc := Acking([Ind(false, 0, 0)], true), rpc := Draining, rxq := [FromB]))
  }

  lemma RunAHands()
    ensures LegalNet(Both, AfterBSends(), AReads[..2])
    ensures RunNet(Both, AfterBSends(), AReads[..2]) == AfterAHands()
  {
    var s0 := AfterBSends();
    var s1 := NetDo(Both, s0, AReads[0]);
    assert Packets([FromB]) == [FromB.pkt] && Indications([FromB]) == [Ind(false, 0, 0)];
    assert s1.a.rpc == Handing([Ind(false, 0, 0)]) && !s1.a.rpc.nrs[0].isAck;
    assert NetDo(Both, s1, AReads[1]) == AfterAHands();
    LegalCons(Both, s1, AReads[1], []);
    LegalCons(Both, s0, AReads[0], [AReads[1]]);
    assert AReads[..2] == [AReads[0]] + [AReads[1]];
  }

  // b's message acknowledges nothing.
  function AfterAWorks(): Net
  {
    var s := AfterAHands();
    s.(a := s.a.(spc := Acking([], true)))
  }

  lemma NothingCovered()
    ensures NetEnabled(Both, AfterAHands(), AReads[2]) && NetDo(Both, AfterAHands(), AReads[2]) == AfterAWorks()
  {
    var a := AfterAHands().a;
    assert AckPrefix(Defaults, a.snd, 0) == a.snd && a.spc.nrs[1..] == [];
    assert Do(Defaults, a, AckNext) == a.(spc := Acking([], true));
  }

  lemma RunAWorks()
    ensures LegalNet(Both, AfterAHands(), AReads[2..])
    ensures RunNet(Both, AfterAHands(), AReads[2..]) == AfterAReads()
  {
    NothingCovered();
    assert NetDo(Both, AfterAWorks(), AReads[3]) == AfterAReads();
    LegalCons(Both, AfterAWorks(), AReads[3], []);
    LegalCons(Both, AfterAHands(), AReads[2], [AReads[3]]);
    assert AReads[2..] == [AReads[2]] + [AReads[3]];
  }

  lemma RunAReads()
    ensures LegalNet(Both, AfterBSends(), AReads)
    ensures RunNet(Both, AfterBSends(), AReads) == AfterAReads()
  {
    RunAHands();
    RunAWorks();
    LegalConcat(Both, AfterBSends(), AReads[..2], AReads[2..]);
    assert AReads[..2] + AReads[2..] == AReads;
  }

  lemma RunOvertaking()
    ensures LegalNet(Both, AfterAReads(), AckOvertakes)
    ensures RunNet(Both, AfterAReads(), AckOvertakes) == AfterOvertaking()
  {
    var s0 := AfterAReads();
    var s1 := NetDo(Both, s0, AckOvertakes[0]);
    assert Emitted(Defaults, s0.a, AckTimerFires(true)) == {AckByA};
    var s2 := NetDo(Both, s1, AckOvertakes[1]);
    assert Indications([AckByA]) == [Ind(true, 0, 0)];
    assert s2 == AfterOvertaking();
    LegalCons(Both, s1, AckOvertakes[1], []);
    LegalCons(Both, s0, AckOvertakes[0], [AckOvertakes[1]]);
  }

  lemma RunFromB()
    ensures LegalNet(Both, AfterBSends(), AReads + AckOvertakes)
    ensures RunNet(Both, AfterBSends(), AReads + AckOvertakes) == AfterOvertaking()
  {
    RunAReads();
    RunOvertaking();
    LegalConcat(Both, AfterBSends(), AReads, AckOvertakes);
  }

  lemma RunFromA()
    ensures LegalNet(Both, AfterASends(), BSends + (AReads + AckOvertakes))
    ensures RunNet(Both, AfterASends(), BSends + (AReads + AckOvertakes)) == AfterOvertaking()
  {
    RunBSends();
    RunFromB();
    LegalConcat(Both, AfterASends(), BSends, AReads + AckOvertakes);
  }

  lemma OvertakingReachable()
    ensures Reachable(Both, AfterOvertaking())
  {
    RunASends();
    RunFromA();
    LegalConcat(Both, StartNet(Both), ASends, BSends + (AReads + AckOvertakes));
  }

  /**
   Reordering alone stops delivery for good: with the default configuration, one
   acknowledgement overtaking one message leaves b in a reachable state from
   which no continuation delivers the message, although its packet is still in
   flight and every retransmission of it may arrive.
   */
  lemma ReorderingStopsDelivery(trace: seq<Act>)
    requires LegalFrom(Defaults, AfterOvertaking().b, trace)
    ensures Reachable(Both, AfterOvertaking())
    ensures FromA in AfterOvertaking().ab && AfterOvertaking().a.subs == [Control([1])]
    ensures RunFrom(Defaults, AfterOvertaking().b, trace).delivered == []
  {
    OvertakingReachable();
    ReachableInv(Both, AfterOvertaking());
    assert Wedged(AfterOvertaking().b);
    WedgedForEver(Defaults, AfterOvertaking().b, trace);
  }
}
