/** A run in which an accepted message is left without an acknowledgement although nothing is lost. */
module ForgottenExample {
  import opened SlowStart
  import opened TransportSpec
  import opened Endpoint
  import opened Network
  import opened NetworkTheorems
  import opened AckTimer
  import W = WedgeExample
  import L = LossExample

  // b has read a's message and started the timer; before it accepts the message it sends one of its own.
  const BSends: seq<NetAct> :=
    [ActB(Submit([2])), ActB(WriteNext(true)), ActB(CommitNext), ActB(PumpStops), ActB(AckEnds)]

  function AfterBCommits(): Net
  {
    var s := L.AfterBReads();
    var m := Xmit(0, Control([2]), 0, 0, 0, false, Armed(0));
    s.(b := s.b.(
         snd := Sender(Window(1, 0, 1, 4, 0, 1), [], [m], [], [OfMsg(0, W.FromB.pkt)], false),
         subs := [Control([2])], sent := 1, spc := Pumping([], false), armed := [Arming(0, 0)]),
       ba := {W.FromB})
  }

  function AfterBSends(): Net
  {
    var s := AfterBCommits();
    s.(b := s.b.(spc := Idle))
  }

  function Forgotten(): Net
  {
    var s := AfterBSends();
    s.(b := s.b.(
         snd := s.b.snd.(win := IncrementNr(s.b.snd.win)), rxq := [], accepted := [Control([1])], recvd := 1,
         rpc := Delivering(W.FromA.pkt)))
  }

  function AfterBSubmits(): Net
  {
    var s := L.AfterBReads();
    var m := Xmit(0, Control([2]), 0, 0, 0, false, Stopped);
    s.(b := s.b.(snd := s.b.snd.(tx := [m]), subs := [Control([2])], spc := Pumping([], false)))
  }

  function AfterBWrites(): Net
  {
    var s := AfterBSubmits();
    s.(b := s.b.(
         snd := s.b.snd.(tx := [], wire := [OfMsg(0, W.FromB.pkt)]), spc := Written(s.b.snd.tx[0], [], false)),
       ba := {W.FromB})
  }

  lemma BWrites()
    ensures NetEnabled(W.Both, L.AfterBReads(), BSends[0])
    ensures NetDo(W.Both, L.AfterBReads(), BSends[0]) == AfterBSubmits()
    ensures NetEnabled(W.Both, AfterBSubmits(), BSends[1])
    ensures NetDo(W.Both, AfterBSubmits(), BSends[1]) == AfterBWrites()
    ensures Fresh(L.AfterBReads()) && Fresh(AfterBSubmits()) && Fresh(AfterBWrites())
  {
    assert Emitted(W.Defaults, AfterBSubmits().b, WriteNext(true)) == {W.FromB};
  }

  lemma RunBWrites()
    ensures LegalNet(W.Both, L.AfterBReads(), BSends[..2])
    ensures RunNet(W.Both, L.AfterBReads(), BSends[..2]) == AfterBWrites()
  {
    BWrites();
    W.LegalCons(W.Both, AfterBSubmits(), BSends[1], []);
    W.LegalCons(W.Both, L.AfterBReads(), BSends[0], [BSends[1]]);
    assert BSends[..2] == [BSends[0]] + [BSends[1]];
  }

  lemma BCommits()
    ensures NetEnabled(W.Both, AfterBWrites(), BSends[2])
    ensures NetDo(W.Both, AfterBWrites(), BSends[2]) == AfterBCommits()
    ensures Fresh(AfterBWrites()) && Fresh(AfterBCommits())
  {
    var b := Do(W.Defaults, AfterBWrites().b, CommitNext);
    assert b.snd == AfterBCommits().b.snd && b.armed == AfterBCommits().b.armed;
  }

  lemma RunBCommits()
    ensures LegalNet(W.Both, L.AfterBReads(), BSends[..3])
    ensures RunNet(W.Both, L.AfterBReads(), BSends[..3]) == AfterBCommits()
  {
    RunBWrites();
    BCommits();
    W.LegalCons(W.Both, AfterBWrites(), BSends[2], []);
    assert [BSends[2]] == [BSends[2]] + [];
    W.LegalConcat(W.Both, L.AfterBReads(), BSends[..2], [BSends[2]]);
    assert BSends[..3] == BSends[..2] + [BSends[2]];
  }

  lemma RunBEnds()
    ensures LegalNet(W.Both, AfterBCommits(), BSends[3..])
    ensures RunNet(W.Both, AfterBCommits(), BSends[3..]) == AfterBSends()
  {
    var s1 := NetDo(W.Both, AfterBCommits(), BSends[3]);
    assert NetDo(W.Both, s1, BSends[4]) == AfterBSends();
    W.LegalCons(W.Both, s1, BSends[4], []);
    W.LegalCons(W.Both, AfterBCommits(), BSends[3], [BSends[4]]);
    assert BSends[3..] == [BSends[3]] + [BSends[4]];
  }

  lemma RunBSends()
    ensures LegalNet(W.Both, L.AfterBReads(), BSends) && RunNet(W.Both, L.AfterBReads(), BSends) == AfterBSends()
  {
    RunBCommits();
    RunBEnds();
    W.LegalConcat(W.Both, L.AfterBReads(), BSends[..3], BSends[3..]);
    assert BSends[..3] + BSends[3..] == BSends;
  }

  lemma RunBAccepts()
    ensures LegalNet(W.Both, AfterBSends(), [ActB(Drain)])
    ensures RunNet(W.Both, AfterBSends(), [ActB(Drain)]) == Forgotten()
  {
    assert NetDo(W.Both, AfterBSends(), ActB(Drain)) == Forgotten();
    W.LegalCons(W.Both, AfterBSends(), ActB(Drain), []);
    assert [ActB(Drain)] == [ActB(Drain)] + [];
  }

  lemma RunFromRead()
    ensures LegalNet(W.Both, L.AfterBReads(), BSends + [ActB(Drain)])
    ensures RunNet(W.Both, L.AfterBReads(), BSends + [ActB(Drain)]) == Forgotten()
  {
    RunBSends();
    RunBAccepts();
    W.LegalConcat(W.Both, L.AfterBReads(), BSends, [ActB(Drain)]);
  }

  lemma RunFromSent()
    ensures LegalNet(W.Both, W.AfterASends(), L.BReads + (BSends + [ActB(Drain)]))
    ensures RunNet(W.Both, W.AfterASends(), L.BReads + (BSends + [ActB(Drain)])) == Forgotten()
  {
    L.RunBReads();
    RunFromRead();
    W.LegalConcat(W.Both, W.AfterASends(), L.BReads, BSends + [ActB(Drain)]);
  }

  lemma ForgottenIsReachable()
    ensures Reachable(W.Both, Forgotten())
  {
    var rest := L.BReads + (BSends + [ActB(Drain)]);
    W.RunASends();
    RunFromSent();
    W.LegalConcat(W.Both, StartNet(W.Both), W.ASends, rest);
    ReachedBy(W.Both, W.ASends + rest, Forgotten());
  }

  /**
   With the default configuration and no loss, failure or timeout: b has accepted
   a's message, the one packet it has sent does not say so, and no timer is
   running that would send another.
   */
  lemma AckIsForgotten()
    ensures Reachable(W.Both, Forgotten()) && Stranded(Forgotten().b)
    ensures Forgotten().ba == {W.FromB} && W.FromB.gnr == 0 && Forgotten().b.accepted == [Control([1])]
  {
    ForgottenIsReachable();
  }
}
