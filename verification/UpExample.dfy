/** A run that ends with a session whose Up no Down will follow. */
module UpExample {
  import S = Session
  import opened Tunnel
  import opened UpTheorems
  import opened ReuseExample

  // Everything works but for the interface name.
  const Nameless: S.Io := S.Io(true, true, true, true, false, true)

  const Story: seq<Act> := [
    Begin(AllGood),
    Message(MSccrp, true, AllGood, AllGood),
    NewSession("s", 1, AllGood),
    SessionStep(0, Fine, Fine),
    Message(MSession(1, S.KIcrp), true, AllGood, AllGood),
    SessionStep(0, Fine, Nameless)
  ]

  const UpTunnel: Tun := Tun(Established, false, true, true, [S.Up], 0, 0, map[], map[])
  const Linked: Tun := UpTunnel.(byName := map["s" := 0], byId := map[1 := 0])

  function At(s: S.Sess, inbox: seq<In>): Product
  {
    Product(Linked, [Member("s", 1, s, inbox, 1, false, false)])
  }

  const Waiting: S.Sess := S.Fresh.(state := S.WaitReply)
  const Stuck: S.Sess := S.Sess(S.Established, true, true, true, [S.Up])

  function TheEnd(): Product { Product(UpTunnel, [Member("s", 1, Stuck, [], 1, false, true)]) }

  lemma TunnelComesUp(rest: seq<Act>)
    requires IndexOk(Product(UpTunnel, [])) && Legal(Product(UpTunnel, []), rest)
    ensures Legal(Start, Story[..2] + rest) && Run(Start, Story[..2] + rest) == Run(Product(UpTunnel, []), rest)
  {
    LookupTable(Idle, KOpen);
    var p1 := Do(Start, Story[0]);
    assert p1 == Product(Start.t.(state := WaitCtlReply), []);
    FireSccrp(p1, AllGood);
    assert [] + [S.Up] == [S.Up];
    assert Do(p1, Story[1]) == Product(UpTunnel, []);
    LegalCons(p1, Story[1], rest);
    LegalCons(Start, Story[0], [Story[1]] + rest);
    assert Story[..2] + rest == [Story[0]] + ([Story[1]] + rest);
  }

  lemma SessionStarts()
    ensures IndexOk(Product(UpTunnel, [])) && Enabled(Product(UpTunnel, []), Story[2])
    ensures Do(Product(UpTunnel, []), Story[2]) == At(S.Fresh, [Open])
  {
    LookupTable(Established, KNewSession);
    var p := Do(Product(UpTunnel, []), Story[2]);
    assert p.ms[0].inbox == [] + [Open] == [Open];
    assert p.ms == At(S.Fresh, [Open]).ms;
  }

  lemma RequestSent()
    ensures Enabled(At(S.Fresh, [Open]), Story[3]) && Do(At(S.Fresh, [Open]), Story[3]) == At(Waiting, [])
  {
    S.LookupTable(S.WaitTunnel, S.TunnelOpen);
    var p, p' := At(S.Fresh, [Open]), Do(At(S.Fresh, [Open]), Story[3]);
    assert Received(p.ms[0], Fine, Fine) == At(Waiting, []).ms[0];
    assert p'.ms == At(Waiting, []).ms;
  }

  lemma ReplyArrives()
    ensures var good := Msg(S.KIcrp, true);
            Enabled(At(Waiting, []), Story[4]) && Do(At(Waiting, []), Story[4]) == At(Waiting, [good])
  {
    LookupTable(Established, KSessionMsg);
    assert [] + [Msg(S.KIcrp, true)] == [Msg(S.KIcrp, true)];
  }

  lemma ReplyTaken()
    ensures var p := At(Waiting, [Msg(S.KIcrp, true)]);
            Enabled(p, Story[5]) && Dooms(p, Story[5], 0) && Do(p, Story[5]) == TheEnd()
  {
    S.LookupTable(S.WaitReply, S.Icrp);
    assert [] + [S.Up] == [S.Up];
    var p, p' := At(Waiting, [Msg(S.KIcrp, true)]), Do(At(Waiting, [Msg(S.KIcrp, true)]), Story[5]);
    assert p'.t.byName == map[] && p'.t.byId == map[];
    assert Received(p.ms[0], Fine, Nameless) == Member("s", 1, Stuck, [], 1, false, false);
    assert p'.ms == TheEnd().ms;
  }

  lemma SessionRuns()
    ensures IndexOk(At(Waiting, [])) && Legal(At(Waiting, []), Story[4..])
    ensures Run(At(Waiting, []), Story[4..]) == TheEnd()
  {
    ReplyArrives();
    ReplyTaken();
    LegalCons(At(Waiting, [Msg(S.KIcrp, true)]), Story[5], []);
    LegalCons(At(Waiting, []), Story[4], [Story[5]]);
    assert Story[4..] == [Story[4]] + [Story[5]];
  }

  lemma StoryRuns()
    ensures Legal(Start, Story) && Run(Start, Story) == TheEnd()
  {
    SessionStarts();
    RequestSent();
    SessionRuns();
    LegalCons(At(S.Fresh, [Open]), Story[3], Story[4..]);
    LegalCons(Product(UpTunnel, []), Story[2], [Story[3]] + Story[4..]);
    TunnelComesUp([Story[2]] + ([Story[3]] + Story[4..]));
    assert Story[..2] + ([Story[2]] + ([Story[3]] + Story[4..])) == Story;
  }

  /** The run exists, and from its end on the session's events stay Up, whatever follows. */
  lemma UpWithoutDown(trace: seq<Act>)
    requires IndexOk(TheEnd()) && Legal(TheEnd(), trace)
    ensures Legal(Start, Story) && Run(Start, Story) == TheEnd() && TheEnd().ms[0].exited
    ensures |Run(TheEnd(), trace).ms| > 0 && Run(TheEnd(), trace).ms[0].s.events == [S.Up]
  {
    StoryRuns();
    NoDownFollows(TheEnd(), trace, 0);
  }
}
