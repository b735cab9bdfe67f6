/** A run in which a session's name is used again too early, and what becomes of its new owner. */
module ReuseExample {
  import opened Fsm
  import S = Session
  import opened Tunnel
  import opened TunnelProofs
  import opened OrphanTheorems

  const AllGood: Io := Io(true, true, true, true)
  const Fine: S.Io := S.Io(true, true, true, true, true, true)

  // The first owner of the name is asked to close, the name is taken again, the first owner finishes closing;
  // then the tunnel comes up and a message for the second owner arrives.
  const Steps: seq<Act> := [
    Begin(AllGood),
    NewSession("s", 1, AllGood),
    AskClose(0),
    NewSession("s", 2, AllGood),
    TakeClose(0, Fine),
    Message(MSccrp, true, AllGood, AllGood),
    Message(MSession(2, S.KCdn), true, AllGood, AllGood)
  ]

  function First(): Member { Member("s", 1, S.Fresh, [], 0, true, true).(s := S.Sess(S.Dead, true, false, false, [])) }

  function Second(): Member { Member("s", 2, S.Fresh, [], 0, false, false) }

  // The second owner is in the identifier index only.
  function Orphaned(): Product
  {
    Product(Start.t.(state := WaitCtlReply, byId := map[2 := 1]), [First(), Second()])
  }

  function AfterMessage(): Product
  {
    Product(
      Orphaned().t.(state := Established, established := true, hasDataPlane := true, events := [S.Up]),
      [First(), Second().(inbox := [Msg(S.KCdn, true)])])
  }

  lemma LegalCons(p: Product, a: Act, rest: seq<Act>)
    requires IndexOk(p) && Enabled(p, a) && IndexOk(Do(p, a)) && Legal(Do(p, a), rest)
    ensures Legal(p, [a] + rest) && Run(p, [a] + rest) == Run(Do(p, a), rest)
  {
  }

  // The first owner has been asked to close.
  function Asked(): Product
  {
    Product(Start.t.(state := WaitCtlReply), [Member("s", 1, S.Fresh, [], 0, true, false)])
  }

  function Created(): Product
  {
    Product(Start.t.(state := WaitCtlReply, byName := map["s" := 0], byId := map[1 := 0]),
            [Member("s", 1, S.Fresh, [], 0, false, false)])
  }

  lemma StartToCreated(rest: seq<Act>)
    requires Legal(Created(), rest)
    ensures Legal(Start, Steps[..2] + rest) && Run(Start, Steps[..2] + rest) == Run(Created(), rest)
  {
    LookupTable(Idle, KOpen);
    LookupTable(WaitCtlReply, KNewSession);
    var p1 := Do(Start, Steps[0]);
    assert Do(p1, Steps[1]) == Created();
    LegalCons(p1, Steps[1], rest);
    LegalCons(Start, Steps[0], [Steps[1]] + rest);
    assert Steps[..2] + rest == [Steps[0]] + ([Steps[1]] + rest);
  }

  lemma CreatedToAsked()
    ensures Enabled(Created(), Steps[2]) && Do(Created(), Steps[2]) == Asked()
  {
    var p := Do(Created(), Steps[2]);
    assert p.t.byName == map[] && p.t.byId == map[];
  }

  lemma UpToAsked(rest: seq<Act>)
    requires Legal(Asked(), rest)
    ensures Legal(Start, Steps[..3] + rest) && Run(Start, Steps[..3] + rest) == Run(Asked(), rest)
  {
    CreatedToAsked();
    LegalCons(Created(), Steps[2], rest);
    StartToCreated([Steps[2]] + rest);
    assert Steps[..3] + rest == Steps[..2] + ([Steps[2]] + rest);
  }

  // The name has a second owner.
  function Retaken(): Product
  {
    Product(Start.t.(state := WaitCtlReply, byName := map["s" := 1], byId := map[2 := 1]), Asked().ms + [Second()])
  }

  lemma AskedToRetaken()
    ensures Enabled(Asked(), Steps[3]) && Do(Asked(), Steps[3]) == Retaken()
  {
  }

  lemma RetakenToOrphaned()
    ensures Enabled(Retaken(), Steps[4]) && Do(Retaken(), Steps[4]) == Orphaned()
  {
  }

  lemma AskedToOrphaned(rest: seq<Act>)
    requires Legal(Orphaned(), rest)
    ensures Legal(Asked(), Steps[3..5] + rest) && Run(Asked(), Steps[3..5] + rest) == Run(Orphaned(), rest)
  {
    AskedToRetaken();
    RetakenToOrphaned();
    LegalCons(Retaken(), Steps[4], rest);
    LegalCons(Asked(), Steps[3], [Steps[4]] + rest);
    assert Steps[3..5] + rest == [Steps[3]] + ([Steps[4]] + rest);
  }

  function UpWithOrphan(): Product
  {
    Product(
      Orphaned().t.(state := Established, established := true, hasDataPlane := true, events := [S.Up]), Orphaned().ms)
  }

  lemma OrphanedComesUp()
    ensures Enabled(Orphaned(), Steps[5]) && Do(Orphaned(), Steps[5]) == UpWithOrphan()
  {
    FireSccrp(Orphaned(), AllGood);
    var p := Do(Orphaned(), Steps[5]);
    assert p.ms == Orphaned().ms;
    assert [] + [S.Up] == [S.Up];
  }

  lemma OrphanGetsMessage()
    ensures Enabled(UpWithOrphan(), Steps[6]) && Do(UpWithOrphan(), Steps[6]) == AfterMessage()
  {
    LookupTable(Established, KSessionMsg);
    var p := Do(UpWithOrphan(), Steps[6]);
    assert [] + [Msg(S.KCdn, true)] == [Msg(S.KCdn, true)];
    assert p.ms == AfterMessage().ms;
  }

  lemma FromOrphaned()
    ensures Legal(Orphaned(), Steps[5..]) && Run(Orphaned(), Steps[5..]) == AfterMessage()
  {
    OrphanedComesUp();
    OrphanGetsMessage();
    LegalCons(UpWithOrphan(), Steps[6], []);
    LegalCons(Orphaned(), Steps[5], [Steps[6]]);
    assert Steps[5..] == [Steps[5]] + ([Steps[6]] + []);
  }

  lemma StepsRun()
    ensures Legal(Start, Steps) && Run(Start, Steps) == AfterMessage()
  {
    FromOrphaned();
    AskedToOrphaned(Steps[5..]);
    UpToAsked(Steps[3..5] + Steps[5..]);
    assert Steps[..3] + (Steps[3..5] + Steps[5..]) == Steps;
  }

  lemma UpRun()
    ensures Legal(Start, Steps[..6]) && Run(Start, Steps[..6]) == UpWithOrphan()
  {
    OrphanedComesUp();
    LegalCons(Orphaned(), Steps[5], []);
    AskedToOrphaned([Steps[5]]);
    UpToAsked(Steps[3..5] + [Steps[5]]);
    assert Steps[..3] + (Steps[3..5] + [Steps[5]]) == Steps[..6];
  }

  lemma OrphanIsOne()
    ensures Inv(UpWithOrphan()) && Orphan(UpWithOrphan(), 1) && Asleep(UpWithOrphan().ms[1])
  {
    UpRun();
    RunKeeps(Start, Steps[..6]);
  }

  /**
   Closing unlinks by name, so the first owner's closing takes the second owner
   out of the name index before the tunnel comes up.  In every continuation the
   second owner is not told that the tunnel is up; and it runs on, through any
   closing of the tunnel, until its own owner asks it to close or a message for
   it arrives.
   */
  lemma ReuseOrphansSession(trace: seq<Act>)
    requires Legal(UpWithOrphan(), trace)
    ensures Legal(Start, Steps[..6]) && Run(Start, Steps[..6]) == UpWithOrphan()
    ensures |Run(UpWithOrphan(), trace).ms| > 1 && Run(UpWithOrphan(), trace).ms[1].opens == 0
    ensures Undisturbed(UpWithOrphan(), trace, 1) ==> Run(UpWithOrphan(), trace).ms[1] == Second()
  {
    UpRun();
    OrphanIsOne();
    NeverTold(UpWithOrphan(), trace, 1);
    if Undisturbed(UpWithOrphan(), trace, 1) {
      OrphanSurvives(UpWithOrphan(), trace, 1);
    }
  }

  /** If a message does arrive, the second owner's state has no row for it. */
  lemma OrphanMeetsUndefinedEvent()
    ensures Legal(Start, Steps) && Run(Start, Steps) == AfterMessage()
    ensures AfterMessage().ms[1].inbox == [Msg(S.KCdn, true)]
    ensures Lookup(S.Table, AfterMessage().ms[1].s.state, S.EventOf(S.KCdn)) == NoRow
  {
    StepsRun();
    S.LookupTable(S.WaitTunnel, S.Cdn);
  }

  lemma OneStep(p: Product, a: Act, k: nat)
    requires Inv(p) && Orphan(p, k) && Enabled(p, a) && !Disturbs(p, a, k)
    ensures Legal(p, [a]) && Undisturbed(p, [a], k)
  {
    StepKeeps(p, a);
    OrphanStep(p, a, k);
    assert [a][1..] == [];
  }

  /** The closing of the tunnel is such a continuation, and leaves the second owner in the identifier index. */
  lemma OrphanOutlivesTunnel(io: Io)
    ensures Enabled(UpWithOrphan(), UserClose(io)) && Legal(UpWithOrphan(), [UserClose(io)])
    ensures Undisturbed(UpWithOrphan(), [UserClose(io)], 1)
    ensures var p := Do(UpWithOrphan(), UserClose(io)); p.t.state == Dead && p.t.isClosing && p.t.byId == map[2 := 1]
  {
    OrphanIsOne();
    OneStep(UpWithOrphan(), UserClose(io), 1);
    ClosedWithOrphan(io);
  }

  lemma ClosedWithOrphan(io: Io)
    ensures var p := Do(UpWithOrphan(), UserClose(io)); p.t.state == Dead && p.t.isClosing && p.t.byId == map[2 := 1]
  {
    var dead := UpWithOrphan().(t := UpWithOrphan().t.(state := Dead));
    FireIsRaise(UpWithOrphan(), io);
    RaiseCloseIs(UpWithOrphan(), io);
    ClosedWithNone(dead);
  }

  // Closing a tunnel without sessions in the name index leaves the identifier index alone.
  lemma ClosedWithNone(p: Product)
    requires IndexOk(p) && p.t.byName == map[]
    ensures CloseTunnel(p).t.isClosing && CloseTunnel(p).t.byId == p.t.byId && CloseTunnel(p).t.state == p.t.state
  {
    assert LinkedIds(p) == {};
  }
}
