/** What the product of a tunnel and its sessions guarantees in every run. */
module TunnelTheorems {
  import opened Fsm
  import S = Session
  import opened Tunnel
  import opened TunnelProofs

  ghost predicate Reachable(p: Product)
  {
    exists trace :: Legal(Start, trace) && Run(Start, trace) == p
  }

  lemma ReachableInv(p: Product)
    requires Reachable(p)
    ensures Inv(p)
  {
    var trace :| Legal(Start, trace) && Run(Start, trace) == p;
    RunKeeps(Start, trace);
  }

  // ---------- Brackets, teardown, notification: any names ----------

  /**
   User events of the tunnel and of every session come as a prefix of Up, Down;
   a session's Up follows the tunnel's.
   */
  lemma EventBrackets(p: Product, k: nat)
    requires Reachable(p) && k < |p.ms|
    ensures p.t.events <= [S.Up, S.Down]
    ensures p.ms[k].s.events <= [S.Up, S.Down]
    ensures p.ms[k].s.events != [] ==> p.t.events != []
  {
    ReachableInv(p);
    assert MemberInv(p.t, p.ms[k]);
  }

  /** The transport is closed and the data plane taken down at most once, and exactly once after closing. */
  lemma TeardownOnce(p: Product)
    requires Reachable(p)
    ensures p.t.xportCloses == (if p.t.isClosing then 1 else 0)
    ensures p.t.dpDowns == (if p.t.isClosing && p.t.hasDataPlane then 1 else 0)
    ensures p.t.state == Dead ==> p.t.isClosing && p.t.byName == map[] && !p.t.established
  {
    ReachableInv(p);
  }

  // What a tunnel that has closed keeps for good.
  predicate SameEnd(t: Tun, t': Tun)
  {
    && t'.isClosing && (t.state == Dead ==> t'.state == Dead) && !t'.established
    && t'.events == t.events && t'.xportCloses == t.xportCloses && t'.dpDowns == t.dpDowns
    && t'.byName == map[]
  }

  // The turns of the loop that come after closing change at most the state, and it only to Dead.
  lemma ClosedStep(p: Product, a: Act)
    requires Inv(p) && p.t.isClosing && Enabled(p, a)
    ensures SameEnd(p.t, Do(p, a).t)
  {
    if a.UserClose? {
      CloseAgain(p, a.io);
    } else if a.TransportDown? {
      CloseAgain(p, Io(true, true, true, true));
    }
  }

  /**
   Closing is for good: in every continuation, second and third closes
   included, the tunnel reports nothing more, its transport is not closed again
   and its data plane not taken down again, and dead stays dead.
   */
  lemma {:induction false} ClosedForEver(p: Product, trace: seq<Act>)
    requires Inv(p) && p.t.isClosing && Legal(p, trace)
    ensures SameEnd(p.t, Run(p, trace).t)
    decreases |trace|
  {
    if trace != [] {
      StepKeeps(p, trace[0]);
      ClosedStep(p, trace[0]);
      ClosedForEver(Do(p, trace[0]), trace[1..]);
    }
  }

  // A session that has exited is changed by nothing.
  lemma {:induction false} ExitedForEver(p: Product, trace: seq<Act>, k: nat)
    requires Inv(p) && Legal(p, trace) && k < |p.ms| && p.ms[k].exited
    ensures k < |Run(p, trace).ms| && Run(p, trace).ms[k].exited && Run(p, trace).ms[k].s == p.ms[k].s
    decreases |trace|
  {
    if trace != [] {
      StepKeeps(p, trace[0]);
      DeadSessionUntouched(p, trace[0], k);
      ExitedForEver(Do(p, trace[0]), trace[1..], k);
    }
  }

  /** Dead is absorbing, for the tunnel and for every session, in every continuation of every run. */
  lemma DeadIsAbsorbing(p: Product, trace: seq<Act>, k: nat)
    requires Reachable(p) && IndexOk(p) && Legal(p, trace)
    ensures p.t.state == Dead ==> Run(p, trace).t.state == Dead && Run(p, trace).t.events == p.t.events
    ensures k < |p.ms| && p.ms[k].s.state == S.Dead ==>
              k < |Run(p, trace).ms| && Run(p, trace).ms[k].s == p.ms[k].s
  {
    ReachableInv(p);
    if p.t.state == Dead {
      ClosedForEver(p, trace);
    }
    if k < |p.ms| && p.ms[k].s.state == S.Dead {
      assert MemberInv(p.t, p.ms[k]);
      ExitedForEver(p, trace, k);
    }
  }

  lemma DeadSessionUntouched(p: Product, a: Act, k: nat)
    requires Inv(p) && Enabled(p, a) && k < |p.ms| && p.ms[k].exited
    ensures k < |Do(p, a).ms| && Do(p, a).ms[k].s == p.ms[k].s && Do(p, a).ms[k].exited
  {
    match a
    case Begin(io) => FireOnMember(p, EvOpen, io, k);
    case Message(m, valid, io, io') =>
      FireOnMember(p, EvClose, io, k);
      FireKeeps(p, EvClose, io);
      var p1 := if valid then p else Fire(p, EvClose, io);
      if !m.MHello? { FireOnMember(p1, EventOf(m, valid), io', k); }
    case UserClose(io) => FireOnMember(p, EvClose, io, k);
    case NewSession(name, id, io) =>
      var p1 := p.(ms := p.ms + [Member(name, id, S.Fresh, [], 0, false, false)]);
      assert p1.ms[k] == p.ms[k];
      FireOnMember(p1, EvNewSession(|p.ms|), io, k);
    case _ =>
  }

  // The tunnel either leaves a session's own state alone or kills it.
  predicate LeftOrKilled(m: Member, m': Member)
  {
    if m'.exited == m.exited then m'.s == m.s else !m.exited && m'.s == S.Closed(m.s)
  }

  lemma CloseOnMember(p: Product, k: nat)
    requires IndexOk(p) && k < |p.ms|
    ensures k < |CloseTunnel(p).ms| && LeftOrKilled(p.ms[k], CloseTunnel(p).ms[k])
  {
  }

  lemma AfterOnMember(act: Action, e: Event, io: Io, p: Product, k: nat)
    requires IndexOk(p) && (e.EvNewSession? ==> e.k < |p.ms|) && Suits(act, e) && k < |p.ms|
    requires act == OnSccrp ==> p.t.state == Established
    ensures k < |After(act, e, io, p).ms| && LeftOrKilled(p.ms[k], After(act, e, io, p).ms[k])
  {
    CloseOnMember(p, k);
    if act == OnSccrp {
      RaiseCloseIs(p, io);
      CloseOnMember(p.(t := p.t.(state := Dead)), k);
    }
  }

  lemma FireOnMember(p: Product, e: Event, io: Io, k: nat)
    requires IndexOk(p) && (e.EvNewSession? ==> e.k < |p.ms|) && k < |p.ms|
    ensures k < |Fire(p, e, io).ms| && LeftOrKilled(p.ms[k], Fire(p, e, io).ms[k])
  {
    LookupTable(p.t.state, KindOf(e));
    var m := Lookup(Table, p.t.state, KindOf(e));
    if m.NoRow? {
      CloseOnMember(p, k);
    } else {
      AfterOnMember(m.act, e, io, p.(t := p.t.(state := m.to)), k);
    }
  }

  /**
   Each session is told that the tunnel is up at most once, and not before the
   tunnel has reported up; a session linked while the tunnel is up has been told.
   */
  lemma ToldAtMostOnce(p: Product, k: nat)
    requires Reachable(p) && k < |p.ms|
    ensures p.ms[k].opens <= 1
    ensures p.ms[k].opens == 1 ==> p.t.events != []
    ensures !p.t.isClosing && p.t.state == Established && k in p.t.byName.Values ==> p.ms[k].opens == 1
  {
    ReachableInv(p);
    assert MemberInv(p.t, p.ms[k]);
  }

  // ---------- Indexes: names that are not reused too early ----------

  // A session that may still unlink its name and identifier.
  predicate Live(m: Member) { !(m.exited && m.closeAsked) }

  predicate Unique(p: Product)
  {
    forall j, k | 0 <= j < k < |p.ms| && Live(p.ms[j]) && Live(p.ms[k]) ::
      p.ms[j].name != p.ms[k].name && p.ms[j].id != p.ms[k].id
  }

  predicate NamesPaired(p: Product)
    requires IndexOk(p)
  {
    forall n | n in p.t.byName ::
      var id := p.ms[p.t.byName[n]].id; id in p.t.byId && p.t.byId[id] == p.t.byName[n]
  }

  predicate IdsPaired(p: Product)
    requires IndexOk(p)
  {
    forall i | i in p.t.byId ::
      var n := p.ms[p.t.byId[i]].name; n in p.t.byName && p.t.byName[n] == p.t.byId[i]
  }

  // The two indexes hold the same sessions.
  predicate Paired(p: Product)
    requires IndexOk(p)
  {
    NamesPaired(p) && IdsPaired(p)
  }

  // A running session's next input is one its state has a row for.
  predicate InboxOk(m: Member)
  {
    !m.exited ==>
      && (m.s.state == S.WaitTunnel && m.opens == 0 ==> m.inbox == [])
      && (m.s.state == S.WaitTunnel && m.opens == 1 ==> m.inbox != [] && m.inbox[0] == Open)
      && (forall j | 0 <= j < |m.inbox| && m.inbox[j] == Open :: j == 0 && m.s.state == S.WaitTunnel)
  }

  predicate StrongInv(p: Product)
  {
    && Inv(p) && Unique(p) && Paired(p)
    && (forall k | 0 <= k < |p.ms| :: InboxOk(p.ms[k]))
  }

  lemma NamesAfterUnlink(p: Product, k: nat, m: Member)
    requires IndexOk(p) && NamesInv(p) && Unique(p) && NamesPaired(p) && k < |p.ms| && Live(p.ms[k])
    requires m.name == p.ms[k].name && m.id == p.ms[k].id
    ensures IndexOk(Product(Unlink(p.t, m), p.ms[k := m])) && NamesPaired(Product(Unlink(p.t, m), p.ms[k := m]))
  {
    var p' := Product(Unlink(p.t, m), p.ms[k := m]);
    forall n | n in p'.t.byName
      ensures var id := p'.ms[p'.t.byName[n]].id; id in p'.t.byId && p'.t.byId[id] == p'.t.byName[n]
    {
      var j := p.t.byName[n];
      assert LinkedOk(p, j) && j != k;
      assert p.ms[j].id != m.id;
    }
  }

  lemma IdsAfterUnlink(p: Product, k: nat, m: Member)
    requires IndexOk(p) && NamesInv(p) && Unique(p) && IdsPaired(p) && k < |p.ms| && Live(p.ms[k])
    requires m.name == p.ms[k].name && m.id == p.ms[k].id
    ensures IndexOk(Product(Unlink(p.t, m), p.ms[k := m])) && IdsPaired(Product(Unlink(p.t, m), p.ms[k := m]))
  {
    var p' := Product(Unlink(p.t, m), p.ms[k := m]);
    forall i | i in p'.t.byId
      ensures var n := p'.ms[p'.t.byId[i]].name; n in p'.t.byName && p'.t.byName[n] == p'.t.byId[i]
    {
      var j := p.t.byId[i];
      assert LinkedOk(p, j) && j != k;
      assert p.ms[j].name != m.name;
    }
  }

  lemma PairedAfterUnlink(p: Product, k: nat, m: Member)
    requires StrongInv(p) && k < |p.ms| && Live(p.ms[k])
    requires m.name == p.ms[k].name && m.id == p.ms[k].id
    ensures IndexOk(Product(Unlink(p.t, m), p.ms[k := m])) && Paired(Product(Unlink(p.t, m), p.ms[k := m]))
  {
    NamesAfterUnlink(p, k, m);
    IdsAfterUnlink(p, k, m);
  }

  lemma UniqueKept(p: Product, k: nat, m: Member)
    requires Unique(p) && k < |p.ms| && m.name == p.ms[k].name && m.id == p.ms[k].id
    requires Live(m) ==> Live(p.ms[k])
    ensures Unique(p.(ms := p.ms[k := m]))
  {
  }

  lemma ClosePairs(p: Product)
    requires WeakInv(p) && Paired(p) && !p.t.isClosing
    ensures CloseTunnel(p).t.byId == map[] && CloseTunnel(p).t.byName == map[]
  {
    var p' := CloseTunnel(p);
    forall i | i in p.t.byId
      ensures i in LinkedIds(p)
    {
      var n := p.ms[p.t.byId[i]].name;
      assert n in p.t.byName && p.t.byName[n] == p.t.byId[i];
      assert p.ms[p.t.byName[n]].id == i;
    }
  }

  lemma CloseStrong(p: Product)
    requires WeakInv(p) && Unique(p) && Paired(p) && Inv(CloseTunnel(p))
    requires forall k | 0 <= k < |p.ms| :: InboxOk(p.ms[k])
    ensures StrongInv(CloseTunnel(p))
  {
    if !p.t.isClosing {
      ClosePairs(p);
      var p' := CloseTunnel(p);
      forall k | 0 <= k < |p'.ms|
        ensures InboxOk(p'.ms[k]) && p'.ms[k].name == p.ms[k].name && p'.ms[k].id == p.ms[k].id
        ensures Live(p'.ms[k]) ==> Live(p.ms[k])
      {
        assert InboxOk(p.ms[k]);
      }
    }
  }

  lemma NamesAfterLink(p: Product, k: nat)
    requires IndexOk(p) && NamesPaired(p) && k < |p.ms| && p.ms[k].id !in p.t.byId
    ensures IndexOk(Link(p, k)) && NamesPaired(Link(p, k))
  {
  }

  lemma IdsAfterLink(p: Product, k: nat)
    requires IndexOk(p) && IdsPaired(p) && k < |p.ms| && p.ms[k].name !in p.t.byName
    ensures IndexOk(Link(p, k)) && IdsPaired(Link(p, k))
  {
  }

  lemma LinkPairs(p: Product, k: nat)
    requires IndexOk(p) && Paired(p) && k < |p.ms|
    requires p.ms[k].name !in p.t.byName && p.ms[k].id !in p.t.byId
    ensures IndexOk(Link(p, k)) && Paired(Link(p, k))
  {
    NamesAfterLink(p, k);
    IdsAfterLink(p, k);
  }

  // Neither the indexes nor what they go by has changed.
  lemma SamePaired(p: Product, p': Product)
    requires IndexOk(p) && Paired(p) && p'.t.byName == p.t.byName && p'.t.byId == p.t.byId && |p.ms| <= |p'.ms|
    requires forall j | 0 <= j < |p.ms| :: p'.ms[j].name == p.ms[j].name && p'.ms[j].id == p.ms[j].id
    ensures IndexOk(p') && Paired(p')
  {
  }

  // The state moves and the tunnel closes: the members are those of closing before the move.
  lemma CloseAfterMove(p: Product, to: State)
    requires StrongInv(p) && !p.t.isClosing && p.t.state != Idle && p.t.state != Dead
    requires to == Dead || to == Established
    ensures StrongInv(CloseTunnel(p.(t := p.t.(state := to))))
  {
    CloseKeeps(p);
    CloseInto(p, to);
    CloseStrong(p);
    var q, q' := CloseTunnel(p), CloseTunnel(p.(t := p.t.(state := to)));
    assert q' == q.(t := q.t.(state := to));
  }

  lemma ReportUpStrong(p: Product)
    requires StrongInv(p) && p.t.state == WaitCtlReply && !p.t.isClosing
    ensures StrongInv(ReportUp(p.(t := p.t.(state := Established))))
  {
    ReportUpKeeps(p);
    var p' := ReportUp(p.(t := p.t.(state := Established)));
    forall k | 0 <= k < |p'.ms|
      ensures InboxOk(p'.ms[k])
    {
      assert MemberInv(p.t, p.ms[k]) && InboxOk(p.ms[k]);
    }
  }

  lemma ForwardStrong(p: Product, e: Event)
    requires StrongInv(p) && p.t.state == Established && !p.t.isClosing && e.EvSessionMsg?
    ensures StrongInv(Forward(p, e))
  {
    ForwardKeeps(p, e);
    var p' := Forward(p, e);
    if e.sid in p.t.byId {
      var k := p.t.byId[e.sid];
      var n := p.ms[k].name;
      assert n in p.t.byName && p.t.byName[n] == k;
      assert p.ms[p.t.byName[n]].opens == 1;
      assert InboxOk(p.ms[k]);
    }
  }

  // A session that has just been created.
  predicate FreshIn(p: Product, k: nat)
  {
    && LinkedOk(p, k) && p.ms[k].opens == 0 && p.ms[k].inbox == [] && p.ms[k].s == S.Fresh
    && p.ms[k].name !in p.t.byName && p.ms[k].id !in p.t.byId
  }

  lemma LinkStrong(p: Product, k: nat)
    requires StrongInv(p) && !p.t.isClosing && p.t.state == WaitCtlReply && FreshIn(p, k)
    ensures StrongInv(Link(p, k))
  {
    LinkKeeps(p, k);
    LinkPairs(p, k);
  }

  lemma StartStrong(p: Product, k: nat)
    requires StrongInv(p) && !p.t.isClosing && p.t.state == Established && FreshIn(p, k)
    ensures StrongInv(Link(p, k).(ms := p.ms[k := OpenOne(p.ms[k])]))
  {
    StartKeeps(p, k);
    LinkPairs(p, k);
    SamePaired(Link(p, k), Link(p, k).(ms := p.ms[k := OpenOne(p.ms[k])]));
    UniqueKept(p, k, OpenOne(p.ms[k]));
    assert InboxOk(p.ms[k]);
  }

  lemma OnSccrpStrong(p: Product, io: Io)
    requires StrongInv(p) && !p.t.isClosing && p.t.state == WaitCtlReply
    ensures StrongInv(Fire(p, EvSccrp, io))
  {
    FireSccrp(p, io);
    if io.peerIdFound && io.built && io.sent && io.dataPlane {
      ReportUpStrong(p);
    } else if io.peerIdFound && !(io.built && io.sent) {
      CloseAfterMove(p, Established);
    } else {
      CloseAfterMove(p, Dead);
    }
  }

  lemma OpenStrong(p: Product, io: Io)
    requires StrongInv(p) && !p.t.isClosing && p.t.state == Idle
    ensures StrongInv(Fire(p, EvOpen, io))
  {
    LookupTable(Idle, KOpen);
    var p' := p.(t := p.t.(state := WaitCtlReply));
    StateMoves(p, WaitCtlReply);
    CloseKeeps(p');
    CloseStrong(p');
  }

  lemma FireStrong(p: Product, e: Event, io: Io)
    requires StrongInv(p) && (p.t.isClosing ==> p.t.state == Dead)
    requires e.EvNewSession? ==> FreshIn(p, e.k)
    ensures StrongInv(Fire(p, e, io))
  {
    LookupTable(p.t.state, KindOf(e));
    match Lookup(Table, p.t.state, KindOf(e))
    case NoRow =>
      CloseKeeps(p);
      CloseStrong(p);
    case Found(act, to) =>
      match act
      case SendSccrq => OpenStrong(p, io);
      case OnSccrp => OnSccrpStrong(p, io);
      case OnStopccn => CloseAfterMove(p, Dead);
      case SendStopccn => CloseAfterMove(p, Dead);
      case Nothing => assert Fire(p, e, io) == p;
      case LinkSession => LinkStrong(p, e.k);
      case StartSession => StartStrong(p, e.k);
      case ForwardMsg => ForwardStrong(p, e);
  }

  // ---------- Session steps ----------

  lemma ReceivedInbox(t: Tun, m: Member, sio: S.Io, sio': S.Io)
    requires MemberInv(t, m) && InboxOk(m) && !m.exited && m.inbox != []
    ensures var m' := Received(m, sio, sio'); InboxOk(m'.(exited := m'.s.isClosed))
  {
    var m' := Received(m, sio, sio');
    S.LookupTable(m.s.state, S.TunnelOpen);
    assert forall j | 0 <= j < |m'.inbox| :: m'.inbox[j] == m.inbox[j + 1];
    match m.inbox[0]
    case Open => S.FireKeeps(m.s, S.TunnelOpen, sio);
    case Msg(kind, valid) =>
      HandleMsgKeeps(m.s, kind, valid, sio, sio');
      MsgLeavesWaitTunnel(m.s, kind, valid, sio, sio');
  }

  lemma MsgLeavesWaitTunnel(s: S.Sess, k: S.MsgKind, valid: bool, io: S.Io, io': S.Io)
    requires S.SessInv(s) && !s.isClosed && s.state != S.WaitTunnel
    ensures S.HandleMsg(s, k, valid, io, io').state != S.WaitTunnel
  {
    S.FireKeeps(s, S.Close, io);
    var s1 := if valid then s else S.Fire(s, S.Close, io);
    S.FireKeeps(s1, S.EventOf(k), io');
  }

  lemma AfterSessionStrong(p: Product, k: nat, m: Member)
    requires StrongInv(p) && k < |p.ms| && !p.ms[k].exited && Inv(AfterSession(p, k, m))
    requires m.name == p.ms[k].name && m.id == p.ms[k].id && !m.exited && m.closeAsked == p.ms[k].closeAsked
    requires InboxOk(m.(exited := m.s.isClosed))
    ensures StrongInv(AfterSession(p, k, m))
  {
    if m.s.isClosed {
      var m' := m.(exited := true);
      UniqueKept(p, k, m');
      PairedAfterUnlink(p, k, m');
    } else {
      UniqueKept(p, k, m);
    }
  }

  lemma AskCloseStrong(p: Product, k: nat)
    requires StrongInv(p) && Enabled(p, AskClose(k))
    ensures StrongInv(Do(p, AskClose(k)))
  {
    StepKeeps(p, AskClose(k));
    var m := p.ms[k].(closeAsked := true);
    UniqueKept(p, k, m);
    PairedAfterUnlink(p, k, m);
    assert InboxOk(p.ms[k]);
  }

  lemma CreatedUnique(p: Product, m: Member)
    requires Unique(p)
    requires forall k | 0 <= k < |p.ms| && Live(p.ms[k]) :: p.ms[k].name != m.name && p.ms[k].id != m.id
    ensures Unique(p.(ms := p.ms + [m]))
  {
  }

  // The session exists, and nothing has been told of it.
  lemma CreatedStrong(p: Product, name: string, id: int, io: Io)
    requires StrongInv(p) && Enabled(p, NewSession(name, id, io)) && NoReuse(p, NewSession(name, id, io))
    ensures var p1 := p.(ms := p.ms + [Member(name, id, S.Fresh, [], 0, false, false)]);
            StrongInv(p1) && FreshIn(p1, |p.ms|)
  {
    var m := Member(name, id, S.Fresh, [], 0, false, false);
    CreatedKeeps(p, m);
    SamePaired(p, p.(ms := p.ms + [m]));
    CreatedUnique(p, m);
  }

  lemma NewSessionStrong(p: Product, name: string, id: int, io: Io)
    requires StrongInv(p) && Enabled(p, NewSession(name, id, io)) && NoReuse(p, NewSession(name, id, io))
    ensures StrongInv(Do(p, NewSession(name, id, io)))
  {
    CreatedStrong(p, name, id, io);
    FireStrong(p.(ms := p.ms + [Member(name, id, S.Fresh, [], 0, false, false)]), EvNewSession(|p.ms|), io);
  }

  lemma StepStrong(p: Product, a: Act)
    requires StrongInv(p) && Enabled(p, a) && NoReuse(p, a)
    ensures StrongInv(Do(p, a))
  {
    match a
    case Begin(io) => FireStrong(p, EvOpen, io);
    case Message(m, valid, io, io') =>
      FireStrong(p, EvClose, io);
      FireKeeps(p, EvClose, io);
      var p1 := if valid then p else Fire(p, EvClose, io);
      if !m.MHello? {
        FireStrong(p1, EventOf(m, valid), io');
      }
    case UserClose(io) => if p.t.isClosing { CloseAgain(p, io); } else { FireStrong(p, EvClose, io); }
    case TransportDown =>
      CloseKeeps(p);
      CloseStrong(p);
    case NewSession(name, id, io) => NewSessionStrong(p, name, id, io);
    case SessionStep(k, sio, sio') =>
      StepKeeps(p, a);
      ReceivedInbox(p.t, p.ms[k], sio, sio');
      AfterSessionStrong(p, k, Received(p.ms[k], sio, sio'));
    case AskClose(k) => AskCloseStrong(p, k);
    case TakeClose(k, sio) =>
      StepKeeps(p, a);
      TakeCloseKeeps(p.t, p.ms[k], sio);
      AfterSessionStrong(p, k, p.ms[k].(s := S.Fire(p.ms[k].s, S.Close, sio)));
  }

  // ---------- Running sessions stay findable ----------

  predicate FoundAs(p: Product, k: nat)
    requires k < |p.ms|
  {
    && p.ms[k].name in p.t.byName && p.t.byName[p.ms[k].name] == k
    && p.ms[k].id in p.t.byId && p.t.byId[p.ms[k].id] == k
  }

  // Every session that neither has exited nor was asked to close is in both indexes.
  predicate Registered(p: Product)
  {
    !p.t.isClosing ==> forall k | 0 <= k < |p.ms| && LinkedOk(p, k) :: FoundAs(p, k)
  }

  predicate SameIndexes(p: Product, p': Product)
  {
    && p'.t.byName == p.t.byName && p'.t.byId == p.t.byId && |p'.ms| == |p.ms|
    && (forall k | 0 <= k < |p.ms| ::
          && p'.ms[k].name == p.ms[k].name && p'.ms[k].id == p.ms[k].id
          && p'.ms[k].exited == p.ms[k].exited && p'.ms[k].closeAsked == p.ms[k].closeAsked)
  }

  lemma AfterLeavesIndexes(act: Action, e: Event, io: Io, p: Product)
    requires IndexOk(p) && !e.EvNewSession? && Suits(act, e) && (act == OnSccrp ==> p.t.state == Established)
    ensures After(act, e, io, p).t.isClosing || SameIndexes(p, After(act, e, io, p))
    ensures p.t.isClosing ==> After(act, e, io, p).t.isClosing
  {
    if act == OnSccrp {
      RaiseCloseIs(p, io);
    }
  }

  lemma FireLeavesIndexes(p: Product, e: Event, io: Io)
    requires IndexOk(p) && !e.EvNewSession?
    ensures Fire(p, e, io).t.isClosing || SameIndexes(p, Fire(p, e, io))
    ensures p.t.isClosing ==> Fire(p, e, io).t.isClosing
  {
    LookupTable(p.t.state, KindOf(e));
    var m := Lookup(Table, p.t.state, KindOf(e));
    if m.Found? {
      AfterLeavesIndexes(m.act, e, io, p.(t := p.t.(state := m.to)));
    }
  }

  // What creating a session does to the product, whatever state takes it.
  lemma NewIs(p: Product, name: string, id: int, io: Io)
    requires Inv(p) && Enabled(p, NewSession(name, id, io))
    ensures var p' := Do(p, NewSession(name, id, io));
            && |p'.ms| == |p.ms| + 1 && LinkedOk(p', |p.ms|) && !p'.t.isClosing
            && p'.ms[|p.ms|].name == name && p'.ms[|p.ms|].id == id
            && (forall k | 0 <= k < |p.ms| :: p'.ms[k] == p.ms[k])
            && p'.t.byName == p.t.byName[name := |p.ms|] && p'.t.byId == p.t.byId[id := |p.ms|]
  {
    LookupTable(p.t.state, KNewSession);
  }

  lemma NewRegistered(p: Product, name: string, id: int, io: Io)
    requires StrongInv(p) && Registered(p) && Enabled(p, NewSession(name, id, io))
    ensures Registered(Do(p, NewSession(name, id, io)))
  {
    var p' := Do(p, NewSession(name, id, io));
    NewIs(p, name, id, io);
    forall k | 0 <= k < |p'.ms| && LinkedOk(p', k)
      ensures FoundAs(p', k)
    {
      if k < |p.ms| {
        assert LinkedOk(p, k) && FoundAs(p, k);
      }
    }
  }

  lemma UnlinkRegistered(p: Product, k: nat, m: Member)
    requires StrongInv(p) && Registered(p) && k < |p.ms| && Live(p.ms[k])
    requires m.name == p.ms[k].name && m.id == p.ms[k].id && (m.exited || m.closeAsked)
    ensures Registered(Product(Unlink(p.t, m), p.ms[k := m]))
  {
    var p' := Product(Unlink(p.t, m), p.ms[k := m]);
    if !p'.t.isClosing {
      forall j | 0 <= j < |p'.ms| && LinkedOk(p', j)
        ensures FoundAs(p', j)
      {
        assert j != k && LinkedOk(p, j) && FoundAs(p, j);
        assert p.ms[j].name != m.name && p.ms[j].id != m.id;
      }
    }
  }

  lemma SameRegistered(p: Product, p': Product)
    requires Registered(p) && (p.t.isClosing ==> p'.t.isClosing)
    requires p'.t.isClosing || SameIndexes(p, p')
    ensures Registered(p')
  {
    if !p'.t.isClosing {
      forall k | 0 <= k < |p'.ms| && LinkedOk(p', k)
        ensures FoundAs(p', k)
      {
        assert LinkedOk(p, k) && FoundAs(p, k);
      }
    }
  }

  lemma FireRegistered(p: Product, e: Event, io: Io)
    requires IndexOk(p) && Registered(p) && !e.EvNewSession?
    ensures Registered(Fire(p, e, io))
  {
    FireLeavesIndexes(p, e, io);
    SameRegistered(p, Fire(p, e, io));
  }

  lemma StepRegistered(p: Product, a: Act)
    requires StrongInv(p) && Registered(p) && Enabled(p, a)
    ensures Registered(Do(p, a))
  {
    match a
    case Begin(io) => FireRegistered(p, EvOpen, io);
    case Message(m, valid, io, io') =>
      FireRegistered(p, EvClose, io);
      FireIndexOk(p, EvClose, io);
      var p1 := if valid then p else Fire(p, EvClose, io);
      if !m.MHello? {
        FireRegistered(p1, EventOf(m, valid), io');
      }
    case UserClose(io) => FireRegistered(p, EvClose, io);
    case TransportDown =>
    case NewSession(name, id, io) => NewRegistered(p, name, id, io);
    case SessionStep(k, sio, sio') =>
      var m := Received(p.ms[k], sio, sio');
      if m.s.isClosed {
        UnlinkRegistered(p, k, m.(exited := true));
      } else {
        SameRegistered(p, Do(p, a));
      }
    case AskClose(k) => UnlinkRegistered(p, k, p.ms[k].(closeAsked := true));
    case TakeClose(k, sio) =>
      TakeCloseKeeps(p.t, p.ms[k], sio);
      UnlinkRegistered(p, k, p.ms[k].(s := S.Fire(p.ms[k].s, S.Close, sio), exited := true));
  }

  // What the earlier owner of a name does next that unlinks it.
  function NextUnlink(p: Product, k: nat, sio: S.Io): Act
    requires k < |p.ms|
  {
    if p.ms[k].closeAsked then TakeClose(k, sio) else AskClose(k)
  }

  lemma NoReuseKeeps(p: Product, a: Act, sio: S.Io, k: nat)
    requires StrongInv(p) && Registered(p) && Enabled(p, a) && a.NewSession? && NoReuse(p, a)
    requires k < |p.ms| && Live(p.ms[k]) && k < |Do(p, a).ms| && IndexOk(Do(p, a))
    ensures var p' := Do(p, a);
            Enabled(p', NextUnlink(p', k, sio)) && Registered(Do(p', NextUnlink(p', k, sio)))
  {
    var p' := Do(p, a);
    NewIs(p, a.name, a.id, a.io);
    assert p'.ms[k] == p.ms[k];
    StepStrong(p, a);
    NewRegistered(p, a.name, a.id, a.io);
    StepRegistered(p', NextUnlink(p', k, sio));
  }

  /**
   Reusing a name or identifier is exactly what loses sessions: after a session
   is created, every earlier session that can still unlink may do so without
   losing anyone precisely when none of them shares the new name or identifier.
   */
  lemma ReuseIsTheHazard(p: Product, a: Act, sio: S.Io)
    requires StrongInv(p) && Registered(p) && Enabled(p, a) && a.NewSession?
    ensures var p' := Do(p, a);
            && |p.ms| <= |p'.ms| && IndexOk(p')
            && ((forall k | 0 <= k < |p.ms| && Live(p.ms[k]) ::
                   Enabled(p', NextUnlink(p', k, sio)) && Registered(Do(p', NextUnlink(p', k, sio))))
                <==> NoReuse(p, a))
  {
    var p' := Do(p, a);
    NewIs(p, a.name, a.id, a.io);
    StepKeeps(p, a);
    if NoReuse(p, a) {
      forall k | 0 <= k < |p.ms| && Live(p.ms[k])
        ensures Enabled(p', NextUnlink(p', k, sio)) && Registered(Do(p', NextUnlink(p', k, sio)))
      {
        NoReuseKeeps(p, a, sio, k);
      }
    } else {
      var k :| 0 <= k < |p.ms| && Live(p.ms[k]) && (p.ms[k].name == a.name || p.ms[k].id == a.id);
      ReuseLoses(p', k, |p.ms|, sio);
    }
  }

  lemma ReuseLoses(p: Product, k: nat, new': nat, sio: S.Io)
    requires Inv(p) && !p.t.isClosing && k < new' < |p.ms| && Live(p.ms[k]) && LinkedOk(p, new')
    requires p.ms[k].name == p.ms[new'].name || p.ms[k].id == p.ms[new'].id
    ensures Enabled(p, NextUnlink(p, k, sio)) && !Registered(Do(p, NextUnlink(p, k, sio)))
  {
    var p' := Do(p, NextUnlink(p, k, sio));
    if p.ms[k].closeAsked {
      TakeCloseKeeps(p.t, p.ms[k], sio);
    }
    assert LinkedOk(p', new');
  }

  lemma {:induction false} RunStrong(p: Product, trace: seq<Act>)
    requires StrongInv(p) && Registered(p) && Legal(p, trace) && NeverReuses(p, trace)
    ensures StrongInv(Run(p, trace)) && Registered(Run(p, trace))
    decreases |trace|
  {
    if trace != [] {
      StepStrong(p, trace[0]);
      StepRegistered(p, trace[0]);
      RunStrong(Do(p, trace[0]), trace[1..]);
    }
  }

  /**
   As long as names and identifiers are not reused while an earlier owner may
   still unlink them, the two indexes hold the same sessions, every running
   session is in both, and a closed tunnel has none in either.
   */
  lemma IndexesAgree(trace: seq<Act>)
    requires Legal(Start, trace) && NeverReuses(Start, trace)
    ensures var p := Run(Start, trace);
            && IndexOk(p) && Paired(p) && Registered(p)
            && (p.t.isClosing ==> p.t.byName == map[] && p.t.byId == map[])
  {
    RunStrong(Start, trace);
    var p := Run(Start, trace);
    assert forall i | i in p.t.byId :: p.ms[p.t.byId[i]].name in p.t.byName;
  }

  /** Under the same condition no running session is handed an event its state has no row for. */
  lemma NoUndefinedEvent(trace: seq<Act>, k: nat)
    requires Legal(Start, trace) && NeverReuses(Start, trace)
    requires k < |Run(Start, trace).ms|
    ensures var m := Run(Start, trace).ms[k];
            !m.exited && m.inbox != [] ==>
              match m.inbox[0]
              case Open => Lookup(S.Table, m.s.state, S.TunnelOpen) != NoRow
              case Msg(kind, _) =>
                Lookup(S.Table, m.s.state, S.EventOf(kind)) != NoRow && Lookup(S.Table, m.s.state, S.Close) != NoRow
  {
    RunStrong(Start, trace);
    var p := Run(Start, trace);
    assert MemberInv(p.t, p.ms[k]) && InboxOk(p.ms[k]);
    var m := p.ms[k];
    S.LookupTable(m.s.state, S.TunnelOpen);
    S.LookupTable(m.s.state, S.Close);
    if m.inbox != [] && m.inbox[0].Msg? {
      S.LookupTable(m.s.state, S.EventOf(m.inbox[0].kind));
    }
  }
}
