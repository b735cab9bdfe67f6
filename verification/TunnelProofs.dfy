/** Invariants of the product of a tunnel and its sessions over every run. */
module TunnelProofs {
  import opened Fsm
  import S = Session
  import opened Tunnel

  // ---------- Invariants that hold whatever names are used ----------

  predicate TunInv(t: Tun)
  {
    && t.events <= [S.Up, S.Down]
    && (t.established ==> t.events == [S.Up] && t.state == Established && !t.isClosing)
    && (!t.isClosing ==> t.established == (t.events != []))
    && (t.state == Idle || t.state == WaitCtlReply ==> t.events == [] && !t.hasDataPlane)
    && (t.state == Dead ==> t.isClosing)
    && (t.hasDataPlane == (t.events != []))
    && t.xportCloses == (if t.isClosing then 1 else 0)
    && t.dpDowns == (if t.isClosing && t.hasDataPlane then 1 else 0)
    && (t.isClosing ==> t.byName == map[])
  }

  predicate MemberInv(t: Tun, m: Member)
  {
    && S.SessInv(m.s)
    && (m.exited <==> m.s.isClosed)
    && m.opens <= 1
    && (m.s.state == S.WaitReply || m.s.state == S.Established || m.s.events != [] ==> m.opens == 1)
    && (m.opens == 1 ==> t.events != [])
    && (m.opens == 0 ==> forall j | 0 <= j < |m.inbox| :: m.inbox[j].Msg?)
    && (t.events == [] ==> m.inbox == [])
  }

  predicate LinkedOk(p: Product, k: nat) { k < |p.ms| && !p.ms[k].exited && !p.ms[k].closeAsked }

  predicate NamesInv(p: Product)
  {
    && (forall n | n in p.t.byName :: LinkedOk(p, p.t.byName[n]) && p.ms[p.t.byName[n]].name == n)
    && (forall i | i in p.t.byId :: LinkedOk(p, p.t.byId[i]) && p.ms[p.t.byId[i]].id == i)
  }

  predicate MembersInv(p: Product) { forall k | 0 <= k < |p.ms| :: MemberInv(p.t, p.ms[k]) }

  // Once the tunnel is up, every session in the name index has been told.
  predicate ToldInv(p: Product)
  {
    !p.t.isClosing && p.t.state == Established ==>
      p.t.established && forall n | n in p.t.byName && p.t.byName[n] < |p.ms| :: p.ms[p.t.byName[n]].opens == 1
  }

  predicate WeakInv(p: Product) { IndexOk(p) && TunInv(p.t) && NamesInv(p) && MembersInv(p) }

  predicate Inv(p: Product) { WeakInv(p) && ToldInv(p) }

  // ---------- Closing the tunnel ----------

  // Killed or not, by a tunnel that has reported no less than before.
  lemma MemberAfterClose(t: Tun, t': Tun, m: Member)
    requires MemberInv(t, m) && (t.events == [] <==> t'.events == [])
    ensures MemberInv(t', m) && MemberInv(t', Killed(m))
  {
  }

  lemma CloseMembers(p: Product)
    requires WeakInv(p)
    ensures MembersInv(CloseTunnel(p))
  {
    var p' := CloseTunnel(p);
    forall k | 0 <= k < |p'.ms|
      ensures MemberInv(p'.t, p'.ms[k])
    {
      assert MemberInv(p.t, p.ms[k]);
      MemberAfterClose(p.t, p'.t, p.ms[k]);
    }
  }

  // The identifiers that are left belong to sessions outside the name index.
  lemma CloseNames(p: Product)
    requires IndexOk(p) && NamesInv(p) && !p.t.isClosing
    ensures IndexOk(CloseTunnel(p)) && NamesInv(CloseTunnel(p))
  {
    var p' := CloseTunnel(p);
    forall i | i in p'.t.byId
      ensures LinkedOk(p', p'.t.byId[i]) && p'.ms[p'.t.byId[i]].id == i
    {
      var k := p.t.byId[i];
      assert LinkedOk(p, k) && p.ms[k].id == i;
      assert k !in p.t.byName.Values;
    }
  }

  lemma CloseKeeps(p: Product)
    requires WeakInv(p)
    ensures Inv(CloseTunnel(p)) && CloseTunnel(p).t.isClosing && CloseTunnel(p).t.state == p.t.state
  {
    if !p.t.isClosing {
      CloseMembers(p);
      CloseNames(p);
    }
  }

  // ---------- Events ----------

  // The tunnel's own fields change without touching indexes or user events.
  lemma StateMoves(p: Product, to: State)
    requires WeakInv(p)
    requires to == Established || to == Dead ==> p.t.state == WaitCtlReply || p.t.state == Established
    requires to == WaitCtlReply ==> p.t.state == Idle || p.t.state == WaitCtlReply
    requires to != Idle && (to == Dead ==> p.t.isClosing)
    requires p.t.established ==> to == Established
    ensures WeakInv(p.(t := p.t.(state := to)))
  {
  }

  // Closing commutes with the move to Dead, which by itself would break the invariant.
  lemma CloseInto(p: Product, to: State)
    requires WeakInv(p) && !p.t.isClosing && p.t.state != Idle && p.t.state != Dead
    requires to == Dead || to == Established
    ensures Inv(CloseTunnel(p.(t := p.t.(state := to))))
    ensures CloseTunnel(p.(t := p.t.(state := to))).t.isClosing
  {
    CloseKeeps(p);
    var q, q' := CloseTunnel(p), CloseTunnel(p.(t := p.t.(state := to)));
    assert q' == q.(t := q.t.(state := to));
    StateMoves(q, to);
  }

  lemma ReportUpKeeps(p: Product)
    requires WeakInv(p) && p.t.state == WaitCtlReply && !p.t.isClosing
    ensures Inv(ReportUp(p.(t := p.t.(state := Established))))
  {
    var p' := ReportUp(p.(t := p.t.(state := Established)));
    assert [] + [S.Up] == [S.Up];
    forall k | 0 <= k < |p'.ms|
      ensures MemberInv(p'.t, p'.ms[k])
    {
      assert MemberInv(p.t, p.ms[k]);
    }
    forall n | n in p'.t.byName && p'.t.byName[n] < |p'.ms|
      ensures p'.ms[p'.t.byName[n]].opens == 1
    {
      var k := p.t.byName[n];
      assert k in p.t.byName.Values;
      assert MemberInv(p.t, p.ms[k]);
    }
  }

  lemma LinkKeeps(p: Product, k: nat)
    requires WeakInv(p) && !p.t.isClosing && LinkedOk(p, k)
    ensures WeakInv(Link(p, k))
  {
  }

  // One session is told that the tunnel is up.
  lemma OpenNames(p: Product, k: nat)
    requires IndexOk(p) && NamesInv(p) && k < |p.ms|
    ensures var p' := p.(ms := p.ms[k := OpenOne(p.ms[k])]); IndexOk(p') && NamesInv(p')
  {
  }

  lemma OpenMembers(p: Product, k: nat)
    requires MembersInv(p) && k < |p.ms| && p.ms[k].opens == 0 && p.t.events != []
    ensures MembersInv(p.(ms := p.ms[k := OpenOne(p.ms[k])]))
  {
    var p' := p.(ms := p.ms[k := OpenOne(p.ms[k])]);
    forall j | 0 <= j < |p'.ms|
      ensures MemberInv(p'.t, p'.ms[j])
    {
      assert MemberInv(p.t, p.ms[j]);
    }
  }

  lemma StartKeeps(p: Product, k: nat)
    requires Inv(p) && p.t.state == Established && !p.t.isClosing
    requires LinkedOk(p, k) && p.ms[k].opens == 0
    ensures Inv(Link(p, k).(ms := p.ms[k := OpenOne(p.ms[k])]))
  {
    LinkKeeps(p, k);
    OpenNames(Link(p, k), k);
    OpenMembers(Link(p, k), k);
  }

  lemma ForwardKeeps(p: Product, e: Event)
    requires Inv(p) && p.t.state == Established && !p.t.isClosing && e.EvSessionMsg?
    ensures Inv(Forward(p, e))
  {
  }

  lemma OnSccrpKeeps(p: Product, io: Io)
    requires Inv(p) && !p.t.isClosing && p.t.state == WaitCtlReply
    ensures Inv(Fire(p, EvSccrp, io))
  {
    FireSccrp(p, io);
    if io.peerIdFound && io.built && io.sent && io.dataPlane {
      ReportUpKeeps(p);
    } else if io.peerIdFound && !(io.built && io.sent) {
      CloseInto(p, Established);
    } else {
      CloseInto(p, Dead);
    }
  }

  lemma OpenKeeps(p: Product, io: Io)
    requires Inv(p) && !p.t.isClosing && p.t.state == Idle
    ensures Inv(Fire(p, EvOpen, io))
  {
    LookupTable(Idle, KOpen);
    StateMoves(p, WaitCtlReply);
    CloseKeeps(p.(t := p.t.(state := WaitCtlReply)));
  }

  // Events for a live tunnel, and events that reach a dead one.
  lemma FireKeeps(p: Product, e: Event, io: Io)
    requires Inv(p) && (p.t.isClosing ==> p.t.state == Dead)
    requires e.EvNewSession? ==> LinkedOk(p, e.k) && p.ms[e.k].opens == 0
    ensures Inv(Fire(p, e, io))
    ensures p.t.state != Idle && e.EvClose? ==> Fire(p, e, io).t.isClosing && Fire(p, e, io).t.state == Dead
    ensures p.t.state == Dead ==> Fire(p, e, io) == p
  {
    LookupTable(p.t.state, KindOf(e));
    match Lookup(Table, p.t.state, KindOf(e))
    case NoRow => CloseKeeps(p);
    case Found(act, to) =>
      match act
      case SendSccrq => OpenKeeps(p, io);
      case OnSccrp => OnSccrpKeeps(p, io);
      case OnStopccn => CloseInto(p, Dead);
      case SendStopccn => CloseInto(p, Dead);
      case Nothing => assert Fire(p, e, io) == p;
      case LinkSession => LinkKeeps(p, e.k);
      case StartSession => StartKeeps(p, e.k);
      case ForwardMsg => ForwardKeeps(p, e);
  }

  // Closing again only finishes the move to Dead.
  lemma CloseAgain(p: Product, io: Io)
    requires Inv(p) && p.t.isClosing && p.t.state != Idle
    ensures Fire(p, EvClose, io) == p.(t := p.t.(state := Dead)) && CloseTunnel(p) == p
    ensures Inv(Fire(p, EvClose, io))
  {
    LookupTable(p.t.state, KClose);
    if p.t.state != Dead {
      StateMoves(p, Dead);
    }
  }

  // ---------- Session steps ----------

  lemma UnlinkMembers(p: Product, k: nat, m: Member)
    requires MembersInv(p) && k < |p.ms| && MemberInv(p.t, m)
    ensures MembersInv(Product(Unlink(p.t, m), p.ms[k := m]))
  {
    var p' := Product(Unlink(p.t, m), p.ms[k := m]);
    forall j | 0 <= j < |p'.ms|
      ensures MemberInv(p'.t, p'.ms[j])
    {
      assert MemberInv(p.t, p.ms[j]);
    }
  }

  lemma UnlinkNames(p: Product, k: nat, m: Member)
    requires IndexOk(p) && NamesInv(p) && k < |p.ms| && m.name == p.ms[k].name && m.id == p.ms[k].id
    ensures var p' := Product(Unlink(p.t, m), p.ms[k := m]); IndexOk(p') && NamesInv(p')
  {
  }

  // Replacing a member and unlinking the old one.
  lemma UnlinkKeeps(p: Product, k: nat, m: Member)
    requires Inv(p) && k < |p.ms| && MemberInv(p.t, m)
    requires m.name == p.ms[k].name && m.id == p.ms[k].id && m.opens == p.ms[k].opens
    ensures Inv(Product(Unlink(p.t, m), p.ms[k := m]))
  {
    var p' := Product(Unlink(p.t, m), p.ms[k := m]);
    UnlinkMembers(p, k, m);
    UnlinkNames(p, k, m);
    assert TunInv(p'.t) by { assert p.t.byName == map[] ==> p'.t.byName == map[]; }
    assert ToldInv(p');
  }

  lemma MemberReplaced(p: Product, k: nat, m: Member)
    requires Inv(p) && k < |p.ms| && MemberInv(p.t, m)
    requires m.name == p.ms[k].name && m.id == p.ms[k].id && m.opens == p.ms[k].opens
    requires m.exited == p.ms[k].exited && m.closeAsked == p.ms[k].closeAsked
    ensures Inv(p.(ms := p.ms[k := m]))
  {
    var p' := p.(ms := p.ms[k := m]);
    forall j | 0 <= j < |p'.ms|
      ensures MemberInv(p'.t, p'.ms[j])
    {
      assert MemberInv(p.t, p.ms[j]);
    }
  }

  lemma AfterSessionKeeps(p: Product, k: nat, m: Member)
    requires Inv(p) && k < |p.ms| && !p.ms[k].exited
    requires MemberInv(p.t, m.(exited := m.s.isClosed))
    requires m.name == p.ms[k].name && m.id == p.ms[k].id && m.opens == p.ms[k].opens
    requires !m.exited && m.closeAsked == p.ms[k].closeAsked
    ensures Inv(AfterSession(p, k, m))
  {
    if m.s.isClosed {
      UnlinkKeeps(p, k, m.(exited := true));
    } else {
      MemberReplaced(p, k, m);
    }
  }

  lemma HandleMsgKeeps(s: S.Sess, k: S.MsgKind, valid: bool, io: S.Io, io': S.Io)
    requires S.SessInv(s) && !s.isClosed
    ensures S.SessInv(S.HandleMsg(s, k, valid, io, io'))
    ensures var s' := S.HandleMsg(s, k, valid, io, io');
            s.state == S.WaitTunnel ==> s'.events == [] && s'.state != S.WaitReply && s'.state != S.Established
  {
    S.FireKeeps(s, S.Close, io);
    S.LookupTable(s.state, S.Close);
    var s1 := if valid then s else S.Fire(s, S.Close, io);
    S.FireKeeps(s1, S.EventOf(k), io');
    S.LookupTable(s1.state, S.EventOf(k));
  }

  lemma ReceivedKeeps(t: Tun, m: Member, sio: S.Io, sio': S.Io)
    requires MemberInv(t, m) && !m.exited && m.inbox != []
    ensures var m' := Received(m, sio, sio'); MemberInv(t, m'.(exited := m'.s.isClosed))
  {
    match m.inbox[0]
    case Open => S.FireKeeps(m.s, S.TunnelOpen, sio);
    case Msg(kind, valid) => HandleMsgKeeps(m.s, kind, valid, sio, sio');
  }

  lemma TakeCloseKeeps(t: Tun, m: Member, sio: S.Io)
    requires MemberInv(t, m) && !m.exited
    ensures var s' := S.Fire(m.s, S.Close, sio); MemberInv(t, m.(s := s', exited := true)) && s'.isClosed
  {
    S.FireKeeps(m.s, S.Close, sio);
    S.LookupTable(m.s.state, S.Close);
  }

  // ---------- Whole steps ----------

  lemma CreatedKeeps(p: Product, m: Member)
    requires Inv(p) && MemberInv(p.t, m)
    ensures Inv(p.(ms := p.ms + [m]))
  {
    var p1 := p.(ms := p.ms + [m]);
    forall j | 0 <= j < |p1.ms|
      ensures MemberInv(p1.t, p1.ms[j])
    {
      if j < |p.ms| {
        assert MemberInv(p.t, p.ms[j]);
      }
    }
  }

  lemma NewSessionKeeps(p: Product, name: string, id: int, io: Io)
    requires Inv(p) && Enabled(p, NewSession(name, id, io))
    ensures Inv(Do(p, NewSession(name, id, io)))
  {
    var m := Member(name, id, S.Fresh, [], 0, false, false);
    CreatedKeeps(p, m);
    FireKeeps(p.(ms := p.ms + [m]), EvNewSession(|p.ms|), io);
  }

  lemma MessageKeeps(p: Product, m: TMsg, valid: bool, io: Io, io': Io)
    requires Inv(p) && Enabled(p, Message(m, valid, io, io'))
    ensures Inv(Do(p, Message(m, valid, io, io')))
  {
    FireKeeps(p, EvClose, io);
    var p1 := if valid then p else Fire(p, EvClose, io);
    if !m.MHello? {
      FireKeeps(p1, EventOf(m, valid), io');
    }
  }

  lemma StepKeeps(p: Product, a: Act)
    requires Inv(p) && Enabled(p, a)
    ensures Inv(Do(p, a))
  {
    match a
    case Begin(io) => FireKeeps(p, EvOpen, io);
    case Message(m, valid, io, io') => MessageKeeps(p, m, valid, io, io');
    case UserClose(io) => if p.t.isClosing { CloseAgain(p, io); } else { FireKeeps(p, EvClose, io); }
    case TransportDown => CloseKeeps(p);
    case NewSession(name, id, io) => NewSessionKeeps(p, name, id, io);
    case SessionStep(k, sio, sio') =>
      ReceivedKeeps(p.t, p.ms[k], sio, sio');
      AfterSessionKeeps(p, k, Received(p.ms[k], sio, sio'));
    case AskClose(k) =>
      assert MemberInv(p.t, p.ms[k]);
      UnlinkKeeps(p, k, p.ms[k].(closeAsked := true));
    case TakeClose(k, sio) =>
      TakeCloseKeeps(p.t, p.ms[k], sio);
      AfterSessionKeeps(p, k, p.ms[k].(s := S.Fire(p.ms[k].s, S.Close, sio)));
  }

  lemma {:induction false} RunKeeps(p: Product, trace: seq<Act>)
    requires Inv(p) && Legal(p, trace)
    ensures Inv(Run(p, trace))
    decreases |trace|
  {
    if trace != [] {
      StepKeeps(p, trace[0]);
      RunKeeps(Do(p, trace[0]), trace[1..]);
    }
  }
}
