/** What one message, valid or not, does to a tunnel and its sessions, in every reachable state. */
module TunnelMessages {
  import opened Fsm
  import S = Session
  import opened Tunnel
  import opened TunnelProofs
  import opened TunnelTheorems

  // ---------- Closing ----------

  // The tunnel closes: its Up is answered, its name index empty, every linked session gone, no other touched.
  predicate Closes(p: Product, p': Product)
  {
    && p'.t.isClosing && !p'.t.established && p'.t.byName == map[]
    && p'.t.events == (if p.t.established then p.t.events + [S.Down] else p.t.events)
    && |p'.ms| == |p.ms|
    && (forall k | 0 <= k < |p.ms| ::
          if k in p.t.byName.Values then KilledInto(p.ms[k], p'.ms[k]) else p'.ms[k] == p.ms[k])
  }

  // A running session has ended, its Up answered.
  predicate KilledInto(m: Member, m': Member)
  {
    && !m.exited && m'.exited && m'.s.isClosed && !m'.s.established
    && m'.s.events == (if m.s.established then m.s.events + [S.Down] else m.s.events)
  }

  predicate TornDown(p: Product, p': Product) { Closes(p, p') && p'.t.state == Dead }

  lemma CloseCloses(p: Product, to: State)
    requires Inv(p) && !p.t.isClosing
    ensures Closes(p, CloseTunnel(p.(t := p.t.(state := to))))
  {
    var p' := CloseTunnel(p.(t := p.t.(state := to)));
    forall k | 0 <= k < |p.ms| && k in p.t.byName.Values
      ensures KilledInto(p.ms[k], p'.ms[k])
    {
      assert MemberInv(p.t, p.ms[k]);
      var n :| n in p.t.byName && p.t.byName[n] == k;
      assert LinkedOk(p, p.t.byName[n]);
    }
  }

  // An event whose row closes the tunnel.
  lemma FireTearsDown(p: Product, e: Event, io: Io)
    requires Inv(p) && !p.t.isClosing && p.t.state != Idle && !e.EvNewSession?
    requires e in {EvClose, EvStopccn, EvSccrq, EvScccn} || (e == EvSccrp && p.t.state == Established)
    ensures TornDown(p, Fire(p, e, io))
  {
    LookupTable(p.t.state, KindOf(e));
    CloseCloses(p, Dead);
  }

  /**
   A message that fails validation ends every live tunnel, whatever its kind:
   the tunnel is dead, reports no Up, and every session in its name index has
   exited.
   */
  lemma InvalidMessageKills(p: Product, m: TMsg, io: Io, io': Io)
    requires Reachable(p) && IndexOk(p) && Enabled(p, Message(m, false, io, io'))
    ensures TornDown(p, Do(p, Message(m, false, io, io')))
  {
    ReachableInv(p);
    FireTearsDown(p, EvClose, io);
    FireKeeps(p, EvClose, io);
    if !m.MHello? {
      FireKeeps(Fire(p, EvClose, io), EventOf(m, false), io');
    }
  }

  // ---------- Valid messages ----------

  predicate AllGoesWell(io: Io) { io.peerIdFound && io.built && io.sent && io.dataPlane }

  // The session with that identifier has one more message, and nothing else has changed.
  predicate Forwarded(p: Product, sid: int, kind: S.MsgKind, p': Product)
    requires IndexOk(p)
  {
    && p'.t == p.t && |p'.ms| == |p.ms|
    && (forall k | 0 <= k < |p.ms| ::
          p'.ms[k] == if sid in p.t.byId && p.t.byId[sid] == k
                      then p.ms[k].(inbox := p.ms[k].inbox + [Msg(kind, true)]) else p.ms[k])
  }

  // The tunnel reports up, and every session in its name index is told.
  predicate ComesUp(p: Product, p': Product)
  {
    && p'.t == p.t.(state := Established, established := true, hasDataPlane := true, events := [S.Up])
    && |p'.ms| == |p.ms|
    && (forall k | 0 <= k < |p.ms| ::
          p'.ms[k] == if k in p.t.byName.Values
                      then p.ms[k].(inbox := p.ms[k].inbox + [Open], opens := p.ms[k].opens + 1) else p.ms[k])
  }

  lemma SccrpTaken(p: Product, io: Io)
    requires Inv(p) && !p.t.isClosing && p.t.state == WaitCtlReply
    ensures AllGoesWell(io) ==> ComesUp(p, Fire(p, EvSccrp, io))
    ensures !AllGoesWell(io) ==> Closes(p, Fire(p, EvSccrp, io))
  {
    FireSccrp(p, io);
    CloseCloses(p, Dead);
    CloseCloses(p, Established);
    assert [] + [S.Up] == [S.Up];
  }

  predicate Effect(p: Product, m: TMsg, io: Io, p': Product)
    requires IndexOk(p)
  {
    match m
    case MHello => p' == p
    case MSession(sid, kind) => if p.t.state == Established then Forwarded(p, sid, kind, p') else p' == p
    case MSccrp =>
      if p.t.state == Established then TornDown(p, p')
      else if AllGoesWell(io) then ComesUp(p, p')
      else Closes(p, p')
    case _ => TornDown(p, p')
  }

  /**
   What a valid message does to a live tunnel: a reply brings a waiting tunnel up
   exactly if everything it leads to succeeds, and closes it otherwise; a session's message goes to that
   session alone, once the tunnel is established; a HELLO changes nothing; any
   other message ends the tunnel.
   */
  lemma ValidMessageDoes(p: Product, m: TMsg, io: Io, io': Io)
    requires Reachable(p) && IndexOk(p) && Enabled(p, Message(m, true, io, io'))
    ensures Effect(p, m, io', Do(p, Message(m, true, io, io')))
  {
    ReachableInv(p);
    match m
    case MHello =>
    case MSession(sid, kind) => LookupTable(p.t.state, KSessionMsg);
    case MSccrp =>
      if p.t.state == Established {
        FireTearsDown(p, EvSccrp, io');
      } else {
        SccrpTaken(p, io');
      }
    case _ => FireTearsDown(p, EventOf(m, true), io');
  }

  /**
   The callback that a message leads to in a live tunnel: out of place, it has
   StopCCN sent; the peer's own StopCCN is not answered.
   */
  lemma MessageCallback(m: TMsg, valid: bool, st: State)
    requires !m.MHello? && (st == WaitCtlReply || st == Established)
    ensures Lookup(Table, st, KindOf(EventOf(m, valid))) ==
            match m
            case MStopccn => Found(OnStopccn, Dead)
            case MSession(_, _) =>
              if st == Established then Found(ForwardMsg, Established) else Found(Nothing, WaitCtlReply)
            case MSccrp => if st == Established then Found(SendStopccn, Dead) else Found(OnSccrp, Established)
            case _ => Found(SendStopccn, Dead)
  {
    LookupTable(st, KindOf(EventOf(m, valid)));
  }

  // ---------- When a tunnel comes up, and when it closes, over all its steps ----------

  // A valid reply to a waiting tunnel, after which everything succeeds.
  predicate BringsUp(t: Tun, a: Act)
  {
    a.Message? && a.valid && a.m == MSccrp && t.state == WaitCtlReply && AllGoesWell(a.io')
  }

  predicate Ends(t: Tun, a: Act)
  {
    match a
    case Begin(io) => !(io.built && io.sent)
    case Message(m, valid, _, io') =>
      !valid || !(m.MHello? || m.MSession? || (m.MSccrp? && t.state == WaitCtlReply && AllGoesWell(io')))
    case UserClose(_) => true
    case TransportDown => true
    case _ => false
  }

  lemma BeginOpens(p: Product, io: Io)
    requires Inv(p) && Enabled(p, Begin(io))
    ensures Do(p, Begin(io)).t.events == p.t.events && Do(p, Begin(io)).t.state == WaitCtlReply
    ensures if io.built && io.sent then !Do(p, Begin(io)).t.isClosing && Do(p, Begin(io)).ms == p.ms
            else Closes(p, Do(p, Begin(io)))
  {
    LookupTable(Idle, KOpen);
    CloseCloses(p, WaitCtlReply);
  }

  // The steps that concern sessions only.
  lemma SessionsDoNot(p: Product, a: Act)
    requires Inv(p) && Enabled(p, a) && (a.SessionStep? || a.AskClose? || a.TakeClose?)
    ensures Do(p, a).t.events == p.t.events && Do(p, a).t.isClosing == p.t.isClosing && Do(p, a).t.state == p.t.state
  {
  }

  lemma NewDoesNot(p: Product, name: string, id: int, io: Io)
    requires Inv(p) && Enabled(p, NewSession(name, id, io))
    ensures var t' := Do(p, NewSession(name, id, io)).t;
            t'.events == p.t.events && t'.isClosing == p.t.isClosing && t'.state == p.t.state
  {
    LookupTable(p.t.state, KNewSession);
  }

  lemma ClosingReportsNoUp(p: Product, a: Act)
    requires Inv(p) && Enabled(p, a) && (a.UserClose? || a.TransportDown?)
    ensures Do(p, a).t.isClosing && (p.t.events == [] ==> Do(p, a).t.events == [])
    ensures p.t.isClosing ==> Do(p, a).ms == p.ms
    ensures !p.t.isClosing ==> Closes(p, Do(p, a))
  {
    if a.UserClose? {
      if p.t.isClosing {
        CloseAgain(p, a.io);
      } else {
        FireTearsDown(p, EvClose, a.io);
      }
    } else if !p.t.isClosing {
      CloseCloses(p, p.t.state);
    }
  }

  lemma MessageEnds(p: Product, a: Act)
    requires Reachable(p) && IndexOk(p) && Enabled(p, a) && a.Message?
    ensures Do(p, a).t.isClosing <==> Ends(p.t, a)
    ensures p.t.events == [] ==> (Do(p, a).t.events != [] <==> BringsUp(p.t, a))
  {
    ReachableInv(p);
    if a.valid {
      ValidMessageDoes(p, a.m, a.io, a.io');
    } else {
      InvalidMessageKills(p, a.m, a.io, a.io');
    }
  }

  /** Over all steps of every run: a tunnel reports up exactly in the step that takes such a reply. */
  lemma UpExactly(p: Product, a: Act)
    requires Reachable(p) && IndexOk(p) && Enabled(p, a)
    ensures p.t.events == [] && Do(p, a).t.events != [] <==> BringsUp(p.t, a)
  {
    ReachableInv(p);
    match a
    case Begin(io) => BeginOpens(p, io);
    case Message(_, _, _, _) => MessageEnds(p, a);
    case UserClose(_) => ClosingReportsNoUp(p, a);
    case TransportDown => ClosingReportsNoUp(p, a);
    case NewSession(name, id, io) => NewDoesNot(p, name, id, io);
    case _ => SessionsDoNot(p, a);
  }

  /** And it starts to close exactly in a step that ends it. */
  lemma ClosesExactly(p: Product, a: Act)
    requires Reachable(p) && IndexOk(p) && Enabled(p, a)
    ensures Do(p, a).t.isClosing <==> p.t.isClosing || Ends(p.t, a)
  {
    ReachableInv(p);
    match a
    case Begin(io) => BeginOpens(p, io);
    case Message(_, _, _, _) => MessageEnds(p, a);
    case UserClose(_) => ClosingReportsNoUp(p, a);
    case TransportDown => ClosingReportsNoUp(p, a);
    case NewSession(name, id, io) => NewDoesNot(p, name, id, io);
    case _ => SessionsDoNot(p, a);
  }

  // ---------- When a session comes up, and when it ends, over all steps ----------

  predicate OfTunnel(a: Act) { a.Begin? || a.Message? || a.UserClose? || a.TransportDown? || a.NewSession? }

  // The tunnel ends, and takes the sessions in its name index with it.
  predicate Takes(p: Product, a: Act, k: nat) { !p.t.isClosing && Ends(p.t, a) && k in p.t.byName.Values }

  // Every session is in the state it was in.
  predicate SameStates(p: Product, p': Product)
  {
    && |p'.ms| == |p.ms|
    && (forall k | 0 <= k < |p.ms| :: p'.ms[k].s == p.ms[k].s && p'.ms[k].exited == p.ms[k].exited)
  }

  lemma ForwardedIsSame(p: Product, sid: int, kind: S.MsgKind, p': Product)
    requires IndexOk(p) && Forwarded(p, sid, kind, p')
    ensures SameStates(p, p')
  {
  }

  lemma UpIsSame(p: Product, p': Product)
    requires ComesUp(p, p')
    ensures SameStates(p, p')
  {
  }

  lemma EffectOnSessions(p: Product, a: Act, p': Product)
    requires IndexOk(p) && a.Message? && a.valid && Effect(p, a.m, a.io', p')
    requires p.t.state == WaitCtlReply || p.t.state == Established
    ensures if Ends(p.t, a) then Closes(p, p') else SameStates(p, p')
  {
    if a.m.MSession? && p.t.state == Established {
      ForwardedIsSame(p, a.m.sid, a.m.kind, p');
    } else if !Ends(p.t, a) && !a.m.MSession? && !a.m.MHello? {
      UpIsSame(p, p');
    }
  }

  lemma MessageOnSession(p: Product, a: Act, k: nat)
    requires Reachable(p) && IndexOk(p) && Enabled(p, a) && a.Message? && k < |p.ms|
    ensures k < |Do(p, a).ms|
    ensures if Takes(p, a, k) then KilledInto(p.ms[k], Do(p, a).ms[k])
            else Do(p, a).ms[k].s == p.ms[k].s && Do(p, a).ms[k].exited == p.ms[k].exited
  {
    if a.valid {
      ReachableInv(p);
      ValidMessageDoes(p, a.m, a.io, a.io');
      EffectOnSessions(p, a, Do(p, a));
    } else {
      InvalidMessageKills(p, a.m, a.io, a.io');
    }
  }

  // No step of the tunnel does anything else to a session's own state.
  lemma TunnelOnSession(p: Product, a: Act, k: nat)
    requires Reachable(p) && IndexOk(p) && Enabled(p, a) && OfTunnel(a) && k < |p.ms|
    ensures k < |Do(p, a).ms|
    ensures if Takes(p, a, k) then KilledInto(p.ms[k], Do(p, a).ms[k])
            else Do(p, a).ms[k].s == p.ms[k].s && Do(p, a).ms[k].exited == p.ms[k].exited
  {
    ReachableInv(p);
    match a
    case Begin(io) => BeginOpens(p, io);
    case Message(_, _, _, _) => MessageOnSession(p, a, k);
    case UserClose(_) => ClosingReportsNoUp(p, a);
    case TransportDown => ClosingReportsNoUp(p, a);
    case NewSession(name, id, io) => NewIs(p, name, id, io);
    case _ =>
  }

  // The session takes the reply it waits for from its inbox.
  predicate TakesReply(p: Product, a: Act, k: nat)
  {
    && a.SessionStep? && a.k == k && k < |p.ms| && p.ms[k].s.state == S.WaitReply
    && p.ms[k].inbox != [] && p.ms[k].inbox[0] == Msg(S.KIcrp, true)
  }

  predicate TakesOpen(p: Product, a: Act, k: nat)
  {
    && a.SessionStep? && a.k == k && k < |p.ms| && p.ms[k].s.state == S.WaitTunnel
    && p.ms[k].inbox != [] && p.ms[k].inbox[0] == Open
  }

  lemma StepOnSession(p: Product, a: Act, k: nat)
    requires Inv(p) && Enabled(p, a) && a.SessionStep? && k < |p.ms|
    ensures k < |Do(p, a).ms|
    ensures p.ms[k].s.events == [] && Do(p, a).ms[k].s.events != []
            <==> TakesReply(p, a, k) && a.sio'.peerIdFound && a.sio'.built && a.sio'.dataPlane
    ensures a.k != k ==> Do(p, a).ms[k] == p.ms[k]
    ensures a.k == k ==>
              (!Do(p, a).ms[k].exited
               <==> || (TakesOpen(p, a, k) && a.sio.built && a.sio.sent)
                    || (TakesReply(p, a, k) && a.sio'.peerIdFound && a.sio'.built && a.sio'.sent
                        && a.sio'.dataPlane && a.sio'.ifname))
  {
    if a.k == k {
      var m := p.ms[k];
      assert MemberInv(p.t, m);
      match m.inbox[0]
      case Open => S.EventDoes(m.s, S.TunnelOpen, a.sio);
      case Msg(kind, valid) => S.MessageDoes(m.s, kind, valid, a.sio, a.sio');
    }
  }

  lemma CloseOnSession(p: Product, a: Act, k: nat)
    requires Inv(p) && Enabled(p, a) && (a.AskClose? || a.TakeClose?) && k < |p.ms|
    ensures k < |Do(p, a).ms|
    ensures p.ms[k].s.events == [] ==> Do(p, a).ms[k].s.events == []
    ensures Do(p, a).ms[k].exited <==> p.ms[k].exited || (a.TakeClose? && a.k == k)
  {
    if a.TakeClose? && a.k == k {
      assert MemberInv(p.t, p.ms[k]);
      S.EventDoes(p.ms[k].s, S.Close, a.sio);
    }
  }

  /**
   Over all steps of every run: a session reports up exactly when it takes, from
   the front of its inbox, the valid reply it waits for and the data plane comes
   up.
   */
  lemma SessionUpExactly(p: Product, a: Act, k: nat)
    requires Reachable(p) && IndexOk(p) && Enabled(p, a) && k < |p.ms|
    ensures k < |Do(p, a).ms|
    ensures p.ms[k].s.events == [] && Do(p, a).ms[k].s.events != []
            <==> TakesReply(p, a, k) && a.sio'.peerIdFound && a.sio'.built && a.sio'.dataPlane
  {
    ReachableInv(p);
    if OfTunnel(a) {
      TunnelOnSession(p, a, k);
      assert MemberInv(p.t, p.ms[k]);
    } else if a.SessionStep? {
      StepOnSession(p, a, k);
    } else {
      CloseOnSession(p, a, k);
    }
  }

  // A session takes something that is not the next step of its call, or that fails.
  predicate Stumbles(p: Product, a: Act, k: nat)
  {
    && a.SessionStep? && a.k == k
    && !(TakesOpen(p, a, k) && a.sio.built && a.sio.sent)
    && !(TakesReply(p, a, k) && a.sio'.peerIdFound && a.sio'.built && a.sio'.sent
         && a.sio'.dataPlane && a.sio'.ifname)
  }

  /**
   And it ends exactly when it takes its owner's request, when it takes
   something that is not the next step of its call or fails, or when its tunnel
   ends with the session in the name index.
   */
  lemma SessionEndsExactly(p: Product, a: Act, k: nat)
    requires Reachable(p) && IndexOk(p) && Enabled(p, a) && k < |p.ms|
    ensures k < |Do(p, a).ms|
    ensures Do(p, a).ms[k].exited
            <==> || p.ms[k].exited || (a.TakeClose? && a.k == k) || Stumbles(p, a, k)
                 || (OfTunnel(a) && Takes(p, a, k))
  {
    ReachableInv(p);
    if OfTunnel(a) {
      TunnelOnSession(p, a, k);
    } else if a.SessionStep? {
      StepOnSession(p, a, k);
    } else {
      CloseOnSession(p, a, k);
    }
  }
}
