/** Sessions outside the name index: what the tunnel still does for them, in every continuation. */
module OrphanTheorems {
  import opened Fsm
  import opened Tunnel
  import opened TunnelProofs
  import opened TunnelTheorems

  predicate Orphan(p: Product, k: nat) { k < |p.ms| && k !in p.t.byName.Values }

  // The event is a message that the identifier index leads to session k.
  predicate LeadsTo(p: Product, e: Event, k: nat)
  {
    e.EvSessionMsg? && e.sid in p.t.byId && p.t.byId[e.sid] == k
  }

  // The session is as it was, but for a message it may have been sent.
  predicate Passed(p: Product, e: Event, p': Product, k: nat)
    requires k < |p.ms|
  {
    && Orphan(p', k)
    && p'.ms[k] == p.ms[k].(inbox := p'.ms[k].inbox)
    && (!LeadsTo(p, e, k) ==> p'.ms[k] == p.ms[k])
  }

  lemma CloseOnOrphan(p: Product, e: Event, k: nat)
    requires IndexOk(p) && Orphan(p, k)
    ensures Passed(p, e, CloseTunnel(p), k)
  {
  }

  lemma LinkOther(p: Product, j: nat, k: nat)
    requires Orphan(p, k) && j < |p.ms| && j != k
    ensures k !in Link(p, j).t.byName.Values
  {
  }

  lemma AfterOnOrphan(act: Action, e: Event, io: Io, p: Product, k: nat)
    requires IndexOk(p) && (e.EvNewSession? ==> e.k < |p.ms| && e.k != k) && Suits(act, e) && Orphan(p, k)
    requires act == OnSccrp ==> p.t.state == Established
    ensures Passed(p, e, After(act, e, io, p), k)
  {
    CloseOnOrphan(p, e, k);
    if act == OnSccrp {
      RaiseCloseIs(p, io);
      CloseOnOrphan(p.(t := p.t.(state := Dead)), e, k);
    } else if act == LinkSession || act == StartSession {
      LinkOther(p, e.k, k);
    }
  }

  lemma FireOnOrphan(p: Product, e: Event, io: Io, k: nat)
    requires IndexOk(p) && (e.EvNewSession? ==> e.k < |p.ms| && e.k != k) && Orphan(p, k)
    ensures Passed(p, e, Fire(p, e, io), k)
  {
    FireIs(p, e, io);
    var m := Lookup(Table, p.t.state, KindOf(e));
    if m.NoRow? {
      CloseOnOrphan(p, e, k);
    } else {
      AfterOnOrphan(m.act, e, io, p.(t := p.t.(state := m.to)), k);
    }
  }

  lemma MessageOnOrphan(p: Product, m: TMsg, valid: bool, io: Io, io': Io, k: nat)
    requires Inv(p) && Orphan(p, k) && Enabled(p, Message(m, valid, io, io'))
    ensures var p' := HandleMsg(p, m, valid, io, io');
            && Orphan(p', k) && p'.ms[k] == p.ms[k].(inbox := p'.ms[k].inbox)
            && (!(m.MSession? && m.sid in p.t.byId && p.t.byId[m.sid] == k) ==> p'.ms[k] == p.ms[k])
  {
    FireOnOrphan(p, EvClose, io, k);
    FireIndexOk(p, EvClose, io);
    FireKeeps(p, EvClose, io);
    var p1 := if valid then p else Fire(p, EvClose, io);
    if !m.MHello? {
      FireOnOrphan(p1, EventOf(m, valid), io', k);
      if !valid {
        LookupTable(Dead, KindOf(EventOf(m, valid)));
      }
    }
  }

  lemma NewOnOrphan(p: Product, name: string, id: int, io: Io, k: nat)
    requires Inv(p) && Orphan(p, k) && Enabled(p, NewSession(name, id, io))
    ensures var p' := Do(p, NewSession(name, id, io)); Orphan(p', k) && p'.ms[k] == p.ms[k]
  {
    NewIs(p, name, id, io);
  }

  // Steps of other sessions leave it alone; its own do not change whether it has been told.
  lemma SessionOnOrphan(p: Product, a: Act, k: nat)
    requires Inv(p) && Orphan(p, k) && Enabled(p, a) && (a.SessionStep? || a.AskClose? || a.TakeClose?)
    ensures Orphan(Do(p, a), k) && Do(p, a).ms[k].opens == p.ms[k].opens
    ensures a.k != k ==> Do(p, a).ms[k] == p.ms[k]
  {
  }

  // The steps that give the session something to do: its owner's request, and a message for it.
  predicate Disturbs(p: Product, a: Act, k: nat)
    requires k < |p.ms|
  {
    a == AskClose(k) || (a.Message? && a.m.MSession? && a.m.sid == p.ms[k].id)
  }

  lemma OrphanStep(p: Product, a: Act, k: nat)
    requires Inv(p) && Orphan(p, k) && Enabled(p, a)
    ensures Orphan(Do(p, a), k) && Do(p, a).ms[k].opens == p.ms[k].opens
    ensures Asleep(p.ms[k]) && !Disturbs(p, a, k) ==> Do(p, a).ms[k] == p.ms[k]
  {
    match a
    case Begin(io) => FireOnOrphan(p, EvOpen, io, k);
    case Message(m, valid, io, io') => MessageOnOrphan(p, m, valid, io, io', k);
    case UserClose(io) => FireOnOrphan(p, EvClose, io, k);
    case TransportDown => CloseOnOrphan(p, EvClose, k);
    case NewSession(name, id, io) => NewOnOrphan(p, name, id, io, k);
    case _ => SessionOnOrphan(p, a, k);
  }

  /** A session that is not in the name index is never again told that the tunnel is up, whatever follows. */
  lemma {:induction false} NeverTold(p: Product, trace: seq<Act>, k: nat)
    requires Inv(p) && Orphan(p, k) && Legal(p, trace)
    ensures Orphan(Run(p, trace), k) && Run(p, trace).ms[k].opens == p.ms[k].opens
    decreases |trace|
  {
    if trace != [] {
      StepKeeps(p, trace[0]);
      OrphanStep(p, trace[0], k);
      NeverTold(Do(p, trace[0]), trace[1..], k);
    }
  }

  // Running, with nothing to do.
  predicate Asleep(m: Member) { !m.exited && !m.closeAsked && m.inbox == [] }

  predicate Undisturbed(p: Product, trace: seq<Act>, k: nat)
    requires IndexOk(p) && Legal(p, trace) && k < |p.ms|
    decreases |trace|
  {
    trace == []
    || (!Disturbs(p, trace[0], k)
        && (DoIndexOk(p, trace[0]); k < |Do(p, trace[0]).ms| && Undisturbed(Do(p, trace[0]), trace[1..], k)))
  }

  /**
   Such a session with nothing to do outlives the tunnel: in every continuation,
   closings of the tunnel included, it runs on unchanged until its owner asks it
   to close or a message for it arrives.
   */
  lemma {:induction false} OrphanSurvives(p: Product, trace: seq<Act>, k: nat)
    requires Inv(p) && Orphan(p, k) && Asleep(p.ms[k]) && Legal(p, trace) && Undisturbed(p, trace, k)
    ensures k < |Run(p, trace).ms| && Run(p, trace).ms[k] == p.ms[k]
    decreases |trace|
  {
    if trace != [] {
      StepKeeps(p, trace[0]);
      OrphanStep(p, trace[0], k);
      OrphanSurvives(Do(p, trace[0]), trace[1..], k);
    }
  }

  // ---------- A session that the tunnel takes too late ----------

  /**
   Creating a session is one step here.  Were the tunnel to close between the
   check and the link, it would link the session exactly when it is not yet
   dead, and tell it that the tunnel is up exactly when its state is
   established, although it is closing.
   */
  lemma LateNewSession(p: Product, k: nat, io: Io)
    requires Inv(p) && p.t.isClosing && p.t.state != Idle && k < |p.ms|
    ensures var p' := Fire(p, EvNewSession(k), io);
            && (k in p'.t.byName.Values <==> p.t.state != Dead)
            && p'.ms[k].opens == p.ms[k].opens + (if p.t.state == Established then 1 else 0)
  {
    LookupTable(p.t.state, KNewSession);
    if p.t.state != Dead {
      assert p.ms[k].name in Link(p, k).t.byName && Link(p, k).t.byName[p.ms[k].name] == k;
    }
  }

  /** That happens after a reply whose acknowledgement cannot be sent: the tunnel has then never reported up. */
  lemma ToldByClosedTunnel(p: Product, k: nat, io: Io, io': Io)
    requires Inv(p) && !p.t.isClosing && p.t.state == WaitCtlReply && k < |p.ms|
    requires io.peerIdFound && !(io.built && io.sent)
    ensures var p1 := Fire(p, EvSccrp, io);
            && IndexOk(p1) && k < |p1.ms| && p1.t.isClosing && p1.t.events == []
            && Fire(p1, EvNewSession(k), io').ms[k].opens == p1.ms[k].opens + 1
  {
    FireSccrp(p, io);
    OnSccrpKeeps(p, io);
    FireIndexOk(p, EvSccrp, io);
    LateNewSession(Fire(p, EvSccrp, io), k, io');
  }
}
