/**
 A dynamic session (section 7.4.1 of RFC 2661): its state table, the callbacks,
 which may raise further events, and what each event does to the session.
 */
module Session {
  import opened Fsm

  datatype State = WaitTunnel | WaitReply | Established | Dead
  datatype Event = TunnelOpen | Icrq | Icrp | Iccn | Cdn | Close
  datatype Action = SendIcrq | OnIcrp | OnCdn | SendCdn | JustClose

  datatype UserEvent = Up | Down

  // Outcomes of the operations a callback performs outside the session.
  datatype Io = Io(built: bool, sent: bool, peerIdFound: bool, dataPlane: bool, ifname: bool, cdnSent: bool)

  datatype Sess = Sess(
    state: State,
    isClosed: bool,
    established: bool,
    hasDataPlane: bool,
    events: seq<UserEvent>)

  const Table: seq<Row<State, Event, Action>> := [
    Row(WaitTunnel, [TunnelOpen], SendIcrq, WaitReply),
    Row(WaitTunnel, [Close], JustClose, Dead),
    Row(WaitReply, [Icrp], OnIcrp, Established),
    Row(WaitReply, [Iccn], JustClose, Dead),
    Row(WaitReply, [Cdn], OnCdn, Dead),
    Row(WaitReply, [Icrq, Close], SendCdn, Dead),
    Row(Established, [Cdn], OnCdn, Dead),
    Row(Established, [Icrq, Icrp, Iccn, Close], SendCdn, Dead)
  ]

  const Fresh: Sess := Sess(WaitTunnel, false, false, false, [])

  // fsmActClose, apart from unlinking the session from its tunnel.
  function Closed(s: Sess): Sess
  {
    s.(isClosed := true, established := false,
       events := if s.established then s.events + [Down] else s.events)
  }

  // A control message that cannot be sent closes the session.
  function Sent(s: Sess, ok: bool): Sess { if ok then s else Closed(s) }

  function CdnSent(s: Sess, io: Io): Sess { Closed(Sent(s, io.cdnSent)) }

  // The tail of fsmActOnIcrp; a failed send or a missing interface name does not stop it.
  function DataPlaneUp(s: Sess, io: Io): Sess
  {
    var s1 := Sent(s, io.sent);
    if !io.dataPlane then Closed(s1)
    else
      var s2 := s1.(hasDataPlane := true);
      var s3 := if io.ifname then s2 else Closed(s2);
      s3.(established := true, events := s3.events + [Up])
  }

  // What the table says, spelled out.
  lemma LookupTable(st: State, e: Event)
    ensures Lookup(Table, st, e) ==
            match (st, e)
            case (WaitTunnel, TunnelOpen) => Found(SendIcrq, WaitReply)
            case (WaitTunnel, Close) => Found(JustClose, Dead)
            case (WaitReply, Icrp) => Found(OnIcrp, Established)
            case (WaitReply, Iccn) => Found(JustClose, Dead)
            case (WaitReply, Cdn) => Found(OnCdn, Dead)
            case (WaitReply, Icrq) => Found(SendCdn, Dead)
            case (WaitReply, Close) => Found(SendCdn, Dead)
            case (Established, Cdn) => Found(OnCdn, Dead)
            case (Established, Icrq) => Found(SendCdn, Dead)
            case (Established, Icrp) => Found(SendCdn, Dead)
            case (Established, Iccn) => Found(SendCdn, Dead)
            case (Established, Close) => Found(SendCdn, Dead)
            case _ => NoRow
  {
    Unroll(Table, 0, st, e);
    Unroll(Table, 1, st, e);
    Unroll(Table, 2, st, e);
    Unroll(Table, 3, st, e);
    Unroll(Table, 4, st, e);
    Unroll(Table, 5, st, e);
    Unroll(Table, 6, st, e);
    Unroll(Table, 7, st, e);
  }

  // ---------- Events ----------

  // The callbacks that raise no event, once the state has moved.
  function Quiet(act: Action, s: Sess, io: Io): Sess
    requires act != OnIcrp
  {
    match act
    case SendIcrq => if io.built then Sent(s, io.sent) else Closed(s)
    case OnCdn => Closed(s)
    case SendCdn => CdnSent(s, io)
    case JustClose => Closed(s)
  }

  // A Close event raised by hand or from inside a callback.
  function RaiseClose(s: Sess, io: Io): Sess
  {
    LookupTable(s.state, Close);
    match Lookup(Table, s.state, Close)
    case NoRow => Closed(s)
    case Found(act, to) => Quiet(act, s.(state := to), io)
  }

  // What each callback does once the state has moved; OnIcrp may raise Close.
  function After(act: Action, s: Sess, io: Io): Sess
  {
    if act != OnIcrp then Quiet(act, s, io)
    else if !io.peerIdFound then RaiseClose(s, io)
    else if !io.built then Closed(s)
    else DataPlaneUp(s, io)
  }

  // One event: the table, then the callback.
  function Fire(s: Sess, e: Event, io: Io): Sess
  {
    match Lookup(Table, s.state, e)
    case NoRow => Closed(s)
    case Found(act, to) => After(act, s.(state := to), io)
  }

  lemma FireClose(s: Sess, io: Io)
    ensures Fire(s, Close, io) == RaiseClose(s, io)
  {
    LookupTable(s.state, Close);
  }

  // Nothing reopens a session.
  lemma FireStaysClosed(s: Sess, e: Event, io: Io)
    requires s.isClosed
    ensures Fire(s, e, io).isClosed
  {
    LookupTable(s.state, e);
  }

  // The kinds of control message a session may be handed.
  datatype MsgKind = KIcrq | KIcrp | KIccn | KCdn | KOther

  function EventOf(k: MsgKind): Event
  {
    match k
    case KIcrq => Icrq
    case KIcrp => Icrp
    case KIccn => Iccn
    case KCdn => Cdn
    case KOther => Close
  }

  // handleV2Msg: a message that fails validation raises Close and then its own event all the same.
  function HandleMsg(s: Sess, k: MsgKind, valid: bool, io: Io, io': Io): Sess
  {
    Fire(if valid then s else Fire(s, Close, io), EventOf(k), io')
  }

  // ---------- Every event keeps the session's brackets ----------

  predicate BracketOk(events: seq<UserEvent>) { events <= [Up, Down] }

  predicate SessInv(s: Sess)
  {
    && BracketOk(s.events)
    && (s.established <==> s.events == [Up])
    && (s.state == WaitTunnel || s.state == WaitReply ==> s.events == [] && !s.established && !s.hasDataPlane)
    && (s.state == Dead ==> s.isClosed)
    && (!s.isClosed && s.state == Established ==> s.established)
  }

  lemma FireKeeps(s: Sess, e: Event, io: Io)
    requires SessInv(s)
    ensures SessInv(Fire(s, e, io))
    ensures s.state == Dead ==> Fire(s, e, io).state == Dead
    ensures s.isClosed ==> Fire(s, e, io).isClosed
    ensures s.state == WaitTunnel ==> Fire(s, e, io).state in {WaitTunnel, WaitReply, Dead}
    ensures s.state != WaitTunnel ==> Fire(s, e, io).state != WaitTunnel
  {
    LookupTable(s.state, e);
    LookupTable(Established, Close);
    assert [Up] + [Down] == [Up, Down];
  }

  // ---------- Up without Down ----------

  // The data plane comes up, but the reply could not be acknowledged or the interface has no name.
  predicate Doomed(io: Io) { io.peerIdFound && io.built && io.dataPlane && !(io.sent && io.ifname) }

  // Closed with Up reported and Down not.
  predicate UpForEver(s: Sess) { s.isClosed && s.events == [Up] }

  /** One event closes a session with its Up unanswered exactly when it is a reply that dooms a waiting session. */
  lemma UpButClosedExactly(s: Sess, e: Event, io: Io)
    requires SessInv(s) && !s.isClosed
    ensures UpForEver(Fire(s, e, io)) <==> s.state == WaitReply && e == Icrp && Doomed(io)
  {
    LookupTable(s.state, e);
    LookupTable(Established, Close);
    assert [Up] + [Down] == [Up, Down];
  }

  lemma DeadIsSilent(s: Sess, e: Event, io: Io)
    requires s.state == Dead && !s.established
    ensures Fire(s, e, io).events == s.events
  {
    LookupTable(Dead, e);
  }

  lemma CloseIsDead(s: Sess, io: Io)
    requires SessInv(s)
    ensures Fire(s, Close, io).state == Dead && !Fire(s, Close, io).established
  {
    LookupTable(s.state, Close);
  }

  /** So does one message: a bad one closes the session properly first. */
  lemma MsgUpButClosedExactly(s: Sess, k: MsgKind, valid: bool, io: Io, io': Io)
    requires SessInv(s) && !s.isClosed
    ensures UpForEver(HandleMsg(s, k, valid, io, io'))
            <==> s.state == WaitReply && k == KIcrp && valid && Doomed(io')
  {
    if valid {
      UpButClosedExactly(s, EventOf(k), io');
    } else {
      var s1 := Fire(s, Close, io);
      FireKeeps(s, Close, io);
      UpButClosedExactly(s, Close, io);
      CloseIsDead(s, io);
      DeadIsSilent(s1, EventOf(k), io');
    }
  }

  // ---------- What each event and message does ----------

  // A reply to a waiting session.
  predicate Answered(s: Sess, e: Event) { s.state == WaitReply && e == Icrp }

  // The two steps of a call that goes well; every other event ends the session.
  predicate GoesOn(s: Sess, e: Event, io: Io)
  {
    || (s.state == WaitTunnel && e == TunnelOpen && io.built && io.sent)
    || (Answered(s, e) && io.peerIdFound && io.built && io.sent && io.dataPlane && io.ifname)
  }

  /**
   One event leaves a running session open exactly if it is the next step of its
   call and succeeds; Up is reported exactly on a reply after which the data
   plane comes up; and an established session answers its Up with Down on any
   event.
   */
  lemma EventDoes(s: Sess, e: Event, io: Io)
    requires SessInv(s) && !s.isClosed
    ensures !Fire(s, e, io).isClosed <==> GoesOn(s, e, io)
    ensures s.events == [] && Fire(s, e, io).events != []
            <==> Answered(s, e) && io.peerIdFound && io.built && io.dataPlane
    ensures Fire(s, e, io).hasDataPlane
            <==> s.hasDataPlane || (Answered(s, e) && io.peerIdFound && io.built && io.dataPlane)
    ensures s.established ==> Fire(s, e, io).events == [Up, Down]
  {
    LookupTable(s.state, e);
    LookupTable(Established, Close);
    assert [Up] + [Down] == [Up, Down];
  }

  /**
   One message: a session stays open only on a valid reply it waits for, after
   which everything succeeds, and reports up only on a valid reply.
   */
  lemma MessageDoes(s: Sess, k: MsgKind, valid: bool, io: Io, io': Io)
    requires SessInv(s) && !s.isClosed
    ensures var s' := HandleMsg(s, k, valid, io, io');
            && (!s'.isClosed <==>
                  && valid && k == KIcrp && s.state == WaitReply
                  && io'.peerIdFound && io'.built && io'.sent && io'.dataPlane && io'.ifname)
            && (s.events == [] && s'.events != [] <==>
                  && valid && k == KIcrp && s.state == WaitReply
                  && io'.peerIdFound && io'.built && io'.dataPlane)
            && (s.established ==> s'.events == [Up, Down])
  {
    if valid {
      EventDoes(s, EventOf(k), io');
    } else {
      EventDoes(s, Close, io);
      CloseIsDead(s, io);
      var s1 := Fire(s, Close, io);
      FireKeeps(s, Close, io);
      DeadIsSilent(s1, EventOf(k), io');
      FireKeeps(s1, EventOf(k), io');
    }
  }

  /**
   The callback that a message leads to: out of place after the request it has a
   CDN sent, except that an ICCN just closes; the peer's own CDN is not answered.
   */
  lemma MessageCallback(k: MsgKind, st: State)
    ensures Lookup(Table, st, EventOf(k)) ==
            match (st, k)
            case (WaitReply, KIcrp) => Found(OnIcrp, Established)
            case (WaitReply, KIccn) => Found(JustClose, Dead)
            case (WaitReply, KCdn) => Found(OnCdn, Dead)
            case (WaitReply, _) => Found(SendCdn, Dead)
            case (Established, KCdn) => Found(OnCdn, Dead)
            case (Established, _) => Found(SendCdn, Dead)
            case (WaitTunnel, KOther) => Found(JustClose, Dead)
            case _ => NoRow
  {
    LookupTable(st, EventOf(k));
  }
}
