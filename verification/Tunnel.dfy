/**
 A dynamic tunnel (section 7.2.1 of RFC 2661) together with any number of
 sessions: the tunnel's state table and callbacks, the two indexes of linked
 sessions, and the loop iterations of the tunnel and session goroutines as the
 steps of one product machine.

 A message to a session goes through its inbox.  The program's channels are
 unbuffered, so its runs are among those of the model.
 */
module Tunnel {
  import opened Fsm
  import S = Session

  datatype State = Idle | WaitCtlReply | Established | Dead

  datatype EventKind = KOpen | KSccrq | KSccrp | KScccn | KStopccn | KSessionMsg | KNewSession | KClose

  datatype Action =
    SendSccrq | OnSccrp | OnStopccn | LinkSession | Nothing | SendStopccn | StartSession | ForwardMsg

  datatype Event =
    | EvOpen
    | EvSccrq
    | EvSccrp
    | EvScccn
    | EvStopccn
    | EvSessionMsg(sid: int, kind: S.MsgKind, valid: bool)
    | EvNewSession(k: nat)
    | EvClose

  function KindOf(e: Event): EventKind
  {
    match e
    case EvOpen => KOpen
    case EvSccrq => KSccrq
    case EvSccrp => KSccrp
    case EvScccn => KScccn
    case EvStopccn => KStopccn
    case EvSessionMsg(_, _, _) => KSessionMsg
    case EvNewSession(_) => KNewSession
    case EvClose => KClose
  }

  const Table: seq<Row<State, EventKind, Action>> := [
    Row(Idle, [KOpen], SendSccrq, WaitCtlReply),
    Row(WaitCtlReply, [KSccrp], OnSccrp, Established),
    Row(WaitCtlReply, [KStopccn], OnStopccn, Dead),
    Row(WaitCtlReply, [KNewSession], LinkSession, WaitCtlReply),
    Row(WaitCtlReply, [KSessionMsg], Nothing, WaitCtlReply),
    Row(WaitCtlReply, [KSccrq, KScccn, KClose], SendStopccn, Dead),
    Row(Established, [KStopccn], OnStopccn, Dead),
    Row(Established, [KNewSession], StartSession, Established),
    Row(Established, [KSessionMsg], ForwardMsg, Established),
    Row(Established, [KSccrq, KSccrp, KScccn, KClose], SendStopccn, Dead)
  ]

  lemma LookupTable(st: State, k: EventKind)
    ensures Lookup(Table, st, k) ==
            match (st, k)
            case (Idle, KOpen) => Found(SendSccrq, WaitCtlReply)
            case (WaitCtlReply, KSccrp) => Found(OnSccrp, Established)
            case (WaitCtlReply, KStopccn) => Found(OnStopccn, Dead)
            case (WaitCtlReply, KNewSession) => Found(LinkSession, WaitCtlReply)
            case (WaitCtlReply, KSessionMsg) => Found(Nothing, WaitCtlReply)
            case (WaitCtlReply, KSccrq) => Found(SendStopccn, Dead)
            case (WaitCtlReply, KScccn) => Found(SendStopccn, Dead)
            case (WaitCtlReply, KClose) => Found(SendStopccn, Dead)
            case (Established, KStopccn) => Found(OnStopccn, Dead)
            case (Established, KNewSession) => Found(StartSession, Established)
            case (Established, KSessionMsg) => Found(ForwardMsg, Established)
            case (Established, KSccrq) => Found(SendStopccn, Dead)
            case (Established, KSccrp) => Found(SendStopccn, Dead)
            case (Established, KScccn) => Found(SendStopccn, Dead)
            case (Established, KClose) => Found(SendStopccn, Dead)
            case _ => NoRow
  {
    Unroll(Table, 0, st, k);
    Unroll(Table, 1, st, k);
    Unroll(Table, 2, st, k);
    Unroll(Table, 3, st, k);
    Unroll(Table, 4, st, k);
    Unroll(Table, 5, st, k);
    Unroll(Table, 6, st, k);
    Unroll(Table, 7, st, k);
    Unroll(Table, 8, st, k);
    Unroll(Table, 9, st, k);
  }

  // ---------- State ----------

  // What the tunnel puts on a session's channels.
  datatype In = Open | Msg(kind: S.MsgKind, valid: bool)

  // A session as the tunnel's owner sees it.  opens counts the notifications that the tunnel is up.
  datatype Member = Member(
    name: string,
    id: int,
    s: S.Sess,
    inbox: seq<In>,
    opens: nat,
    closeAsked: bool,
    exited: bool)

  datatype Tun = Tun(
    state: State,
    isClosing: bool,
    established: bool,
    hasDataPlane: bool,
    events: seq<S.UserEvent>,
    dpDowns: nat,
    xportCloses: nat,
    byName: map<string, nat>,
    byId: map<int, nat>)

  // The sessions ever created, by number, and the tunnel.
  datatype Product = Product(t: Tun, ms: seq<Member>)

  datatype Io = Io(built: bool, sent: bool, peerIdFound: bool, dataPlane: bool)

  const Start: Product := Product(Tun(Idle, false, false, false, [], 0, 0, map[], map[]), [])

  predicate IndexOk(p: Product)
  {
    && (forall n | n in p.t.byName :: p.t.byName[n] < |p.ms|)
    && (forall i | i in p.t.byId :: p.t.byId[i] < |p.ms|)
  }

  // ---------- Indexes ----------

  function Link(p: Product, k: nat): Product
    requires k < |p.ms|
  {
    p.(t := p.t.(byName := p.t.byName[p.ms[k].name := k], byId := p.t.byId[p.ms[k].id := k]))
  }

  // Unlinking goes by name and identifier, whichever session they now belong to.
  function Unlink(t: Tun, m: Member): Tun { t.(byName := t.byName - {m.name}, byId := t.byId - {m.id}) }

  // ---------- Callbacks ----------

  function OpenOne(m: Member): Member { m.(inbox := m.inbox + [Open], opens := m.opens + 1) }

  function Killed(m: Member): Member { if m.exited then m else m.(s := S.Closed(m.s), exited := true) }

  function OpenLinked(p: Product): Product
  {
    p.(ms := seq(|p.ms|, k requires 0 <= k < |p.ms| =>
      if k in p.t.byName.Values then OpenOne(p.ms[k]) else p.ms[k]))
  }

  function KillLinked(p: Product): seq<Member>
  {
    seq(|p.ms|, k requires 0 <= k < |p.ms| => if k in p.t.byName.Values then Killed(p.ms[k]) else p.ms[k])
  }

  function LinkedIds(p: Product): set<int>
    requires IndexOk(p)
  {
    set n | n in p.t.byName :: p.ms[p.t.byName[n]].id
  }

  // fsmActClose: at most once, and everything at once.
  function CloseTunnel(p: Product): Product
    requires IndexOk(p)
  {
    if p.t.isClosing then p
    else
      Product(
        p.t.(isClosing := true,
             established := false,
             events := if p.t.established then p.t.events + [S.Down] else p.t.events,
             dpDowns := if p.t.hasDataPlane then p.t.dpDowns + 1 else p.t.dpDowns,
             xportCloses := p.t.xportCloses + 1,
             byName := map[],
             byId := p.t.byId - LinkedIds(p)),
        KillLinked(p))
  }

  function ReportUp(p: Product): Product
  {
    var p' := OpenLinked(p);
    p'.(t := p'.t.(hasDataPlane := true, established := true, events := p'.t.events + [S.Up]))
  }

  function Forward(p: Product, e: Event): Product
    requires IndexOk(p) && e.EvSessionMsg?
  {
    if e.sid in p.t.byId then
      var k := p.t.byId[e.sid];
      p.(ms := p.ms[k := p.ms[k].(inbox := p.ms[k].inbox + [Msg(e.kind, e.valid)])])
    else p
  }

  predicate Suits(act: Action, e: Event)
  {
    && (act == LinkSession || act == StartSession ==> e.EvNewSession?)
    && (act == ForwardMsg ==> e.EvSessionMsg?)
  }

  // The callbacks that raise no event, once the state has moved.
  function Quiet(act: Action, e: Event, io: Io, p: Product): Product
    requires IndexOk(p) && (e.EvNewSession? ==> e.k < |p.ms|) && Suits(act, e) && act != OnSccrp
  {
    match act
    case SendSccrq => if io.built && io.sent then p else CloseTunnel(p)
    case OnStopccn => CloseTunnel(p)
    case SendStopccn => CloseTunnel(p)
    case Nothing => p
    case LinkSession => Link(p, e.k)
    case StartSession => Link(p, e.k).(ms := p.ms[e.k := OpenOne(p.ms[e.k])])
    case ForwardMsg => Forward(p, e)
  }

  // A close event raised from inside a callback.
  function RaiseClose(p: Product, io: Io): Product
    requires IndexOk(p)
  {
    LookupTable(p.t.state, KClose);
    match Lookup(Table, p.t.state, KClose)
    case NoRow => CloseTunnel(p)
    case Found(act, to) => Quiet(act, EvClose, io, p.(t := p.t.(state := to)))
  }

  // What each callback does once the state has moved; OnSccrp may raise a close event.
  function After(act: Action, e: Event, io: Io, p: Product): Product
    requires IndexOk(p) && (e.EvNewSession? ==> e.k < |p.ms|) && Suits(act, e)
  {
    if act != OnSccrp then Quiet(act, e, io, p)
    else if !io.peerIdFound then RaiseClose(p, io)
    else if !(io.built && io.sent) then CloseTunnel(p)
    else if !io.dataPlane then RaiseClose(p, io)
    else ReportUp(p)
  }

  // One event: the table, then the callback.
  function Fire(p: Product, e: Event, io: Io): Product
    requires IndexOk(p) && (e.EvNewSession? ==> e.k < |p.ms|)
  {
    LookupTable(p.t.state, KindOf(e));
    match Lookup(Table, p.t.state, KindOf(e))
    case NoRow => CloseTunnel(p)
    case Found(act, to) => After(act, e, io, p.(t := p.t.(state := to)))
  }

  lemma FireIs(p: Product, e: Event, io: Io)
    requires IndexOk(p) && (e.EvNewSession? ==> e.k < |p.ms|)
    ensures var m := Lookup(Table, p.t.state, KindOf(e));
            if m.NoRow? then Fire(p, e, io) == CloseTunnel(p)
            else && Suits(m.act, e) && (m.act == OnSccrp ==> e.EvSccrp? && m.to == Established)
                 && Fire(p, e, io) == After(m.act, e, io, p.(t := p.t.(state := m.to)))
  {
    LookupTable(p.t.state, KindOf(e));
  }

  lemma FireIsRaise(p: Product, io: Io)
    requires IndexOk(p)
    ensures Fire(p, EvClose, io) == RaiseClose(p, io)
  {
    LookupTable(p.t.state, KClose);
  }

  lemma RaiseCloseIs(p: Product, io: Io)
    requires IndexOk(p) && (p.t.state == WaitCtlReply || p.t.state == Established)
    ensures RaiseClose(p, io) == CloseTunnel(p.(t := p.t.(state := Dead)))
  {
    LookupTable(p.t.state, KClose);
  }

  // Where the events raised by the reply's callback end.
  lemma FireSccrp(p: Product, io: Io)
    requires IndexOk(p) && p.t.state == WaitCtlReply
    ensures Fire(p, EvSccrp, io) ==
            if !io.peerIdFound || (io.built && io.sent && !io.dataPlane) then CloseTunnel(p.(t := p.t.(state := Dead)))
            else if !(io.built && io.sent) then CloseTunnel(p.(t := p.t.(state := Established)))
            else ReportUp(p.(t := p.t.(state := Established)))
  {
    LookupTable(WaitCtlReply, KSccrp);
    var p' := p.(t := p.t.(state := Established));
    RaiseCloseIs(p', io);
    assert p'.(t := p'.t.(state := Dead)) == p.(t := p.t.(state := Dead));
  }

  // ---------- Steps ----------

  datatype TMsg = MSccrq | MSccrp | MScccn | MStopccn | MHello | MSession(sid: int, kind: S.MsgKind) | MOther

  function EventOf(m: TMsg, valid: bool): Event
    requires !m.MHello?
  {
    match m
    case MSccrq => EvSccrq
    case MSccrp => EvSccrp
    case MScccn => EvScccn
    case MStopccn => EvStopccn
    case MSession(sid, kind) => EvSessionMsg(sid, kind, valid)
    case MOther => EvClose
  }

  datatype Act =
    | Begin(io: Io)
    | Message(m: TMsg, valid: bool, io: Io, io': Io)
    | UserClose(io: Io)
    | TransportDown
    | NewSession(name: string, id: int, io: Io)
    | SessionStep(k: nat, sio: S.Io, sio': S.Io)
    | AskClose(k: nat)
    | TakeClose(k: nat, sio: S.Io)

  // A session's loop ends when it has exited.  The tunnel's does not test isClosing: after closing it takes
  // another turn on the closed receive channel, or on its owner's request.  No message comes from a closed transport.
  predicate Enabled(p: Product, a: Act)
  {
    match a
    case Begin(_) => p.t.state == Idle && !p.t.isClosing
    case Message(_, _, _, _) => p.t.state != Idle && !p.t.isClosing
    case UserClose(_) => p.t.state != Idle
    case TransportDown => p.t.state != Idle
    case NewSession(name, id, _) =>
      p.t.state != Idle && !p.t.isClosing && name !in p.t.byName && id !in p.t.byId
    case SessionStep(k, _, _) => k < |p.ms| && !p.ms[k].exited && p.ms[k].inbox != []
    case AskClose(k) => k < |p.ms| && !p.ms[k].closeAsked
    case TakeClose(k, _) => k < |p.ms| && !p.ms[k].exited && p.ms[k].closeAsked
  }

  // handleV2Msg: a bad message raises EvClose and then its own event.
  function HandleMsg(p: Product, m: TMsg, valid: bool, io: Io, io': Io): Product
    requires IndexOk(p)
  {
    var p1 := if valid then p else Fire(p, EvClose, io);
    assert IndexOk(p1) by { if !valid { FireIndexOk(p, EvClose, io); } }
    if m.MHello? then p1 else Fire(p1, EventOf(m, valid), io')
  }

  // A session has handled something: its loop ends once it is closed, and closing unlinks it.
  function AfterSession(p: Product, k: nat, m: Member): Product
    requires k < |p.ms|
  {
    if m.s.isClosed then Product(Unlink(p.t, m), p.ms[k := m.(exited := true)])
    else p.(ms := p.ms[k := m])
  }

  function Received(m: Member, sio: S.Io, sio': S.Io): Member
    requires m.inbox != []
  {
    var s := match m.inbox[0]
             case Open => S.Fire(m.s, S.TunnelOpen, sio)
             case Msg(kind, valid) => S.HandleMsg(m.s, kind, valid, sio, sio');
    m.(s := s, inbox := m.inbox[1..])
  }

  function Do(p: Product, a: Act): Product
    requires IndexOk(p) && Enabled(p, a)
  {
    match a
    case Begin(io) => Fire(p, EvOpen, io)
    case Message(m, valid, io, io') => HandleMsg(p, m, valid, io, io')
    case UserClose(io) => Fire(p, EvClose, io)
    case TransportDown => CloseTunnel(p)
    case NewSession(name, id, io) =>
      var p1 := p.(ms := p.ms + [Member(name, id, S.Fresh, [], 0, false, false)]);
      Fire(p1, EvNewSession(|p.ms|), io)
    case SessionStep(k, sio, sio') => AfterSession(p, k, Received(p.ms[k], sio, sio'))
    case AskClose(k) => Product(Unlink(p.t, p.ms[k]), p.ms[k := p.ms[k].(closeAsked := true)])
    case TakeClose(k, sio) =>
      AfterSession(p, k, p.ms[k].(s := S.Fire(p.ms[k].s, S.Close, sio)))
  }

  lemma CloseIndexOk(p: Product)
    requires IndexOk(p)
    ensures IndexOk(CloseTunnel(p)) && |CloseTunnel(p).ms| == |p.ms|
  {
  }

  lemma QuietIndexOk(act: Action, e: Event, io: Io, p: Product)
    requires IndexOk(p) && (e.EvNewSession? ==> e.k < |p.ms|) && Suits(act, e) && act != OnSccrp
    ensures IndexOk(Quiet(act, e, io, p)) && |Quiet(act, e, io, p).ms| == |p.ms|
  {
    CloseIndexOk(p);
  }

  lemma RaiseIndexOk(p: Product, io: Io)
    requires IndexOk(p)
    ensures IndexOk(RaiseClose(p, io)) && |RaiseClose(p, io).ms| == |p.ms|
  {
    LookupTable(p.t.state, KClose);
    var m := Lookup(Table, p.t.state, KClose);
    if m.NoRow? {
      CloseIndexOk(p);
    } else {
      QuietIndexOk(m.act, EvClose, io, p.(t := p.t.(state := m.to)));
    }
  }

  lemma AfterIndexOk(act: Action, e: Event, io: Io, p: Product)
    requires IndexOk(p) && (e.EvNewSession? ==> e.k < |p.ms|) && Suits(act, e)
    ensures IndexOk(After(act, e, io, p)) && |After(act, e, io, p).ms| == |p.ms|
  {
    if act == OnSccrp {
      RaiseIndexOk(p, io);
      CloseIndexOk(p);
    } else {
      QuietIndexOk(act, e, io, p);
    }
  }

  lemma FireIndexOk(p: Product, e: Event, io: Io)
    requires IndexOk(p) && (e.EvNewSession? ==> e.k < |p.ms|)
    ensures IndexOk(Fire(p, e, io)) && |Fire(p, e, io).ms| == |p.ms|
  {
    LookupTable(p.t.state, KindOf(e));
    var m := Lookup(Table, p.t.state, KindOf(e));
    if m.NoRow? {
      CloseIndexOk(p);
    } else {
      AfterIndexOk(m.act, e, io, p.(t := p.t.(state := m.to)));
    }
  }

  lemma DoIndexOk(p: Product, a: Act)
    requires IndexOk(p) && Enabled(p, a)
    ensures IndexOk(Do(p, a))
  {
    match a
    case Begin(io) => FireIndexOk(p, EvOpen, io);
    case Message(m, valid, io, io') =>
      if !valid { FireIndexOk(p, EvClose, io); }
      var p1 := if valid then p else Fire(p, EvClose, io);
      if !m.MHello? { FireIndexOk(p1, EventOf(m, valid), io'); }
    case UserClose(io) => FireIndexOk(p, EvClose, io);
    case NewSession(name, id, io) =>
      FireIndexOk(p.(ms := p.ms + [Member(name, id, S.Fresh, [], 0, false, false)]), EvNewSession(|p.ms|), io);
    case _ =>
  }

  // ---------- Traces ----------

  predicate Legal(p: Product, trace: seq<Act>)
    requires IndexOk(p)
    decreases |trace|
  {
    trace == []
    || (Enabled(p, trace[0]) && (DoIndexOk(p, trace[0]); Legal(Do(p, trace[0]), trace[1..])))
  }

  function Run(p: Product, trace: seq<Act>): Product
    requires IndexOk(p) && Legal(p, trace)
    decreases |trace|
  {
    if trace == [] then p else DoIndexOk(p, trace[0]); Run(Do(p, trace[0]), trace[1..])
  }

  // A session can still unlink a name or identifier as long as it runs or its owner has not closed it.
  predicate NoReuse(p: Product, a: Act)
  {
    a.NewSession? ==>
      forall k | 0 <= k < |p.ms| && !(p.ms[k].exited && p.ms[k].closeAsked) ::
        p.ms[k].name != a.name && p.ms[k].id != a.id
  }

  predicate NeverReuses(p: Product, trace: seq<Act>)
    requires IndexOk(p) && Legal(p, trace)
    decreases |trace|
  {
    trace == []
    || (NoReuse(p, trace[0]) && (DoIndexOk(p, trace[0]); NeverReuses(Do(p, trace[0]), trace[1..])))
  }
}
