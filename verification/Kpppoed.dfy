/**
 The PPPoE server's table of sessions: which identifiers it grants, and what
 PADR, PADT, L2TP events, daemon exits and shutdown do to the table.  Shutdown
 runs beside the main loop: it closes the connection, and then looks each
 session up and closes it in two steps.
 */
module Kpppoed {
  import opened Bytes
  import P = Pppoe

  const MAX_TRIES := 100
  const ID_RANGE := 65534
  const TAG_GENERIC_ERROR: U16 := 0x0203

  // terminations and padts count what has been done for the session.
  datatype Sess = Sess(sid: U16, peer: P.HwAddr, isOpen: bool, exited: bool, terminations: nat, padts: nat)

  datatype Held = Nobody | Holding(k: nat)

  // all lists the sessions ever tracked; the table gives their numbers in it.  orphans counts daemons started
  // for requests that could not be answered, which nobody tracks.  Nothing can be sent once conn is closed.
  datatype App = App(sessions: map<U16, nat>, all: seq<Sess>, shutdown: bool, conn: bool, held: Held, crashed: bool,
                     orphans: nat)

  const Start: App := App(map[], [], false, true, Nobody, false, 0)

  predicate TableOk(app: App)
  {
    && (forall sid | sid in app.sessions :: app.sessions[sid] < |app.all|)
    && (app.held.Holding? ==> app.held.k < |app.all|)
  }

  // ---------- Identifiers ----------

  // The numbers that the random source returns, each below ID_RANGE.
  predicate Draws(draws: seq<nat>)
  {
    |draws| == MAX_TRIES && forall i | 0 <= i < |draws| :: draws[i] < ID_RANGE
  }

  // The first drawn identifier that is free, or 0.
  function FreeId(taken: set<U16>, draws: seq<nat>): (sid: U16)
    requires forall i | 0 <= i < |draws| :: draws[i] < ID_RANGE
    ensures sid != 0 ==> sid <= ID_RANGE && sid !in taken
    decreases |draws|
  {
    if draws == [] then 0
    else if 1 + draws[0] !in taken then 1 + draws[0]
    else FreeId(taken, draws[1..])
  }

  /** An identifier is refused exactly when every draw hit one in use; otherwise it is the first free draw. */
  lemma {:induction false} FreeIdExactly(taken: set<U16>, draws: seq<nat>)
    requires forall i | 0 <= i < |draws| :: draws[i] < ID_RANGE
    ensures FreeId(taken, draws) == 0 <==> forall i | 0 <= i < |draws| :: 1 + draws[i] in taken
    ensures FreeId(taken, draws) != 0 ==>
              exists i: nat :: i < |draws| && FreeId(taken, draws) == 1 + draws[i]
                               && forall j | 0 <= j < i :: 1 + draws[j] in taken
    decreases |draws|
  {
    if draws != [] {
      var rest := draws[1..];
      FreeIdExactly(taken, rest);
      if 1 + draws[0] in taken {
        assert forall i | 0 < i < |draws| :: draws[i] == rest[i - 1];
        if FreeId(taken, rest) != 0 {
          var i: nat :| i < |rest| && FreeId(taken, rest) == 1 + rest[i]
                        && forall j | 0 <= j < i :: 1 + rest[j] in taken;
          assert draws[i + 1] == rest[i];
          assert forall j | 0 <= j < i + 1 :: 1 + draws[j] in taken;
        } else {
          assert forall i | 0 <= i < |draws| :: 1 + draws[i] in taken;
        }
      }
    }
  }

  // ---------- Packets ----------

  function Pads(own: P.HwAddr, peer: P.HwAddr, sid: U16, name: seq<Octet>, echoed: seq<P.Tag>, reason: seq<Octet>)
    : P.Packet
  {
    var tags := [P.Tag(P.TAG_SERVICE_NAME, name)] + echoed;
    P.Packet(own, peer, P.PADS, sid, if reason == [] then tags else tags + [P.Tag(P.TAG_SERVICE_NAME_ERROR, reason)])
  }

  function Padt(own: P.HwAddr, s: Sess, reason: seq<Octet>): P.Packet
  {
    P.Packet(own, s.peer, P.PADT, s.sid, if reason == [] then [] else [P.Tag(TAG_GENERIC_ERROR, reason)])
  }

  // sendPacket refuses no PADS that handlePADR builds, since identifier 0 always comes with a reason.
  lemma PadsIsValid(own: P.HwAddr, peer: P.HwAddr, sid: U16, name: seq<Octet>, echoed: seq<P.Tag>, reason: seq<Octet>)
    requires forall i | 0 <= i < |echoed| :: echoed[i].typ != P.TAG_SERVICE_NAME_ERROR
    ensures P.Valid(Pads(own, peer, sid, name, echoed, reason)) <==> sid != 0 || reason != []
  {
    var tags := Pads(own, peer, sid, name, echoed, reason).tags;
    assert tags[0].typ == P.TAG_SERVICE_NAME;
    assert reason != [] ==> tags[|tags| - 1].typ == P.TAG_SERVICE_NAME_ERROR;
    assert forall i | 0 < i <= |echoed| :: tags[i] == echoed[i - 1];
  }

  // The PADS carries an error exactly when there is a reason.
  lemma PadsTells(own: P.HwAddr, peer: P.HwAddr, sid: U16, name: seq<Octet>, echoed: seq<P.Tag>, reason: seq<Octet>)
    requires forall i | 0 <= i < |echoed| :: echoed[i].typ != P.TAG_SERVICE_NAME_ERROR
    ensures P.HasTag(P.TAG_SERVICE_NAME_ERROR, Pads(own, peer, sid, name, echoed, reason).tags) <==> reason != []
    ensures Pads(own, peer, sid, name, echoed, reason).tags[0] == P.Tag(P.TAG_SERVICE_NAME, name)
  {
    var tags := Pads(own, peer, sid, name, echoed, reason).tags;
    assert reason != [] ==> tags[|tags| - 1].typ == P.TAG_SERVICE_NAME_ERROR;
    assert forall i | 0 < i <= |echoed| :: tags[i] == echoed[i - 1];
  }

  // ---------- Steps ----------

  // A PADR and what happens around it: does the service exist, the draws, does the daemon start, is the PADS sent.
  datatype Request = Request(peer: P.HwAddr, serviceOk: bool, draws: seq<nat>, spawned: bool, sent: bool)

  function SessionIdFor(app: App, r: Request): U16
    requires Draws(r.draws)
  {
    if r.serviceOk then FreeId(app.sessions.Keys, r.draws) else 0
  }

  // Tracked whatever the identifier.  Without a daemon, waiting for it fails outright.
  function HandlePADR(app: App, r: Request): App
    requires Draws(r.draws)
  {
    if !(r.sent && app.conn) then app.(orphans := app.orphans + (if r.spawned then 1 else 0))
    else
      var sid := SessionIdFor(app, r);
      app.(sessions := app.sessions[sid := |app.all|],
           all := app.all + [Sess(sid, r.peer, true, false, 0, 0)],
           crashed := !r.spawned)
  }

  function Closed(s: Sess, sendPADT: bool, wire: bool): Sess
  {
    if !s.isOpen then s
    else s.(isOpen := false,
            terminations := s.terminations + 1,
            padts := if sendPADT && s.sid != 0 && wire then s.padts + 1 else s.padts)
  }

  function CloseSession(app: App, sid: U16, sendPADT: bool, wire: bool): App
    requires TableOk(app)
  {
    if sid !in app.sessions then app
    else var k := app.sessions[sid];
         app.(all := app.all[k := Closed(app.all[k], sendPADT, wire && app.conn)])
  }

  function DaemonExited(app: App, k: nat, wire: bool): App
    requires TableOk(app) && k < |app.all|
  {
    var sid := app.all[k].sid;
    var app1 := CloseSession(app, sid, true, wire);
    app1.(sessions := app1.sessions - {sid}, all := app1.all[k := app1.all[k].(exited := true)])
  }

  datatype Act =
    | RxPADR(r: Request)
    | RxPADT(sid: U16)
    | L2tpDown(sid: U16, wire: bool)
    | DaemonExit(k: nat, wire: bool)
    | Signal
    | ShutConn
    | ShutLook(sid: U16)
    | ShutClose(wire: bool)

  predicate Enabled(app: App, a: Act)
  {
    !app.crashed &&
    match a
    case RxPADR(r) => Draws(r.draws)
    case RxPADT(sid) => sid != 0
    case L2tpDown(_, _) => true
    case DaemonExit(k, _) => k < |app.all| && !app.all[k].exited
    case Signal => true
    case ShutConn => app.shutdown && app.conn
    case ShutLook(sid) => app.shutdown && !app.conn && app.held.Nobody? && sid in app.sessions
    case ShutClose(_) => app.held.Holding?
  }

  function Do(app: App, a: Act): App
    requires TableOk(app) && Enabled(app, a)
  {
    match a
    case RxPADR(r) => HandlePADR(app, r)
    case RxPADT(sid) => CloseSession(app, sid, false, false)
    case L2tpDown(sid, wire) => CloseSession(app, sid, true, wire)
    case DaemonExit(k, wire) => DaemonExited(app, k, wire)
    case Signal => app.(shutdown := true)
    case ShutConn => app.(conn := false)
    case ShutLook(sid) => app.(held := Holding(app.sessions[sid]))
    case ShutClose(wire) =>
      app.(held := Nobody, all := app.all[app.held.k := Closed(app.all[app.held.k], true, wire && app.conn)])
  }

  lemma DoTableOk(app: App, a: Act)
    requires TableOk(app) && Enabled(app, a)
    ensures TableOk(Do(app, a)) && |app.all| <= |Do(app, a).all|
  {
  }

  predicate Legal(app: App, trace: seq<Act>)
    requires TableOk(app)
    decreases |trace|
  {
    trace == []
    || (Enabled(app, trace[0]) && (DoTableOk(app, trace[0]); Legal(Do(app, trace[0]), trace[1..])))
  }

  function Run(app: App, trace: seq<Act>): App
    requires TableOk(app) && Legal(app, trace)
    decreases |trace|
  {
    if trace == [] then app else DoTableOk(app, trace[0]); Run(Do(app, trace[0]), trace[1..])
  }

  // ---------- What every step keeps ----------

  predicate SessInv(s: Sess)
  {
    && s.sid <= ID_RANGE
    && s.terminations == (if s.isOpen then 0 else 1)
    && s.padts <= s.terminations
    && (s.sid == 0 ==> s.padts == 0)
    && (s.sid != 0 && s.exited ==> !s.isOpen)
  }

  // A session with a live daemon that the table no longer leads to.
  predicate Lost(app: App, k: nat)
  {
    k < |app.all| && !app.all[k].exited
    && (app.all[k].sid in app.sessions ==> app.sessions[app.all[k].sid] != k)
  }

  predicate Inv(app: App)
  {
    && TableOk(app)
    && (forall k | 0 <= k < |app.all| :: SessInv(app.all[k]))
    && (forall sid | sid in app.sessions :: app.all[app.sessions[sid]].sid == sid && !app.all[app.sessions[sid]].exited)
    && (forall k: nat | k < |app.all| && app.all[k].sid != 0 :: !Lost(app, k))
  }

  lemma PadrKeeps(app: App, r: Request)
    requires Inv(app) && Draws(r.draws)
    ensures Inv(HandlePADR(app, r))
  {
  }

  lemma CloseKeeps(app: App, k: nat, sendPADT: bool, wire: bool)
    requires Inv(app) && k < |app.all|
    ensures Inv(app.(all := app.all[k := Closed(app.all[k], sendPADT, wire)]))
  {
  }

  // A daemon has gone whose session, if it was granted an identifier, is the one the table has there.
  lemma GoneKeeps(app: App, k: nat)
    requires Inv(app) && k < |app.all| && !app.all[k].exited
    requires app.all[k].sid != 0 ==> !app.all[k].isOpen
    ensures var sid := app.all[k].sid;
            Inv(app.(sessions := app.sessions - {sid}, all := app.all[k := app.all[k].(exited := true)]))
  {
    var sid := app.all[k].sid;
    var app' := app.(sessions := app.sessions - {sid}, all := app.all[k := app.all[k].(exited := true)]);
    forall j: nat | j < |app'.all| && app'.all[j].sid != 0
      ensures !Lost(app', j)
    {
      assert !Lost(app, j);
      assert app.all[k].sid != 0 ==> !Lost(app, k);
    }
  }

  lemma ExitKeeps(app: App, k: nat, wire: bool)
    requires Inv(app) && k < |app.all| && !app.all[k].exited
    ensures Inv(DaemonExited(app, k, wire))
  {
    var sid := app.all[k].sid;
    assert sid != 0 ==> !Lost(app, k);
    if sid in app.sessions {
      CloseKeeps(app, app.sessions[sid], true, wire && app.conn);
    }
    GoneKeeps(CloseSession(app, sid, true, wire), k);
  }

  lemma StepKeeps(app: App, a: Act)
    requires Inv(app) && Enabled(app, a)
    ensures Inv(Do(app, a))
  {
    match a
    case RxPADR(r) => PadrKeeps(app, r);
    case RxPADT(sid) => if sid in app.sessions { CloseKeeps(app, app.sessions[sid], false, false); }
    case L2tpDown(sid, wire) => if sid in app.sessions { CloseKeeps(app, app.sessions[sid], true, wire && app.conn); }
    case DaemonExit(k, wire) => ExitKeeps(app, k, wire);
    case Signal => SameSessions(app, Do(app, a));
    case ShutConn => SameSessions(app, Do(app, a));
    case ShutLook(_) => SameSessions(app, Do(app, a));
    case ShutClose(wire) =>
      CloseKeeps(app, app.held.k, true, wire && app.conn);
      SameSessions(app.(all := Do(app, a).all), Do(app, a));
  }

  lemma SameSessions(app: App, app': App)
    requires Inv(app) && TableOk(app') && app'.all == app.all && app'.sessions == app.sessions
    ensures Inv(app')
  {
  }

  lemma {:induction false} RunKeeps(app: App, trace: seq<Act>)
    requires Inv(app) && Legal(app, trace)
    ensures Inv(Run(app, trace))
    decreases |trace|
  {
    if trace != [] {
      StepKeeps(app, trace[0]);
      RunKeeps(Do(app, trace[0]), trace[1..]);
    }
  }

  // ---------- Theorems ----------

  ghost predicate Reachable(app: App)
  {
    TableOk(app) && exists trace :: Legal(Start, trace) && Run(Start, trace) == app
  }

  lemma ReachableInv(app: App)
    requires Reachable(app)
    ensures Inv(app)
  {
    var trace :| Legal(Start, trace) && Run(Start, trace) == app;
    RunKeeps(Start, trace);
  }

  /**
   Every identifier granted is in 1..65534 and belongs to one session, which
   the table leads to, until that session's daemon exits.
   */
  lemma GrantedIdsAreUnique(app: App, j: nat, k: nat)
    requires Reachable(app)
    requires j < |app.all| && k < |app.all| && app.all[k].sid != 0
    ensures 1 <= app.all[k].sid <= 65534
    ensures !app.all[k].exited ==> app.all[k].sid in app.sessions && app.sessions[app.all[k].sid] == k
    ensures !app.all[j].exited && !app.all[k].exited && app.all[j].sid == app.all[k].sid ==> j == k
  {
    ReachableInv(app);
    assert !Lost(app, k);
    assert app.all[j].sid != 0 ==> !Lost(app, j);
  }

  /**
   Over any mix of PADT, L2TP down, daemon exit and shutdown, a session is
   terminated once exactly if it has been closed, and at most one PADT is sent,
   none before it is closed; a granted session whose daemon has gone is closed.
   */
  lemma TerminatedAtMostOnce(app: App, k: nat)
    requires Reachable(app) && k < |app.all|
    ensures app.all[k].terminations == (if app.all[k].isOpen then 0 else 1)
    ensures app.all[k].padts <= app.all[k].terminations
    ensures app.all[k].exited && app.all[k].sid != 0 ==> app.all[k].terminations == 1
  {
    ReachableInv(app);
    assert SessInv(app.all[k]);
  }

  // A PADT from the peer ends the session it names and no other, and is not answered.
  lemma PadtEndsOnlyItsSession(app: App, k: nat, j: nat)
    requires Reachable(app) && !app.crashed
    requires k < |app.all| && j < |app.all| && j != k && app.all[k].sid != 0 && !app.all[k].exited
    ensures var app' := Do(app, RxPADT(app.all[k].sid));
            && !app'.all[k].isOpen && app'.all[k].padts == app.all[k].padts
            && app'.all[j] == app.all[j] && app'.sessions == app.sessions
  {
    GrantedIdsAreUnique(app, k, k);
  }

  // ---------- Refused requests ----------

  /** What a refused request does, being tracked under identifier 0 like any other. */
  predicate RefusedTwice(app: App, a: Act)
    requires Enabled(app, a)
  {
    a.RxPADR? && a.r.sent && app.conn && SessionIdFor(app, a.r) == 0 && 0 in app.sessions
  }

  predicate NoneLost(app: App)
  {
    forall k: nat | k < |app.all| :: !Lost(app, k)
  }

  /** A step loses a session exactly when it refuses a request while an earlier refused one is still tracked. */
  lemma LosesExactly(app: App, a: Act)
    requires Inv(app) && NoneLost(app) && Enabled(app, a)
    ensures NoneLost(Do(app, a)) <==> !RefusedTwice(app, a)
  {
    var app' := Do(app, a);
    if RefusedTwice(app, a) {
      assert Lost(app', app.sessions[0]);
    } else {
      forall k: nat | k < |app'.all|
        ensures !Lost(app', k)
      {
        if k < |app.all| {
          assert !Lost(app, k);
        }
        if a.DaemonExit? {
          assert !Lost(app, a.k);
        }
      }
    }
  }

  // Every state of the run, the first and the last included.
  predicate AlwaysTracked(app: App, trace: seq<Act>)
    requires TableOk(app) && Legal(app, trace)
    decreases |trace|
  {
    NoneLost(app) && (trace != [] ==> (DoTableOk(app, trace[0]); AlwaysTracked(Do(app, trace[0]), trace[1..])))
  }

  predicate NeverRefusesTwice(app: App, trace: seq<Act>)
    requires TableOk(app) && Legal(app, trace)
    decreases |trace|
  {
    trace != [] ==>
      && !RefusedTwice(app, trace[0])
      && (DoTableOk(app, trace[0]); NeverRefusesTwice(Do(app, trace[0]), trace[1..]))
  }

  /** Over a whole run, the table leads to every session with a live daemon exactly when no refusal meets another. */
  lemma {:induction false} TrackedExactly(app: App, trace: seq<Act>)
    requires Inv(app) && NoneLost(app) && Legal(app, trace)
    ensures AlwaysTracked(app, trace) <==> NeverRefusesTwice(app, trace)
    decreases |trace|
  {
    if trace != [] {
      var app' := Do(app, trace[0]);
      StepKeeps(app, trace[0]);
      LosesExactly(app, trace[0]);
      if NoneLost(app') {
        TrackedExactly(app', trace[1..]);
      }
    }
  }

  predicate ExitsAreClosed(app: App)
  {
    forall k | 0 <= k < |app.all| && app.all[k].exited :: !app.all[k].isOpen
  }

  /** With no such refusal, every daemon that exits leaves its session terminated, refused or not. */
  lemma {:induction false} EveryExitCloses(app: App, trace: seq<Act>)
    requires Inv(app) && NoneLost(app) && ExitsAreClosed(app)
    requires Legal(app, trace) && NeverRefusesTwice(app, trace)
    ensures ExitsAreClosed(Run(app, trace))
    decreases |trace|
  {
    if trace != [] {
      var a := trace[0];
      StepKeeps(app, a);
      LosesExactly(app, a);
      if a.DaemonExit? {
        assert !Lost(app, a.k);
      }
      EveryExitCloses(Do(app, a), trace[1..]);
    }
  }

  lemma LostStep(app: App, a: Act, k: nat)
    requires Inv(app) && Enabled(app, a) && Lost(app, k) && app.held != Holding(k)
    ensures var app' := Do(app, a);
            && app'.held != Holding(k) && k < |app'.all|
            && app'.all[k].isOpen == app.all[k].isOpen && app'.all[k].padts == app.all[k].padts
            && (app'.all[k].exited || Lost(app', k))
  {
    assert app.all[k].sid == 0;
  }

  // A refused session whose daemon has gone is out of reach as well.
  lemma GoneStep(app: App, a: Act, k: nat)
    requires Inv(app) && Enabled(app, a) && k < |app.all| && app.all[k].exited && app.held != Holding(k)
    ensures var app' := Do(app, a);
            app'.held != Holding(k) && k < |app'.all| && app'.all[k] == app.all[k]
  {
  }

  /**
   A lost session that shutdown is not about to close is never terminated,
   whatever follows, its own daemon's exit included.
   */
  lemma {:induction false} LostIsNeverTerminated(app: App, trace: seq<Act>, k: nat)
    requires Inv(app) && Legal(app, trace) && k < |app.all| && app.held != Holding(k)
    requires Lost(app, k) || app.all[k].exited
    ensures k < |Run(app, trace).all| && Run(app, trace).all[k].isOpen == app.all[k].isOpen
    ensures Run(app, trace).all[k].padts == app.all[k].padts
    decreases |trace|
  {
    if trace != [] {
      var a := trace[0];
      StepKeeps(app, a);
      if Lost(app, k) {
        LostStep(app, a, k);
      } else {
        GoneStep(app, a, k);
      }
      LostIsNeverTerminated(Do(app, a), trace[1..], k);
    }
  }

  /** The exit of a lost session's daemon closes another session, and loses that one too. */
  lemma LostExitHitsAnother(app: App, k: nat, wire: bool)
    requires Inv(app) && !app.crashed && Lost(app, k) && 0 in app.sessions
    ensures var app', j := Do(app, DaemonExit(k, wire)), app.sessions[0];
            j != k && !app'.all[j].isOpen && Lost(app', j) && app'.all[k].isOpen == app.all[k].isOpen
  {
  }

  const Refused: Request := Request([0, 0, 0, 0, 0, 0], false, seq(MAX_TRIES, _ => 0), true, true)

  // Two requests for a service that does not exist are enough.
  lemma LostIsReachable()
    ensures Legal(Start, [RxPADR(Refused), RxPADR(Refused)])
    ensures var app := Run(Start, [RxPADR(Refused), RxPADR(Refused)]); Lost(app, 0) && app.all[0].isOpen
  {
    var t := [RxPADR(Refused), RxPADR(Refused)];
    var app := Do(Start, t[0]);
    assert t[1..] == [RxPADR(Refused)] && t[1..][1..] == [];
    assert Legal(app, t[1..]);
    assert Run(Start, t) == Run(app, t[1..]) == Run(Do(app, t[1]), []);
  }

  // ---------- What closes a session, and who is told ----------

  // The step closes this session if it is open.
  predicate Hits(app: App, a: Act, k: nat)
    requires TableOk(app) && Enabled(app, a)
  {
    match a
    case RxPADT(sid) => sid in app.sessions && app.sessions[sid] == k
    case L2tpDown(sid, _) => sid in app.sessions && app.sessions[sid] == k
    case DaemonExit(j, _) => app.all[j].sid in app.sessions && app.sessions[app.all[j].sid] == k
    case ShutClose(_) => app.held.k == k
    case _ => false
  }

  // The write for a PADT would succeed: the socket takes it and the connection is open.
  predicate WireOk(app: App, a: Act) { app.conn && WireOf(a) }

  predicate WireOf(a: Act)
  {
    (a.L2tpDown? && a.wire) || (a.DaemonExit? && a.wire) || (a.ShutClose? && a.wire)
  }

  // A step that sends a PADT for session k.
  predicate Tells(app: App, a: Act, k: nat)
    requires TableOk(app) && Enabled(app, a) && k < |app.all|
  {
    app.all[k].isOpen && Hits(app, a, k) && !a.RxPADT? && app.all[k].sid != 0 && WireOk(app, a)
  }

  // A session before and after a step that may close it, tell its peer, and be its daemon's exit.
  predicate Became(s: Sess, s': Sess, closed: bool, told: bool, gone: bool)
  {
    && s'.sid == s.sid && s'.peer == s.peer
    && (s'.isOpen <==> s.isOpen && !closed) && (s'.exited <==> s.exited || gone)
    && s'.padts == s.padts + (if told then 1 else 0)
  }

  /**
   Every step, exactly: an open session is closed if the table leads the step to
   it, or shutdown holds it, and by nothing else; its peer is sent a PADT if the
   closing did not come from the peer, the session has an identifier and the
   write succeeds; and no other session is touched.
   */
  lemma ClosesExactly(app: App, a: Act, k: nat)
    requires Inv(app) && Enabled(app, a) && k < |app.all|
    ensures k < |Do(app, a).all|
    ensures Became(app.all[k], Do(app, a).all[k], Hits(app, a, k), Tells(app, a, k), a.DaemonExit? && a.k == k)
  {
    match a
    case RxPADT(sid) => if sid in app.sessions { CloseDoes(app.all, app.sessions[sid], false, false, k); }
    case L2tpDown(sid, wire) =>
      if sid in app.sessions { CloseDoes(app.all, app.sessions[sid], true, wire && app.conn, k); }
    case DaemonExit(j, wire) => ExitDoes(app, j, wire, k);
    case ShutClose(wire) => CloseDoes(app.all, app.held.k, true, wire && app.conn, k);
    case _ => OthersLeave(app, a, k);
  }

  lemma OthersLeave(app: App, a: Act, k: nat)
    requires Inv(app) && Enabled(app, a) && k < |app.all|
    requires a.RxPADR? || a.Signal? || a.ShutConn? || a.ShutLook?
    ensures k < |Do(app, a).all| && Do(app, a).all[k] == app.all[k]
  {
  }

  // Session j of the list is closed.
  lemma CloseDoes(all: seq<Sess>, j: nat, sendPADT: bool, wire: bool, k: nat)
    requires j < |all| && k < |all|
    ensures var s := all[k];
            Became(s, all[j := Closed(all[j], sendPADT, wire)][k], j == k,
                   s.isOpen && j == k && sendPADT && s.sid != 0 && wire, false)
  {
  }

  lemma ExitDoes(app: App, j: nat, wire: bool, k: nat)
    requires Inv(app) && !app.crashed && j < |app.all| && !app.all[j].exited && k < |app.all|
    ensures var a := DaemonExit(j, wire);
            Became(app.all[k], Do(app, a).all[k], Hits(app, a, k), Tells(app, a, k), j == k)
  {
    var sid := app.all[j].sid;
    if sid in app.sessions {
      CloseDoes(app.all, app.sessions[sid], true, wire && app.conn, k);
    }
  }

  predicate TellsIn(app: App, trace: seq<Act>, k: nat)
    requires TableOk(app) && Legal(app, trace) && k < |app.all|
    decreases |trace|
  {
    trace != [] && (Tells(app, trace[0], k) || (DoTableOk(app, trace[0]); TellsIn(Do(app, trace[0]), trace[1..], k)))
  }

  /** Over a whole run: a session's peer is told of its end exactly if some step closed it locally and could write. */
  lemma {:induction false} ToldExactly(app: App, trace: seq<Act>, k: nat)
    requires Inv(app) && Legal(app, trace) && k < |app.all|
    ensures k < |Run(app, trace).all|
    ensures Run(app, trace).all[k].padts > app.all[k].padts <==> TellsIn(app, trace, k)
    ensures Run(app, trace).all[k].padts >= app.all[k].padts
    decreases |trace|
  {
    if trace != [] {
      ClosesExactly(app, trace[0], k);
      StepKeeps(app, trace[0]);
      ToldExactly(Do(app, trace[0]), trace[1..], k);
    }
  }

  /**
   Shutdown closes the connection before it closes the sessions, so that from
   then on nobody is told, whatever follows, and no request is granted.
   */
  lemma {:induction false} ClosedConnIsSilent(app: App, trace: seq<Act>, k: nat)
    requires Inv(app) && Legal(app, trace) && !app.conn && k < |app.all|
    ensures !Run(app, trace).conn && |Run(app, trace).all| == |app.all|
    ensures Run(app, trace).all[k].padts == app.all[k].padts
    decreases |trace|
  {
    if trace != [] {
      ClosesExactly(app, trace[0], k);
      StepKeeps(app, trace[0]);
      ClosedConnIsSilent(Do(app, trace[0]), trace[1..], k);
    }
  }

  const Granted: Request := Request([2, 0, 0, 0, 0, 1], true, seq(MAX_TRIES, _ => 41), true, true)
  const Stop: seq<Act> := [RxPADR(Granted), Signal, ShutConn, ShutLook(42), ShutClose(true)]

  /** A granted session that is open at shutdown: it is terminated, and its peer is not told although the wire works. */
  lemma ShutdownTellsNobody()
    ensures Legal(Start, Stop)
    ensures Run(Start, Stop).all == [Sess(42, [2, 0, 0, 0, 0, 1], false, false, 1, 0)]
  {
    var a1 := Do(Start, Stop[0]);
    assert a1.all == [Sess(42, [2, 0, 0, 0, 0, 1], true, false, 0, 0)] && a1.sessions == map[42 := 0];
    var a2 := Do(a1, Stop[1]);
    var a3 := Do(a2, Stop[2]);
    var a4 := Do(a3, Stop[3]);
    var a5 := Do(a4, Stop[4]);
    RunCons(a4, Stop[4], []);
    RunCons(a3, Stop[3], [Stop[4]]);
    RunCons(a2, Stop[2], [Stop[3], Stop[4]]);
    RunCons(a1, Stop[1], [Stop[2], Stop[3], Stop[4]]);
    RunCons(Start, Stop[0], [Stop[1], Stop[2], Stop[3], Stop[4]]);
    assert Stop == [Stop[0]] + [Stop[1], Stop[2], Stop[3], Stop[4]];
    assert a5.all == [Sess(42, [2, 0, 0, 0, 0, 1], false, false, 1, 0)];
  }

  lemma RunCons(app: App, a: Act, rest: seq<Act>)
    requires TableOk(app) && Enabled(app, a) && TableOk(Do(app, a)) && Legal(Do(app, a), rest)
    ensures Legal(app, [a] + rest) && Run(app, [a] + rest) == Run(Do(app, a), rest)
  {
  }

  // ---------- Requests ----------

  /**
   What a request leaves behind: unless the answer cannot be sent, one more open
   session of that peer, under the first free identifier drawn, or 0 if the
   service is not on offer or every draw is taken; and nothing else changes for
   the sessions there are.
   */
  lemma RequestDoes(app: App, r: Request)
    requires Inv(app) && Enabled(app, RxPADR(r))
    ensures var app' := Do(app, RxPADR(r));
            && app.all <= app'.all
            && (r.sent && app.conn ==>
                  && |app'.all| == |app.all| + 1 && (app'.crashed <==> !r.spawned)
                  && var s := app'.all[|app.all|];
                     && s.peer == r.peer && s.isOpen && !s.exited && s.terminations == 0 && s.padts == 0
                     && app'.sessions == app.sessions[s.sid := |app.all|]
                     && (s.sid == 0 <==>
                           !r.serviceOk || forall i | 0 <= i < |r.draws| :: 1 + r.draws[i] in app.sessions)
                     && (s.sid != 0 ==>
                           exists i: nat :: i < |r.draws| && s.sid == 1 + r.draws[i] && s.sid !in app.sessions
                                            && forall j | 0 <= j < i :: 1 + r.draws[j] in app.sessions))
            && (!(r.sent && app.conn) ==>
                  && app'.all == app.all && app'.sessions == app.sessions && !app'.crashed
                  && app'.orphans == app.orphans + (if r.spawned then 1 else 0))
  {
    FreeIdExactly(app.sessions.Keys, r.draws);
  }

  /** The PADT of a session: to its peer, under its identifier, valid exactly if that is not 0. */
  lemma PadtIs(own: P.HwAddr, s: Sess, reason: seq<Octet>)
    ensures var p := Padt(own, s, reason);
            && p.src == own && p.dst == s.peer && p.code == 0xa7 && p.sid == s.sid
            && (P.Valid(p) <==> s.sid != 0)
            && p.tags == if reason == [] then [] else [P.Tag(0x0203, reason)]
  {
  }
}
