/**
 The PPPoE server's application object, whose handlers update the session
 table and the sessions in place.  Every method is proved against Kpppoed.
 */
module KpppoedApp {
  import opened Bytes
  import opened Kpppoed
  import P = Pppoe

  const TAG_HOST_UNIQ: U16 := 0x0103
  const TAG_RELAY_SESSION_ID: U16 := 0x0110
  const ERROR_TEXT: seq<Octet> := [0x3f]  // stands for the texts of error reasons, which are never empty

  class PppoeSession {
    const sid: U16
    const peer: P.HwAddr
    const num: nat  // sessions are numbered in the order they are tracked
    var isOpen: bool
    var exited: bool
    var terminations: nat
    var padts: nat

    ghost function Value(): Sess
      reads this
    {
      Sess(sid, peer, isOpen, exited, terminations, padts)
    }

    constructor (sid: U16, peer: P.HwAddr, num: nat)
      ensures this.num == num && Value() == Sess(sid, peer, true, false, 0, 0)
    {
      this.sid, this.peer, this.num := sid, peer, num;
      isOpen, exited, terminations, padts := true, false, 0, 0;
    }
  }

  // The service that the first service name tag asks for is on offer.
  predicate ServiceOk(services: seq<seq<Octet>>, tags: seq<P.Tag>)
  {
    exists i :: 0 <= i < |tags| && tags[i].typ == P.TAG_SERVICE_NAME
                && (tags[i].data == [] || tags[i].data in services)
                && forall j | 0 <= j < i :: tags[j].typ != P.TAG_SERVICE_NAME
  }

  // The first tag of its type.
  predicate Leads(tags: seq<P.Tag>, t: P.Tag)
  {
    exists i :: 0 <= i < |tags| && tags[i] == t && forall j | 0 <= j < i :: tags[j].typ != t.typ
  }

  // The first tag of a type comes back exactly if there was one, and no other of that type does.
  ghost predicate Echoes(asked: seq<P.Tag>, answer: seq<P.Tag>, typ: U16)
  {
    && (P.HasTag(typ, answer) <==> P.HasTag(typ, asked))
    && (forall t | t in answer && t.typ == typ :: Leads(asked, t))
  }

  lemma PadsEchoes(
    own: P.HwAddr, peer: P.HwAddr, sid: U16, name: seq<Octet>, asked: seq<P.Tag>, echoed: seq<P.Tag>,
    reason: seq<Octet>, typ: U16)
    requires typ != P.TAG_SERVICE_NAME && typ != P.TAG_SERVICE_NAME_ERROR && Echoes(asked, echoed, typ)
    ensures Echoes(asked, Pads(own, peer, sid, name, echoed, reason).tags, typ)
  {
    var tags := Pads(own, peer, sid, name, echoed, reason).tags;
    assert forall i | 0 <= i < |echoed| :: tags[i + 1] == echoed[i];
    assert forall t | t in tags && t.typ == typ :: t in echoed;
    if P.HasTag(typ, tags) {
      var i :| 0 <= i < |tags| && tags[i].typ == typ;
      assert tags[i] in echoed;
    }
  }

  method AppendEchoedTags(pkt: P.Packet) returns (echoed: seq<P.Tag>)
    ensures |echoed| <= 2
    ensures forall t | t in echoed :: Leads(pkt.tags, t) && t.typ in {TAG_HOST_UNIQ, TAG_RELAY_SESSION_ID}
    ensures P.HasTag(TAG_HOST_UNIQ, echoed) <==> P.HasTag(TAG_HOST_UNIQ, pkt.tags)
    ensures P.HasTag(TAG_RELAY_SESSION_ID, echoed) <==> P.HasTag(TAG_RELAY_SESSION_ID, pkt.tags)
  {
    echoed := [];
    var gotHost, host := P.FindTag(TAG_HOST_UNIQ, pkt.tags);
    if gotHost {
      echoed := [host];
      assert echoed[0].typ == TAG_HOST_UNIQ;
    }
    var gotRelay, relay := P.FindTag(TAG_RELAY_SESSION_ID, pkt.tags);
    if gotRelay {
      echoed := echoed + [relay];
      assert echoed[|echoed| - 1].typ == TAG_RELAY_SESSION_ID;
      assert gotHost ==> echoed[0].typ == TAG_HOST_UNIQ;
    }
  }

  lemma {:induction false} RunAppend(app: App, t: seq<Act>, u: seq<Act>)
    requires TableOk(app) && Legal(app, t)
    requires TableOk(Run(app, t)) && Legal(Run(app, t), u)
    ensures Legal(app, t + u) && Run(app, t + u) == Run(Run(app, t), u)
    decreases |t|
  {
    if t == [] {
      assert t + u == u;
    } else {
      DoTableOk(app, t[0]);
      RunAppend(Do(app, t[0]), t[1..], u);
      assert (t + u)[1..] == t[1..] + u;
    }
  }

  // Shutdown looks one session up and closes it.
  lemma ShutOne(app: App, sid: U16, wire: bool)
    requires TableOk(app) && app.shutdown && !app.conn && !app.crashed && app.held.Nobody? && sid in app.sessions
    ensures Legal(app, [ShutLook(sid), ShutClose(wire)])
    ensures Run(app, [ShutLook(sid), ShutClose(wire)]) == CloseSession(app, sid, true, wire)
  {
    var t := [ShutLook(sid), ShutClose(wire)];
    var app1 := Do(app, t[0]);
    assert t[1..] == [ShutClose(wire)] && t[1..][1..] == [];
    assert Legal(Do(app1, t[1]), []);
    assert Run(app1, t[1..]) == Do(app1, t[1]);
  }

  ghost predicate Reaches(app: App, trace: seq<Act>, app': App)
  {
    TableOk(app) && TableOk(app') && Legal(app, trace) && Run(app, trace) == app'
  }

  // Every session in the table is closed, but perhaps for those still to do.
  predicate ClosedExcept(app: App, left: set<U16>)
    requires TableOk(app)
  {
    forall sid | sid in app.sessions :: sid in left || !app.all[app.sessions[sid]].isOpen
  }

  // A run leads from one state to the other, in which only those sessions may still be open.
  ghost predicate Progress(app: App, now: App, left: set<U16>)
  {
    exists trace :: Reaches(app, trace, now) && ClosedExcept(now, left)
  }

  // Shutdown starts by closing the connection.
  lemma LeadsToClosedConn(app: App)
    requires TableOk(app) && app.shutdown && app.conn && !app.crashed
    ensures var app' := app.(conn := false); Progress(app, app', app'.sessions.Keys)
  {
    var t := [ShutConn];
    assert t[1..] == [] && Legal(Do(app, ShutConn), []);
    assert Reaches(app, t, app.(conn := false));
  }

  lemma LeadsOn(app: App, now: App, left: set<U16>, sid: U16, wire: bool)
    requires Progress(app, now, left)
    requires now.shutdown && !now.conn && !now.crashed && now.held.Nobody? && sid in now.sessions
    ensures var after := CloseSession(now, sid, true, wire);
            Progress(app, after, left - {sid})
  {
    var trace :| Reaches(app, trace, now);
    var step := [ShutLook(sid), ShutClose(wire)];
    ShutOne(now, sid, wire);
    RunAppend(app, trace, step);
    assert Reaches(app, trace + step, CloseSession(now, sid, true, wire));
  }

  ghost predicate ValuesAre(all: seq<PppoeSession>, values: seq<Sess>)
    reads all
  {
    |values| == |all| && forall k | 0 <= k < |all| :: all[k].num == k && all[k].Value() == values[k]
  }

  // The table holds sessions by number.
  ghost predicate TableIs(all: seq<PppoeSession>, table: map<U16, PppoeSession>, numbers: map<U16, nat>)
  {
    && numbers.Keys == table.Keys
    && (forall sid | sid in table :: numbers[sid] < |all| && all[numbers[sid]] == table[sid])
  }

  lemma TableWithout(all: seq<PppoeSession>, table: map<U16, PppoeSession>, numbers: map<U16, nat>, sid: U16)
    requires TableIs(all, table, numbers)
    ensures TableIs(all, table - {sid}, numbers - {sid})
  {
  }

  class Application {
    const own: P.HwAddr
    const services: seq<seq<Octet>>
    var sessions: map<U16, PppoeSession>
    var tracked: nat
    var shutdown: bool
    var conn: bool
    var crashed: bool
    ghost var orphans: nat
    ghost var all: seq<PppoeSession>

    constructor (own: P.HwAddr, services: seq<seq<Octet>>)
      ensures Represents(Start) && this.own == own && this.services == services
    {
      this.own, this.services := own, services;
      sessions, tracked, shutdown, conn, crashed, orphans, all := map[], 0, false, true, false, 0, [];
    }

    // The objects hold what the value says, shutdown holding no session.
    ghost predicate Represents(app: App)
      reads this, all
    {
      && |all| == tracked && ValuesAre(all, app.all) && TableIs(all, sessions, app.sessions)
      && app == App(app.sessions, app.all, shutdown, conn, Nobody, crashed, orphans)
    }

    method GenSessionID(draws: seq<nat>) returns (sid: U16, ok: bool)
      requires Draws(draws)
      ensures sid == FreeId(sessions.Keys, draws) && ok == (sid != 0)
    {
      for i := 0 to MAX_TRIES
        invariant FreeId(sessions.Keys, draws) == FreeId(sessions.Keys, draws[i..])
      {
        assert draws[i..][0] == draws[i] && draws[i..][1..] == draws[i + 1..];
        sid := 1 + draws[i];
        if sid !in sessions {
          return sid, true;
        }
      }
      return 0, false;
    }

    method MapServiceName(pkt: P.Packet) returns (name: seq<Octet>, ok: bool)
      ensures ok <==> ServiceOk(services, pkt.tags)
      ensures P.HasTag(P.TAG_SERVICE_NAME, pkt.tags) ==> Leads(pkt.tags, P.Tag(P.TAG_SERVICE_NAME, name))
    {
      var found, tag := P.FindTag(P.TAG_SERVICE_NAME, pkt.tags);
      name := tag.data;
      ok := false;
      if !found {
        return;
      }
      if name == [] {
        return name, true;
      }
      for i := 0 to |services|
        invariant name !in services[..i]
      {
        if services[i] == name {
          return name, true;
        }
      }
      assert services[..|services|] == services;
    }

    // Validation comes before the write, which fails on a closed connection.
    method SendPacket(pkt: P.Packet, wire: bool) returns (ok: bool)
      ensures ok <==> P.Valid(pkt) && conn && wire
    {
      ok := P.Validate(pkt);
      ok := ok && conn && wire;
    }

    // Everything up to the PADS: the identifier and whether the PADS went out.
    method Answer(pkt: P.Packet, draws: seq<nat>, spawned: bool, wire: bool)
      returns (sid: U16, sent: bool, pads: P.Packet)
      requires Draws(draws)
      ensures P.Valid(pads) && pads.code == P.PADS && pads.sid == sid && pads.src == own && pads.dst == pkt.src
      ensures P.HasTag(P.TAG_SERVICE_NAME_ERROR, pads.tags) <==> sid == 0 || !spawned
      ensures P.HasTag(P.TAG_SERVICE_NAME, pkt.tags) ==>
                pads.tags[0].typ == P.TAG_SERVICE_NAME && Leads(pkt.tags, pads.tags[0])
      ensures Echoes(pkt.tags, pads.tags, TAG_HOST_UNIQ) && Echoes(pkt.tags, pads.tags, TAG_RELAY_SESSION_ID)
      ensures sid == if ServiceOk(services, pkt.tags) then FreeId(sessions.Keys, draws) else 0
      ensures sent == (conn && wire)
    {
      var reason := [];
      sid := 0;
      var name, ok := MapServiceName(pkt);
      if !ok {
        reason := ERROR_TEXT;
      }
      if reason == [] {
        sid, ok := GenSessionID(draws);
        if !ok {
          reason := ERROR_TEXT;
        }
      }
      if !spawned {
        reason := ERROR_TEXT;
      }
      var echoed := AppendEchoedTags(pkt);
      assert forall i | 0 <= i < |echoed| :: echoed[i] in echoed;
      pads := Pads(own, pkt.src, sid, name, echoed, reason);
      PadsIsValid(own, pkt.src, sid, name, echoed, reason);
      PadsTells(own, pkt.src, sid, name, echoed, reason);
      PadsEchoes(own, pkt.src, sid, name, pkt.tags, echoed, reason, TAG_HOST_UNIQ);
      PadsEchoes(own, pkt.src, sid, name, pkt.tags, echoed, reason, TAG_RELAY_SESSION_ID);
      sent := SendPacket(pads, wire);
    }

    // Waiting for a daemon that did not start brings the program down.
    method Track(sid: U16, peer: P.HwAddr, spawned: bool, ghost app: App)
      requires Represents(app) && !crashed
      modifies this
      ensures Represents(app.(sessions := app.sessions[sid := |app.all|],
                              all := app.all + [Sess(sid, peer, true, false, 0, 0)],
                              crashed := !spawned))
    {
      var s := new PppoeSession(sid, peer, tracked);
      sessions := sessions[sid := s];
      all, tracked := all + [s], tracked + 1;
      if !spawned {
        crashed := true;
      }
    }

    method HandlePADR(pkt: P.Packet, draws: seq<nat>, spawned: bool, wire: bool, ghost app: App)
      requires Represents(app) && Draws(draws) && !crashed
      modifies this
      ensures Represents(Do(app, RxPADR(Request(pkt.src, ServiceOk(services, pkt.tags), draws, spawned, wire))))
    {
      var sid, sent, _ := Answer(pkt, draws, spawned, wire);
      if sent {
        Track(sid, pkt.src, spawned, app);
      } else if spawned {
        orphans := orphans + 1;
      }
    }

    method SendPADT(s: PppoeSession, wire: bool)
      returns (padt: P.Packet)
      modifies s`padts
      ensures padt.src == own && padt.dst == s.peer && padt.code == 0xa7 && padt.sid == s.sid
      ensures s.padts == if s.sid != 0 && conn && wire then old(s.padts) + 1 else old(s.padts)
    {
      var v := Sess(s.sid, s.peer, s.isOpen, s.exited, s.terminations, s.padts);
      padt := Padt(own, v, ERROR_TEXT);
      var ok := SendPacket(padt, wire);
      if ok {
        s.padts := s.padts + 1;
      }
    }

    method CloseOne(s: PppoeSession, sendPADT: bool, wire: bool)
      modifies s`isOpen, s`padts, s`terminations
      ensures s.Value() == Closed(old(s.Value()), sendPADT, wire && conn)
    {
      var isOpen := s.isOpen;
      s.isOpen := false;
      if !isOpen {
        return;
      }
      if sendPADT {
        var _ := SendPADT(s, wire);
      }
      s.terminations := s.terminations + 1;
    }

    method ClosePPPoESession(sid: U16, sendPADT: bool, wire: bool, ghost app: App)
      requires Represents(app)
      modifies all
      ensures Represents(CloseSession(app, sid, sendPADT, wire))
    {
      if sid in sessions {
        assert sessions[sid] == all[app.sessions[sid]];
        CloseOne(sessions[sid], sendPADT, wire);
      }
    }

    method HandlePADT(pkt: P.Packet, ghost app: App) returns (known: bool)
      requires Represents(app) && P.Valid(pkt) && pkt.code == P.PADT && !crashed
      modifies all
      ensures Represents(Do(app, RxPADT(pkt.sid)))
      ensures known == (pkt.sid in app.sessions)
    {
      known := pkt.sid in sessions;
      if known {
        ClosePPPoESession(pkt.sid, false, false, app);
      }
    }

    method OnL2TPDown(sid: U16, wire: bool, ghost app: App)
      requires Represents(app) && !crashed
      modifies all
      ensures Represents(Do(app, L2tpDown(sid, wire)))
    {
      if sid in sessions {
        ClosePPPoESession(sid, true, wire, app);
      }
    }

    method OnL2TPComplete(s: PppoeSession, wire: bool, ghost app: App)
      requires Represents(app) && !crashed && s in all && !s.exited
      modifies this`sessions, all
      ensures Represents(Do(app, DaemonExit(s.num, wire)))
    {
      ClosePPPoESession(s.sid, true, wire, app);
      TableWithout(all, sessions, app.sessions, s.sid);
      sessions := sessions - {s.sid};
      s.exited := true;
    }

    // One session of those left.
    method CloseNext(wire: U16 -> bool, ghost app: App, ghost now: App, left: set<U16>)
      returns (ghost after: App, left': set<U16>)
      requires Represents(now) && shutdown && !conn && !crashed && left != {} && left <= sessions.Keys
      requires Progress(app, now, left)
      modifies all
      ensures left' < left && Represents(after) && Progress(app, after, left')
    {
      var sid :| sid in left;
      ClosePPPoESession(sid, true, wire(sid), now);
      LeadsOn(app, now, left, sid, wire(sid));
      after, left' := CloseSession(now, sid, true, wire(sid)), left - {sid};
    }

    method CloseConn(ghost app: App) returns (ghost after: App)
      requires Represents(app) && shutdown && conn && !crashed
      modifies this`conn
      ensures !conn && Represents(after) && Progress(app, after, sessions.Keys)
    {
      conn := false;
      after := app.(conn := false);
      LeadsToClosedConn(app);
    }

    method CloseEach(wire: U16 -> bool, ghost app: App, ghost start: App) returns (ghost after: App)
      requires Represents(start) && shutdown && !conn && !crashed && Progress(app, start, sessions.Keys)
      modifies all
      ensures Represents(after) && Progress(app, after, {})
    {
      after := start;
      var left := sessions.Keys;
      while left != {}
        invariant left <= sessions.Keys
        invariant Represents(after) && Progress(app, after, left)
        decreases left
      {
        after, left := CloseNext(wire, app, after, left);
      }
    }

    // The shutdown goroutine with nothing beside it: a run of its steps after which every tracked session is closed.
    method CloseAll(wire: U16 -> bool, ghost app: App) returns (ghost after: App)
      requires Represents(app) && shutdown && conn && !crashed
      modifies this`conn, all
      ensures Represents(after) && Progress(app, after, {}) && !conn
    {
      after := CloseConn(app);
      after := CloseEach(wire, app, after);
    }
  }
}
