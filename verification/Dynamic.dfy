/**
 The session and tunnel objects of the program, whose callbacks update fields
 and session indexes in place.  Every method is proved against the functions of
 Session and Tunnel.
 */
module Dynamic {
  import opened Fsm
  import S = Session
  import T = Tunnel

  // An index after the session known there as k has perhaps gone.
  function Dropped<K(==), V>(m: map<K, V>, k: K, gone: bool): map<K, V> { if gone then m - {k} else m }

  lemma DropOne<K, V>(m: map<K, V>, k: K)
    requires k in m
    ensures m.Values == (m - {k}).Values + {m[k]}
  {
    var rest := m - {k};
    forall v | v in m.Values
      ensures v in rest.Values + {m[k]}
    {
      var j :| j in m && m[j] == v;
      if j != k {
        assert j in rest && rest[j] == v;
      }
    }
  }

  function Elements(q: seq<DynamicSession>): set<DynamicSession> { set s | s in q }

  function IdsOf(sessions: set<DynamicSession>): set<int> { set s | s in sessions :: s.id }

  // Moving one session from an index to a list.
  lemma MoveOne(q: seq<DynamicSession>, m: map<string, DynamicSession>, n: string)
    requires n in m
    ensures Elements(q + [m[n]]) + (m - {n}).Values == Elements(q) + m.Values
    ensures |(m - {n}).Keys| < |m.Keys|
  {
    DropOne(m, n);
    assert Elements(q + [m[n]]) == Elements(q) + {m[n]};
    assert (m - {n}).Keys == m.Keys - {n};
  }

  lemma DropId(ids: map<int, DynamicSession>, q: seq<DynamicSession>, s: DynamicSession)
    ensures ids - IdsOf(Elements(q)) - {s.id} == ids - IdsOf(Elements(q + [s]))
  {
  }

  // An index holds, under their own names, the sessions with the given numbers.
  ghost predicate NamesAre(all: seq<DynamicSession>, m: map<string, DynamicSession>, index: map<string, nat>)
  {
    && m.Keys == index.Keys
    && forall n | n in m :: index[n] < |all| && all[index[n]] == m[n] && m[n].name == n
  }

  ghost predicate IdsAre(all: seq<DynamicSession>, m: map<int, DynamicSession>, index: map<int, nat>)
  {
    && m.Keys == index.Keys
    && forall i | i in m :: index[i] < |all| && all[index[i]] == m[i] && m[i].id == i
  }

  class DynamicSession {
    const name: string
    const id: int
    const dt: DynamicTunnel
    const num: nat  // sessions are numbered in order of creation
    var current: S.State
    var isClosed: bool
    var established: bool
    var hasDataPlane: bool
    var events: seq<S.UserEvent>
    var inbox: seq<T.In>
    ghost var opens: nat
    var closeAsked: bool
    var exited: bool

    constructor (dt: DynamicTunnel, name: string, id: int, num: nat)
      ensures this.dt == dt && this.num == num
      ensures AsMember() == T.Member(name, id, S.Fresh, [], 0, false, false)
    {
      this.dt, this.name, this.id, this.num := dt, name, id, num;
      current, isClosed, established, hasDataPlane, events := S.WaitTunnel, false, false, false, [];
      inbox, opens, closeAsked, exited := [], 0, false, false;
    }

    ghost function Value(): S.Sess
      reads this
    {
      S.Sess(current, isClosed, established, hasDataPlane, events)
    }

    ghost function AsMember(): T.Member
      reads this
    {
      T.Member(name, id, Value(), inbox, opens, closeAsked, exited)
    }

    // A session that has closed is in neither index.
    ghost predicate Tidy()
      reads this, dt
    {
      isClosed ==> name !in dt.sessionsByName && id !in dt.sessionsByID
    }

    // ---------- Called by the tunnel ----------

    method OnTunnelUp()
      modifies this`inbox, this`opens
      ensures AsMember() == T.OpenOne(old(AsMember()))
    {
      inbox := inbox + [T.Open];
      opens := opens + 1;
    }

    method HandleCtlMsg(kind: S.MsgKind, valid: bool)
      modifies this`inbox
      ensures inbox == old(inbox) + [T.Msg(kind, valid)]
    {
      inbox := inbox + [T.Msg(kind, valid)];
    }

    method Kill()
      modifies this, dt`sessionsByName, dt`sessionsByID
      ensures AsMember() == T.Killed(old(AsMember()))
      ensures dt.sessionsByName == old(dt.sessionsByName) - {name}
      ensures dt.sessionsByID == old(dt.sessionsByID) - {id}
    {
      dt.UnlinkSession(this);
      if !exited {
        FsmActClose();
        exited := true;
      }
    }

    // ---------- Callbacks ----------

    method FsmActClose()
      modifies this`isClosed, this`established, this`events, dt`sessionsByName, dt`sessionsByID
      ensures Value() == S.Closed(old(Value()))
      ensures dt.sessionsByName == old(dt.sessionsByName) - {name}
      ensures dt.sessionsByID == old(dt.sessionsByID) - {id}
    {
      if established {
        established := false;
        events := events + [S.Down];
      }
      dt.UnlinkSession(this);
      isClosed := true;
    }

    method SendMessage(ok: bool)
      requires Tidy()
      modifies this`isClosed, this`established, this`events, dt`sessionsByName, dt`sessionsByID
      ensures Value() == S.Sent(old(Value()), ok)
      ensures dt.sessionsByName == Dropped(old(dt.sessionsByName), name, isClosed)
      ensures dt.sessionsByID == Dropped(old(dt.sessionsByID), id, isClosed)
    {
      if !ok {
        FsmActClose();
      }
    }

    method FsmActSendIcrq(io: S.Io)
      requires Tidy()
      modifies this`isClosed, this`established, this`events, dt`sessionsByName, dt`sessionsByID
      ensures Value() == if io.built then S.Sent(old(Value()), io.sent) else S.Closed(old(Value()))
      ensures dt.sessionsByName == Dropped(old(dt.sessionsByName), name, isClosed)
      ensures dt.sessionsByID == Dropped(old(dt.sessionsByID), id, isClosed)
    {
      if io.built {
        SendMessage(io.sent);
      } else {
        FsmActClose();
      }
    }

    method FsmActSendCdn(io: S.Io)
      requires Tidy()
      modifies this`isClosed, this`established, this`events, dt`sessionsByName, dt`sessionsByID
      ensures Value() == S.CdnSent(old(Value()), io)
      ensures dt.sessionsByName == Dropped(old(dt.sessionsByName), name, isClosed)
      ensures dt.sessionsByID == Dropped(old(dt.sessionsByID), id, isClosed)
    {
      SendMessage(io.cdnSent);
      FsmActClose();
    }

    // The data plane is brought up even after a send that failed and closed the session.
    method FsmActOnIcrp(io: S.Io)
      requires current == S.Established && Tidy()
      modifies this`current, this`isClosed, this`established, this`hasDataPlane, this`events
      modifies dt`sessionsByName, dt`sessionsByID
      ensures Value() == S.After(S.OnIcrp, old(Value()), io)
      ensures dt.sessionsByName == Dropped(old(dt.sessionsByName), name, isClosed)
      ensures dt.sessionsByID == Dropped(old(dt.sessionsByID), id, isClosed)
      decreases 1
    {
      if !io.peerIdFound {
        S.FireClose(Value(), io);
        HandleEvent(S.Close, io);
        return;
      }
      if !io.built {
        FsmActClose();
        return;
      }
      SendMessage(io.sent);
      if !io.dataPlane {
        FsmActClose();
        return;
      }
      hasDataPlane := true;
      if !io.ifname {
        FsmActClose();
      }
      established := true;
      events := events + [S.Up];
    }

    // ---------- Events and messages ----------

    method Dispatch(act: S.Action, io: S.Io)
      requires Tidy() && (act == S.OnIcrp ==> current == S.Established)
      modifies this`current, this`isClosed, this`established, this`hasDataPlane, this`events
      modifies dt`sessionsByName, dt`sessionsByID
      ensures Value() == S.After(act, old(Value()), io)
      ensures dt.sessionsByName == Dropped(old(dt.sessionsByName), name, isClosed)
      ensures dt.sessionsByID == Dropped(old(dt.sessionsByID), id, isClosed)
      decreases if act == S.OnIcrp then 2 else 0, 0
    {
      match act
      case SendIcrq => FsmActSendIcrq(io);
      case OnIcrp => FsmActOnIcrp(io);
      case OnCdn => FsmActClose();
      case SendCdn => FsmActSendCdn(io);
      case JustClose => FsmActClose();
    }

    method HandleEvent(e: S.Event, io: S.Io)
      requires Tidy()
      modifies this`current, this`isClosed, this`established, this`hasDataPlane, this`events
      modifies dt`sessionsByName, dt`sessionsByID
      ensures Value() == S.Fire(old(Value()), e, io)
      ensures dt.sessionsByName == Dropped(old(dt.sessionsByName), name, isClosed)
      ensures dt.sessionsByID == Dropped(old(dt.sessionsByID), id, isClosed)
      decreases if e == S.Icrp then 2 else 0, 1
    {
      S.LookupTable(current, e);
      var m := FindRow(S.Table, current, e);
      if m.NoRow? {
        FsmActClose();
        return;
      }
      current := m.to;
      Dispatch(m.act, io);
    }

    method HandleV2Msg(k: S.MsgKind, valid: bool, io: S.Io, io': S.Io)
      requires Tidy()
      modifies this`current, this`isClosed, this`established, this`hasDataPlane, this`events
      modifies dt`sessionsByName, dt`sessionsByID
      ensures Value() == S.HandleMsg(old(Value()), k, valid, io, io')
      ensures dt.sessionsByName == Dropped(old(dt.sessionsByName), name, isClosed)
      ensures dt.sessionsByID == Dropped(old(dt.sessionsByID), id, isClosed)
    {
      if !valid {
        HandleEvent(S.Close, io);
      }
      ghost var between := Value();
      HandleEvent(S.EventOf(k), io');
      if between.isClosed {
        S.FireStaysClosed(between, S.EventOf(k), io');
      }
    }

    // ---------- The session's loop ----------

    method Handle(received: T.In, io: S.Io, io': S.Io)
      requires Tidy()
      modifies this`current, this`isClosed, this`established, this`hasDataPlane, this`events
      modifies dt`sessionsByName, dt`sessionsByID
      ensures Value() == match received
                         case Open => S.Fire(old(Value()), S.TunnelOpen, io)
                         case Msg(kind, valid) => S.HandleMsg(old(Value()), kind, valid, io, io')
      ensures dt.sessionsByName == Dropped(old(dt.sessionsByName), name, isClosed)
      ensures dt.sessionsByID == Dropped(old(dt.sessionsByID), id, isClosed)
    {
      match received {
        case Open => HandleEvent(S.TunnelOpen, io);
        case Msg(kind, valid) => HandleV2Msg(kind, valid, io, io');
      }
    }

    // What the tunnel has sent; the loop ends once the session has closed.
    method ReceiveNext(io: S.Io, io': S.Io)
      requires !isClosed && !exited && inbox != []
      modifies this, dt`sessionsByName, dt`sessionsByID
      ensures var m := T.Received(old(AsMember()), io, io');
              isClosed == m.s.isClosed && AsMember() == if isClosed then m.(exited := true) else m
      ensures dt.sessionsByName == Dropped(old(dt.sessionsByName), name, isClosed)
      ensures dt.sessionsByID == Dropped(old(dt.sessionsByID), id, isClosed)
    {
      var received := inbox[0];
      inbox := inbox[1..];
      Handle(received, io, io');
      exited := isClosed;
    }

    method TakeMessage(io: S.Io, io': S.Io, ghost p: T.Product)
      requires dt.Represents(p) && this in dt.all && !isClosed && !exited && inbox != []
      modifies this, dt`sessionsByName, dt`sessionsByID
      ensures dt.Represents(T.AfterSession(p, num, T.Received(p.ms[num], io, io')))
    {
      ghost var byName, byID, m := dt.sessionsByName, dt.sessionsByID, T.Received(p.ms[num], io, io');
      ReceiveNext(io, io');
      dt.StillIndexes(p.t, byName, byID, this, isClosed);
      dt.AfterTurn(p, if isClosed then T.Unlink(p.t, m) else p.t, this, m);
    }

    // The owner has asked for the session to close.
    method ReceiveClose(io: S.Io)
      requires !isClosed && !exited && closeAsked
      modifies this, dt`sessionsByName, dt`sessionsByID
      ensures var m := old(AsMember()).(s := S.Fire(old(Value()), S.Close, io));
              isClosed == m.s.isClosed && AsMember() == if isClosed then m.(exited := true) else m
      ensures dt.sessionsByName == Dropped(old(dt.sessionsByName), name, isClosed)
      ensures dt.sessionsByID == Dropped(old(dt.sessionsByID), id, isClosed)
    {
      HandleEvent(S.Close, io);
      exited := isClosed;
    }

    method TakeClose(io: S.Io, ghost p: T.Product)
      requires dt.Represents(p) && this in dt.all && !isClosed && !exited && closeAsked
      modifies this, dt`sessionsByName, dt`sessionsByID
      ensures dt.Represents(T.AfterSession(p, num, p.ms[num].(s := S.Fire(p.ms[num].s, S.Close, io))))
    {
      ghost var byName, byID := dt.sessionsByName, dt.sessionsByID;
      ghost var m := p.ms[num].(s := S.Fire(p.ms[num].s, S.Close, io));
      ReceiveClose(io);
      dt.StillIndexes(p.t, byName, byID, this, isClosed);
      dt.AfterTurn(p, if isClosed then T.Unlink(p.t, m) else p.t, this, m);
    }

    method Close(ghost p: T.Product)
      requires dt.Represents(p) && this in dt.all && !closeAsked
      modifies this`closeAsked, dt`sessionsByName, dt`sessionsByID
      ensures dt.Represents(T.Do(p, T.AskClose(num)))
    {
      dt.UnlinkSession(this);
      closeAsked := true;
    }
  }

  class DynamicTunnel {
    var current: T.State
    var isClosing: bool
    var established: bool
    var hasDataPlane: bool
    var events: seq<S.UserEvent>
    var dpDowns: nat
    var xportCloses: nat
    var sessionsByName: map<string, DynamicSession>
    var sessionsByID: map<int, DynamicSession>
    var created: nat
    ghost var all: seq<DynamicSession>

    constructor ()
      ensures Represents(T.Start)
    {
      current, isClosing, established, hasDataPlane := T.Idle, false, false, false;
      events, dpDowns, xportCloses := [], 0, 0;
      sessionsByName, sessionsByID, created, all := map[], map[], 0, [];
    }

    ghost predicate SessionsAre(ms: seq<T.Member>)
      reads this, all
    {
      && |ms| == |all| == created
      && forall k | 0 <= k < |all| :: all[k].num == k && all[k].dt == this && all[k].AsMember() == ms[k]
    }

    ghost predicate TunnelIs(t: T.Tun)
      reads this
    {
      && t == T.Tun(current, isClosing, established, hasDataPlane, events, dpDowns, xportCloses, t.byName, t.byId)
      && NamesAre(all, sessionsByName, t.byName) && IdsAre(all, sessionsByID, t.byId)
    }

    // The objects hold what the value says.
    ghost predicate Represents(p: T.Product)
      reads this, all
    {
      SessionsAre(p.ms) && TunnelIs(p.t)
    }

    // One session has changed, and left the indexes if it closed.
    lemma AfterTurn(p: T.Product, t: T.Tun, s: DynamicSession, m: T.Member)
      requires |p.ms| == |all| == created && s in all && s.num < |all|
      requires forall k | 0 <= k < |all| :: all[k].num == k && all[k].dt == this
      requires forall k | 0 <= k < |all| && k != s.num :: all[k].AsMember() == p.ms[k]
      requires s.AsMember() == if m.s.isClosed then m.(exited := true) else m
      requires TunnelIs(t) && t == if m.s.isClosed then T.Unlink(p.t, m) else p.t
      ensures Represents(T.AfterSession(p, s.num, m))
    {
    }

    lemma StillIndexes(t: T.Tun, byName: map<string, DynamicSession>, byID: map<int, DynamicSession>,
                       s: DynamicSession, gone: bool)
      requires t == T.Tun(current, isClosing, established, hasDataPlane, events, dpDowns, xportCloses, t.byName, t.byId)
      requires NamesAre(all, byName, t.byName) && IdsAre(all, byID, t.byId)
      requires sessionsByName == Dropped(byName, s.name, gone) && sessionsByID == Dropped(byID, s.id, gone)
      ensures TunnelIs(if gone then t.(byName := t.byName - {s.name}, byId := t.byId - {s.id}) else t)
    {
    }

    // ---------- Indexes ----------

    method LinkSession(s: DynamicSession, ghost p: T.Product)
      requires Represents(p) && s in all
      modifies this`sessionsByName, this`sessionsByID
      ensures Represents(T.Link(p, s.num))
    {
      sessionsByName := sessionsByName[s.name := s];
      sessionsByID := sessionsByID[s.id := s];
    }

    method UnlinkSession(s: DynamicSession)
      modifies this`sessionsByName, this`sessionsByID
      ensures sessionsByName == old(sessionsByName) - {s.name}
      ensures sessionsByID == old(sessionsByID) - {s.id}
    {
      sessionsByName := sessionsByName - {s.name};
      sessionsByID := sessionsByID - {s.id};
    }

    // The sessions that the program finds by name are those the value has linked.
    lemma LinkedAre(p: T.Product)
      requires Represents(p)
      ensures forall s :: s in sessionsByName.Values <==> s in all && s.num in p.t.byName.Values
      ensures T.LinkedIds(p) == IdsOf(sessionsByName.Values)
    {
    }

    method AllSessions() returns (sessions: seq<DynamicSession>)
      requires forall n | n in sessionsByName :: sessionsByName[n].name == n
      ensures forall s :: s in sessions <==> s in sessionsByName.Values
      ensures forall i, j | 0 <= i < j < |sessions| :: sessions[i] != sessions[j]
    {
      sessions := [];
      var left := sessionsByName;
      while left.Keys != {}
        invariant left.Keys <= sessionsByName.Keys && forall n | n in left :: left[n] == sessionsByName[n]
        invariant Elements(sessions) + left.Values == sessionsByName.Values
        invariant forall s | s in sessions :: s.name !in left
        invariant forall i, j | 0 <= i < j < |sessions| :: sessions[i] != sessions[j]
        decreases |left.Keys|
      {
        var n :| n in left.Keys;
        MoveOne(sessions, left, n);
        sessions := sessions + [left[n]];
        left := left - {n};
      }
    }

    // ---------- Telling the sessions ----------

    method TellAll(sessions: seq<DynamicSession>, ghost ms: seq<T.Member>)
      requires SessionsAre(ms) && forall s | s in sessions :: s in all
      requires forall i, j | 0 <= i < j < |sessions| :: sessions[i] != sessions[j]
      modifies all
      ensures forall k | 0 <= k < |all| ::
        all[k].AsMember() == if all[k] in sessions then T.OpenOne(ms[k]) else ms[k]
    {
      ghost var told: set<DynamicSession> := {};
      for i := 0 to |sessions|
        invariant forall j | 0 <= j < |sessions| :: sessions[j] in told <==> j < i
        invariant forall s | s in told :: s in sessions
        invariant forall k | 0 <= k < |all| && all[k] in told :: all[k].AsMember() == T.OpenOne(ms[k])
        invariant forall k | 0 <= k < |all| && all[k] !in told :: all[k].AsMember() == ms[k]
      {
        var s := sessions[i];
        assert s in sessions;
        s.OnTunnelUp();
        told := told + {s};
      }
    }

    method TellSessions(ghost p: T.Product)
      requires Represents(p)
      modifies all
      ensures Represents(T.OpenLinked(p))
    {
      LinkedAre(p);
      var sessions := AllSessions();
      TellAll(sessions, p.ms);
    }

    // The sessions leave both indexes first.
    method TakeSessions() returns (sessions: seq<DynamicSession>)
      modifies this`sessionsByName, this`sessionsByID
      ensures sessionsByName == map[]
      ensures sessionsByID == old(sessionsByID) - IdsOf(old(sessionsByName).Values)
      ensures forall s :: s in sessions <==> s in old(sessionsByName).Values
    {
      sessions := [];
      while sessionsByName.Keys != {}
        invariant Elements(sessions) + sessionsByName.Values == old(sessionsByName).Values
        invariant sessionsByID == old(sessionsByID) - IdsOf(Elements(sessions))
        decreases |sessionsByName.Keys|
      {
        var n :| n in sessionsByName.Keys;
        var s := sessionsByName[n];
        MoveOne(sessions, sessionsByName, n);
        DropId(old(sessionsByID), sessions, s);
        sessions := sessions + [s];
        sessionsByName := sessionsByName - {n};
        sessionsByID := sessionsByID - {s.id};
      }
      assert Elements(sessions) == old(sessionsByName).Values;
    }

    method KillAll(sessions: seq<DynamicSession>, ghost ms: seq<T.Member>)
      requires SessionsAre(ms) && sessionsByName == map[]
      requires forall s | s in sessions :: s in all && s.id !in sessionsByID
      modifies all, this`sessionsByName, this`sessionsByID
      ensures sessionsByName == map[] && sessionsByID == old(sessionsByID)
      ensures forall k | 0 <= k < |all| ::
        all[k].AsMember() == if all[k] in sessions then T.Killed(ms[k]) else ms[k]
    {
      ghost var told: set<DynamicSession> := {};
      for i := 0 to |sessions|
        invariant sessionsByName == map[] && sessionsByID == old(sessionsByID)
        invariant forall j | 0 <= j < i :: sessions[j] in told
        invariant forall s | s in told :: s in sessions
        invariant forall k | 0 <= k < |all| && all[k] in told :: all[k].AsMember() == T.Killed(ms[k])
        invariant forall k | 0 <= k < |all| && all[k] !in told :: all[k].AsMember() == ms[k]
      {
        var s := sessions[i];
        assert s in sessions;
        s.Kill();
        assert sessionsByID == old(sessionsByID);
        told := told + {s};
      }
    }

    lemma AllKilled(p: T.Product, sessions: seq<DynamicSession>)
      requires |p.ms| == |all| == created && forall k | 0 <= k < |all| :: all[k].num == k && all[k].dt == this
      requires forall k | 0 <= k < |all| :: all[k] in sessions <==> k in p.t.byName.Values
      requires forall k | 0 <= k < |all| ::
        all[k].AsMember() == if all[k] in sessions then T.Killed(p.ms[k]) else p.ms[k]
      ensures SessionsAre(T.KillLinked(p))
    {
    }

    lemma Emptied(t: T.Tun, byID: map<int, DynamicSession>, ids: set<int>)
      requires t == T.Tun(current, isClosing, established, hasDataPlane, events, dpDowns, xportCloses, t.byName, t.byId)
      requires IdsAre(all, byID, t.byId)
      requires sessionsByName == map[] && sessionsByID == byID - ids
      ensures TunnelIs(t.(byName := map[], byId := t.byId - ids))
    {
    }

    method CloseAllSessions(ghost p: T.Product)
      requires Represents(p)
      modifies all, this`sessionsByName, this`sessionsByID
      ensures SessionsAre(T.KillLinked(p))
      ensures TunnelIs(p.t.(byName := map[], byId := p.t.byId - T.LinkedIds(p)))
    {
      LinkedAre(p);
      ghost var byID := sessionsByID;
      var sessions := TakeSessions();
      KillAll(sessions, p.ms);
      AllKilled(p, sessions);
      Emptied(p.t, byID, T.LinkedIds(p));
    }

    // ---------- Callbacks ----------

    method FsmActClose(ghost p: T.Product)
      requires Represents(p)
      modifies this, all
      ensures all == old(all) && Represents(T.CloseTunnel(p))
    {
      if isClosing {
        return;
      }
      isClosing := true;
      CloseAllSessions(p.(t := p.t.(isClosing := true)));
      Release(p.t.(isClosing := true, byName := map[], byId := p.t.byId - T.LinkedIds(p)));
    }

    // The data plane, the transport and the user's event.
    method Release(ghost t: T.Tun)
      requires TunnelIs(t)
      modifies this`established, this`events, this`dpDowns, this`xportCloses
      ensures TunnelIs(t.(established := false,
                          events := if t.established then t.events + [S.Down] else t.events,
                          dpDowns := if t.hasDataPlane then t.dpDowns + 1 else t.dpDowns,
                          xportCloses := t.xportCloses + 1))
    {
      if hasDataPlane {
        dpDowns := dpDowns + 1;
      }
      xportCloses := xportCloses + 1;
      if established {
        established := false;
        events := events + [S.Down];
      }
    }

    method FsmActOnSccrp(io: T.Io, ghost p: T.Product)
      requires Represents(p) && current == T.Established
      modifies this, all
      ensures all == old(all)
      ensures Represents(T.After(T.OnSccrp, T.EvSccrp, io, p))
      decreases 1
    {
      T.FireIsRaise(p, io);
      if !io.peerIdFound {
        HandleEvent(T.EvClose, null, io, p);
        return;
      }
      if !(io.built && io.sent) {
        FsmActClose(p);
        return;
      }
      if !io.dataPlane {
        HandleEvent(T.EvClose, null, io, p);
        return;
      }
      ReportUp(p);
    }

    // The data plane is up: the sessions are told, then the user.
    method ReportUp(ghost p: T.Product)
      requires Represents(p)
      modifies this`hasDataPlane, this`established, this`events, all
      ensures Represents(T.ReportUp(p))
    {
      hasDataPlane := true;
      TellSessions(p.(t := p.t.(hasDataPlane := true)));
      established := true;
      events := events + [S.Up];
    }

    method FsmActStartSession(s: DynamicSession, ghost p: T.Product)
      requires Represents(p) && s in all
      modifies this`sessionsByName, this`sessionsByID, s
      ensures Represents(T.Link(p, s.num).(ms := p.ms[s.num := T.OpenOne(p.ms[s.num])]))
    {
      LinkSession(s, p);
      s.OnTunnelUp();
    }

    method FsmActForwardSessionMsg(e: T.Event, ghost p: T.Product)
      requires Represents(p) && e.EvSessionMsg?
      modifies all
      ensures Represents(T.Forward(p, e))
    {
      if e.sid in sessionsByID {
        var s := sessionsByID[e.sid];
        assert s == all[p.t.byId[e.sid]];
        s.HandleCtlMsg(e.kind, e.valid);
      }
    }

    // ---------- Events and messages ----------

    method Dispatch(act: T.Action, e: T.Event, arg: DynamicSession?, io: T.Io, ghost p: T.Product)
      requires Represents(p)
      requires e.EvNewSession? ==> arg != null && arg in all && arg.num == e.k
      requires T.Suits(act, e) && (act == T.OnSccrp ==> current == T.Established)
      modifies this, all
      ensures all == old(all) && Represents(T.After(act, e, io, p))
      decreases if act == T.OnSccrp then 2 else 0, 0
    {
      match act
      case SendSccrq =>
        if !(io.built && io.sent) {
          FsmActClose(p);
        }
      case OnSccrp => FsmActOnSccrp(io, p);
      case OnStopccn => FsmActClose(p);
      case SendStopccn => FsmActClose(p);
      case Nothing =>
      case LinkSession => LinkSession(arg, p);
      case StartSession => FsmActStartSession(arg, p);
      case ForwardMsg => FsmActForwardSessionMsg(e, p);
    }

    method HandleEvent(e: T.Event, arg: DynamicSession?, io: T.Io, ghost p: T.Product)
      requires Represents(p)
      requires e.EvNewSession? ==> arg != null && arg in all && arg.num == e.k
      modifies this, all
      ensures all == old(all) && Represents(T.Fire(p, e, io))
      decreases if e.EvSccrp? then 2 else 0, 1
    {
      T.FireIs(p, e, io);
      var m := FindRow(T.Table, current, T.KindOf(e));
      if m.NoRow? {
        FsmActClose(p);
        return;
      }
      current := m.to;
      Dispatch(m.act, e, arg, io, p.(t := p.t.(state := m.to)));
    }

    method HandleV2Msg(m: T.TMsg, valid: bool, io: T.Io, io': T.Io, ghost p: T.Product)
      requires Represents(p)
      modifies this, all
      ensures all == old(all) && Represents(T.HandleMsg(p, m, valid, io, io'))
    {
      ghost var p1 := p;
      if !valid {
        HandleEvent(T.EvClose, null, io, p);
        p1 := T.Fire(p, T.EvClose, io);
      }
      if !m.MHello? {
        HandleEvent(T.EventOf(m, valid), null, io', p1);
      }
    }

    // NewSession checks for clashes before the session exists; the tunnel links it in its own loop.
    method NewSession(name: string, id: int, io: T.Io, ghost p: T.Product) returns (s: DynamicSession?)
      requires Represents(p) && current != T.Idle
      modifies this, all
      ensures s == null <==> !T.Enabled(p, T.NewSession(name, id, io))
      ensures s == null ==> Represents(p) && all == old(all)
      ensures s != null ==> fresh(s) && all == old(all) + [s] && Represents(T.Do(p, T.NewSession(name, id, io)))
    {
      if name in sessionsByName || isClosing || id in sessionsByID {
        return null;
      }
      s := new DynamicSession(this, name, id, created);
      all, created := all + [s], created + 1;
      HandleEvent(T.EvNewSession(s.num), s, io, p.(ms := p.ms + [s.AsMember()]));
    }
  }
}
