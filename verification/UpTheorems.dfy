/** Sessions that report Up and never Down: which they are, over every run, and a run that has one. */
module UpTheorems {
  import S = Session
  import opened Tunnel
  import opened TunnelProofs
  import opened TunnelTheorems

  // The step in which session k takes a good reply whose outcomes doom it.
  predicate Dooms(p: Product, a: Act, k: nat)
  {
    && a.SessionStep? && a.k == k && k < |p.ms| && !p.ms[k].exited
    && p.ms[k].s.state == S.WaitReply
    && p.ms[k].inbox != [] && p.ms[k].inbox[0] == Msg(S.KIcrp, true)
    && S.Doomed(a.sio')
  }

  predicate DoomedIn(p: Product, trace: seq<Act>, k: nat)
    requires IndexOk(p) && Legal(p, trace)
    decreases |trace|
  {
    trace != []
    && (Dooms(p, trace[0], k) || (DoIndexOk(p, trace[0]); DoomedIn(Do(p, trace[0]), trace[1..], k)))
  }

  predicate UpForEver(p: Product, k: nat) { k < |p.ms| && S.UpForEver(p.ms[k].s) }

  // Closing a running session answers its Up.
  lemma KilledAnswers(t: Tun, m: Member)
    requires MemberInv(t, m) && !m.exited
    ensures !S.UpForEver(S.Closed(m.s))
  {
  }

  lemma ReceivedDooms(p: Product, a: Act, k: nat)
    requires Inv(p) && Enabled(p, a) && a.SessionStep? && a.k == k
    ensures UpForEver(Do(p, a), k) <==> Dooms(p, a, k)
  {
    var m := p.ms[k];
    assert MemberInv(p.t, m);
    match m.inbox[0]
    case Open => S.UpButClosedExactly(m.s, S.TunnelOpen, a.sio);
    case Msg(kind, valid) => S.MsgUpButClosedExactly(m.s, kind, valid, a.sio, a.sio');
  }

  lemma FireAnswers(p: Product, e: Event, io: Io, k: nat)
    requires IndexOk(p) && (e.EvNewSession? ==> e.k < |p.ms|) && k < |p.ms| && MemberInv(p.t, p.ms[k])
    ensures UpForEver(Fire(p, e, io), k) <==> UpForEver(p, k)
  {
    FireOnMember(p, e, io, k);
    if !p.ms[k].exited {
      KilledAnswers(p.t, p.ms[k]);
    }
  }

  // A running session with its Up unanswered is not closed; what closes it then answers.
  lemma DoomStep(p: Product, a: Act, k: nat)
    requires Inv(p) && Enabled(p, a) && k < |p.ms|
    ensures UpForEver(Do(p, a), k) <==> UpForEver(p, k) || Dooms(p, a, k)
  {
    assert MemberInv(p.t, p.ms[k]);
    match a
    case Begin(io) => FireAnswers(p, EvOpen, io, k);
    case Message(m, valid, io, io') => MessageAnswers(p, m, valid, io, io', k);
    case UserClose(io) => FireAnswers(p, EvClose, io, k);
    case TransportDown =>
      if !p.ms[k].exited { KilledAnswers(p.t, p.ms[k]); }
    case NewSession(name, id, io) =>
      var p1 := p.(ms := p.ms + [Member(name, id, S.Fresh, [], 0, false, false)]);
      assert p1.ms[k] == p.ms[k];
      FireAnswers(p1, EvNewSession(|p.ms|), io, k);
    case SessionStep(j, _, _) =>
      if j == k { ReceivedDooms(p, a, k); }
    case AskClose(_) =>
    case TakeClose(j, sio) =>
      if j == k { S.UpButClosedExactly(p.ms[k].s, S.Close, sio); }
  }

  lemma MessageAnswers(p: Product, m: TMsg, valid: bool, io: Io, io': Io, k: nat)
    requires Inv(p) && k < |p.ms| && Enabled(p, Message(m, valid, io, io'))
    ensures UpForEver(HandleMsg(p, m, valid, io, io'), k) <==> UpForEver(p, k)
  {
    assert MemberInv(p.t, p.ms[k]);
    if !valid {
      BadMessage(p, io, k);
    }
    var p1 := if valid then p else Fire(p, EvClose, io);
    if !m.MHello? {
      FireAnswers(p1, EventOf(m, valid), io', k);
    }
  }

  lemma BadMessage(p: Product, io: Io, k: nat)
    requires Inv(p) && k < |p.ms| && !p.t.isClosing
    ensures var p1 := Fire(p, EvClose, io);
            k < |p1.ms| && IndexOk(p1) && MemberInv(p1.t, p1.ms[k]) && (UpForEver(p1, k) <==> UpForEver(p, k))
  {
    assert MemberInv(p.t, p.ms[k]);
    FireAnswers(p, EvClose, io, k);
    FireKeeps(p, EvClose, io);
    FireIndexOk(p, EvClose, io);
  }

  // A session that is just being created has reported nothing.
  lemma NewIsSilent(p: Product, a: Act)
    requires Inv(p) && Enabled(p, a)
    ensures !UpForEver(Do(p, a), |p.ms|)
  {
    if a.NewSession? {
      var p1 := p.(ms := p.ms + [Member(a.name, a.id, S.Fresh, [], 0, false, false)]);
      FireOnMember(p1, EvNewSession(|p.ms|), a.io, |p.ms|);
    } else {
      SameMembers(p, a);
    }
  }

  lemma SameMembers(p: Product, a: Act)
    requires IndexOk(p) && Enabled(p, a)
    ensures |Do(p, a).ms| == |p.ms| + (if a.NewSession? then 1 else 0)
  {
    match a
    case Begin(io) => FireIndexOk(p, EvOpen, io);
    case Message(m, valid, io, io') =>
      FireIndexOk(p, EvClose, io);
      var p1 := if valid then p else Fire(p, EvClose, io);
      if !m.MHello? { FireIndexOk(p1, EventOf(m, valid), io'); }
    case UserClose(io) => FireIndexOk(p, EvClose, io);
    case NewSession(name, id, io) =>
      FireIndexOk(p.(ms := p.ms + [Member(name, id, S.Fresh, [], 0, false, false)]), EvNewSession(|p.ms|), io);
    case _ =>
  }

  lemma {:induction false} UpForEverRun(p: Product, trace: seq<Act>, k: nat)
    requires Inv(p) && Legal(p, trace)
    ensures UpForEver(Run(p, trace), k) <==> UpForEver(p, k) || DoomedIn(p, trace, k)
    decreases |trace|
  {
    if trace != [] {
      StepKeeps(p, trace[0]);
      SameMembers(p, trace[0]);
      if k < |p.ms| {
        DoomStep(p, trace[0], k);
      } else if k == |p.ms| {
        NewIsSilent(p, trace[0]);
      }
      UpForEverRun(Do(p, trace[0]), trace[1..], k);
    }
  }

  /**
   In every run, the sessions that have exited with their Up unanswered are
   exactly those that at some point took a good reply whose outcomes doomed
   them; they are also those still marked established.
   */
  lemma UpWithoutDownExactly(trace: seq<Act>, k: nat)
    requires Legal(Start, trace) && k < |Run(Start, trace).ms|
    ensures var m := Run(Start, trace).ms[k];
            && (m.exited && m.s.events == [S.Up] <==> DoomedIn(Start, trace, k))
            && (m.exited ==> (m.s.events == [S.Up] <==> m.s.established))
  {
    RunKeeps(Start, trace);
    UpForEverRun(Start, trace, k);
    var p := Run(Start, trace);
    assert MemberInv(p.t, p.ms[k]);
  }

  /** No Down follows, whatever comes after, the tunnel's teardown included. */
  lemma NoDownFollows(p: Product, trace: seq<Act>, k: nat)
    requires Reachable(p) && IndexOk(p) && k < |p.ms| && p.ms[k].exited && p.ms[k].s.events == [S.Up]
    requires Legal(p, trace)
    ensures k < |Run(p, trace).ms| && Run(p, trace).ms[k].s.events == [S.Up]
  {
    ReachableInv(p);
    ExitedForEver(p, trace, k);
  }
}
