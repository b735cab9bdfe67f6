/** What the two-endpoint system guarantees in every run, and where it does not deliver. */
module NetworkTheorems {
  import opened SeqNum
  import opened SlowStart
  import opened TransportSpec
  import opened Endpoint
  import opened EndpointProofs
  import opened Network
  import opened NetworkProofs

  ghost predicate Reachable(cfgs: Configs, s: Net)
  {
    exists trace :: LegalNet(cfgs, StartNet(cfgs), trace) && RunNet(cfgs, StartNet(cfgs), trace) == s
  }

  lemma ReachedBy(cfgs: Configs, trace: seq<NetAct>, s: Net)
    requires LegalNet(cfgs, StartNet(cfgs), trace) && RunNet(cfgs, StartNet(cfgs), trace) == s
    ensures Reachable(cfgs, s)
  {
  }

  lemma ReachableInv(cfgs: Configs, s: Net)
    requires ConfigsOk(cfgs) && Reachable(cfgs, s)
    ensures NetInv(cfgs, s) && Fresh(s)
  {
    var trace :| LegalNet(cfgs, StartNet(cfgs), trace) && RunNet(cfgs, StartNet(cfgs), trace) == s;
    StartNetInv(cfgs);
    RunNetInv(cfgs, StartNet(cfgs), trace);
  }

  // ---------- Both sides play the same part ----------

  function MirrorNet(s: Net): Net { Net(s.b, s.a, s.ba, s.ab) }

  function MirrorConfigs(cfgs: Configs): Configs { Configs(cfgs.b, cfgs.a) }

  function MirrorAct(na: NetAct): NetAct
  {
    match na
    case ActA(a) => ActB(a)
    case ActB(a) => ActA(a)
    case LoseAB(f) => LoseBA(f)
    case LoseBA(f) => LoseAB(f)
  }

  function MirrorTrace(trace: seq<NetAct>): seq<NetAct>
    decreases |trace|
  {
    if trace == [] then [] else [MirrorAct(trace[0])] + MirrorTrace(trace[1..])
  }

  lemma {:induction false} MirrorRun(cfgs: Configs, s: Net, trace: seq<NetAct>)
    requires LegalNet(cfgs, s, trace)
    ensures LegalNet(MirrorConfigs(cfgs), MirrorNet(s), MirrorTrace(trace))
    ensures RunNet(MirrorConfigs(cfgs), MirrorNet(s), MirrorTrace(trace)) == MirrorNet(RunNet(cfgs, s, trace))
    decreases |trace|
  {
    if trace != [] {
      MirrorRun(cfgs, NetDo(cfgs, s, trace[0]), trace[1..]);
      assert MirrorTrace(trace)[1..] == MirrorTrace(trace[1..]);
    }
  }

  /** The theorems below that speak of side a hold of side b by exchanging the two. */
  lemma MirrorReachable(cfgs: Configs, s: Net)
    requires Reachable(cfgs, s)
    ensures Reachable(MirrorConfigs(cfgs), MirrorNet(s))
  {
    var trace :| LegalNet(cfgs, StartNet(cfgs), trace) && RunNet(cfgs, StartNet(cfgs), trace) == s;
    MirrorRun(cfgs, StartNet(cfgs), trace);
    assert StartNet(MirrorConfigs(cfgs)) == MirrorNet(StartNet(cfgs));
  }

  // ---------- Delivery ----------

  function Bodies(ps: seq<Packet>): seq<Payload> { seq(|ps|, i requires 0 <= i < |ps| => ps[i].body) }

  // What y has handed to its user is what x submitted, in order, under the right numbers, as far as it goes.
  predicate InOrder(x: Ep, y: Ep)
  {
    && Bodies(y.delivered) <= y.accepted <= x.subs
    && (forall k | 0 <= k < |y.delivered| :: y.delivered[k].ns == Wrap(k))
  }

  /**
   Exactly-once, in-order delivery: in every run, what one side has delivered is
   a prefix of what it has accepted, and that a prefix of what the other side has
   submitted, in both directions.
   */
  lemma DeliveredIsPrefixOfSubmitted(cfgs: Configs, s: Net)
    requires ConfigsOk(cfgs) && Reachable(cfgs, s)
    ensures InOrder(s.a, s.b) && InOrder(s.b, s.a)
  {
    ReachableInv(cfgs, s);
    DeliveredIsAccepted(s.a);
    DeliveredIsAccepted(s.b);
  }

  lemma DeliveredIsAccepted(e: Ep)
    requires DeliveryInv(e)
    ensures Bodies(e.delivered) <= e.accepted
    ensures forall k | 0 <= k < |e.delivered| :: e.delivered[k].ns == Wrap(k)
  {
    forall k | 0 <= k < |e.delivered|
      ensures Bodies(e.delivered)[k] == e.accepted[k] && e.delivered[k].ns == Wrap(k)
    {
      assert DeliveredOk(e, e.delivered[k], k);
    }
  }

  // The window of one direction, counters and queue.
  predicate Sliding(cfg: Config, x: Ep, y: Ep)
  {
    && x.acked <= y.recvd <= OnWire(x) <= x.acked + cfg.txWindow
    && x.snd.win.ns == Wrap(x.sent) && y.snd.win.nr == Wrap(y.recvd)
    && (x.open ==>
          && |x.snd.ack| == x.sent - x.acked
          && (forall i | 0 <= i < |x.snd.ack| ::
                x.snd.ack[i].id == x.acked + i && x.snd.ack[i].ns == Wrap(x.acked + i)))
  }

  /** The sliding window in every reachable state of both directions. */
  lemma SlidingWindow(cfgs: Configs, s: Net)
    requires ConfigsOk(cfgs) && Reachable(cfgs, s)
    ensures Sliding(cfgs.a, s.a, s.b) && Sliding(cfgs.b, s.b, s.a)
  {
    ReachableInv(cfgs, s);
    SlidingOneWay(cfgs.a, s.a, s.b, s.ab);
    SlidingOneWay(cfgs.b, s.b, s.a, s.ba);
  }

  lemma SlidingOneWay(cfg: Config, x: Ep, y: Ep, xy: set<Flight>)
    requires EpInv(cfg, x) && DirInv(cfg, x, y, xy) && y.snd.win.nr == Wrap(y.recvd)
    ensures Sliding(cfg, x, y)
  {
  }

  /**
   Acknowledgement soundness: a message completes without error only when the
   peer has accepted it in sequence, and such completions come in submission
   order.  The peer has also handed it to its user, unless it is the last one
   accepted and is on its way there, or was when the peer's transport went down.
   */
  lemma CompletedMeansAccepted(cfgs: Configs, s: Net, k: nat)
    requires ConfigsOk(cfgs) && Reachable(cfgs, s)
    requires k < |s.a.snd.done| && s.a.snd.done[k].outcome == Acked
    ensures s.a.snd.done[k].id == k
    ensures k < |s.b.accepted| && k < |s.a.subs| && s.b.accepted[k] == s.a.subs[k]
    ensures k < |s.b.delivered| || (k == |s.b.delivered| && (s.b.rpc.Delivering? || !s.b.open))
    ensures k < |s.b.delivered| ==> s.b.delivered[k].body == s.a.subs[k]
  {
    ReachableInv(cfgs, s);
    DeliveredIsPrefixOfSubmitted(cfgs, s);
    if k < |s.b.delivered| {
      assert Bodies(s.b.delivered)[k] == s.b.accepted[k];
    }
  }

  /**
   The early sequence check never drops a packet of the peer, not even one that
   acknowledges a message whose ns increment is still outstanding.
   */
  lemma HonestPacketAccepted(cfgs: Configs, s: Net, f: Flight)
    requires ConfigsOk(cfgs) && Reachable(cfgs, s)
    requires f in s.ba
    ensures FrameAccepted(s.a.snd.win.ns, [f.pkt])
  {
    ReachableInv(cfgs, s);
    assert FlightOk(s.b, f);
    AcceptedIsBound(f.pkt.nr, s.a.snd.win.ns, f.gnr, s.a.sent);
  }

  /**
   Against any peer: a frame goes to the receive queue whole, and its nr values to
   the sender, exactly if no packet of it acknowledges more than one message
   past those counted in ns; otherwise nothing of it is used.
   */
  lemma ForgedAckDropped(cfg: Config, trace: seq<Act>, frame: seq<Flight>)
    requires ConfigOk(cfg) && LegalFrom(cfg, Start(cfg), trace)
    requires Enabled(cfg, RunFrom(cfg, Start(cfg), trace), Receive(frame))
    requires forall i | 0 <= i < |frame| ::
               && frame[i].pkt.nr == Wrap(frame[i].gnr)
               && -0x8000 <= frame[i].gnr - (RunFrom(cfg, Start(cfg), trace).sent + 1) < 0x8000
    ensures var e := RunFrom(cfg, Start(cfg), trace);
            var e' := Do(cfg, e, Receive(frame));
            if forall i | 0 <= i < |frame| :: frame[i].gnr <= e.sent + 1
            then e'.rxq == e.rxq + frame && e'.rpc == Handing(Indications(frame))
            else e'.rxq == e.rxq && e'.rpc == Handing([])
  {
    StartInv(cfg);
    RunInv(cfg, Start(cfg), trace);
    var e := RunFrom(cfg, Start(cfg), trace);
    forall i | 0 <= i < |frame|
      ensures SeqCompare(Packets(frame)[i].nr, SeqIncrement(e.snd.win.ns)) <= 0 <==> frame[i].gnr <= e.sent + 1
    {
      AcceptedIsBound(frame[i].pkt.nr, e.snd.win.ns, frame[i].gnr, e.sent);
    }
  }

  /**
   Every nr the sender acts on completes all messages below it, including one
   that arrived between the socket write and the ns increment of its message.
   */
  lemma EveryAckIsMatched(cfgs: Configs, s: Net)
    requires ConfigsOk(cfgs) && Reachable(cfgs, s)
    requires Enabled(cfgs.a, s.a, AckNext)
    ensures var g := s.a.spc.nrs[0].gnr;
            var e' := Do(cfgs.a, s.a, AckNext);
            && e'.acked == (if g > s.a.acked then g else s.a.acked)
            && (forall id | 0 <= id < g :: id < |e'.snd.done| && e'.snd.done[id] == Done(id, Acked))
  {
    ReachableInv(cfgs, s);
    assert Held(s.a)[0] == s.a.spc.nrs[0];
    assert IndOk(s.b, Held(s.a)[0]);
    AckNextCounts(cfgs.a, s.a);
    StepInv(cfgs.a, s.a, AckNext);
  }

  /**
   processAckQueue against its simple specification: what it leaves is exactly
   the messages the nr does not cover.
   */
  lemma AckQueueRefinesRemoval(cfgs: Configs, s: Net, i: nat)
    requires ConfigsOk(cfgs) && Reachable(cfgs, s)
    requires Enabled(cfgs.a, s.a, AckNext) && i < |s.a.snd.ack|
    ensures var ind := s.a.spc.nrs[0];
            && (s.a.snd.ack[i] in AckPrefix(cfgs.a, s.a.snd, ind.nr).ack <==> !Acks(ind.nr, s.a.snd.ack[i]))
            && (Acks(ind.nr, s.a.snd.ack[i]) <==> s.a.snd.ack[i].id < ind.gnr)
  {
    ReachableInv(cfgs, s);
    var x, ind := s.a, s.a.spc.nrs[0];
    assert Held(x)[0] == ind;
    assert IndOk(s.b, Held(x)[0]);
    CoveredIsBelow(cfgs.a, x, ind, i);
    var k := AckPrefixShape(cfgs.a, x.snd, ind.nr);
    if i < k {
      assert x.snd.ack[i] !in x.snd.ack[k..] by {
        WaitingDistinct(cfgs.a, x, i, k);
      }
    } else {
      CoveredIsBelow(cfgs.a, x, ind, k);
      assert x.snd.ack[k..][i - k] == x.snd.ack[i];
    }
  }

  lemma WaitingDistinct(cfg: Config, x: Ep, i: nat, k: nat)
    requires EpInv(cfg, x) && x.open && i < k <= |x.snd.ack|
    ensures x.snd.ack[i] !in x.snd.ack[k..]
  {
  }

  /**
   No stall, against any peer: at the head of the sender's loop a message waits
   for transmission only behind a full window, so some message is unacknowledged
   and every such message has its retry timer running or its retry pending.
   */
  lemma NoStallAtLoopHead(cfg: Config, trace: seq<Act>)
    requires ConfigOk(cfg) && LegalFrom(cfg, Start(cfg), trace)
    ensures var e := RunFrom(cfg, Start(cfg), trace);
            e.open && e.spc.Idle? && e.snd.tx != [] ==>
              && e.snd.win.ntx >= e.snd.win.cwnd >= 1
              && |e.snd.ack| == e.snd.win.ntx
              && (forall i | 0 <= i < |e.snd.ack| :: !e.snd.ack[i].timer.Stopped?)
  {
    StartInv(cfg);
    RunInv(cfg, Start(cfg), trace);
    var e := RunFrom(cfg, Start(cfg), trace);
    if e.open {
      forall i | 0 <= i < |e.snd.ack|
        ensures !e.snd.ack[i].timer.Stopped?
      {
        assert WaitingOk(cfg, e, e.snd.ack[i], e.acked + i);
      }
    }
  }

  /**
   The congestion state in every run, against any peer: exactly the
   unacknowledged messages are counted, and no field leaves the bounds of the
   configured window, so that no uint16 wraps and no acknowledgement finds
   nothing outstanding.
   */
  lemma CongestionStateBounded(cfg: Config, trace: seq<Act>)
    requires ConfigOk(cfg) && LegalFrom(cfg, Start(cfg), trace)
    ensures var e := RunFrom(cfg, Start(cfg), trace);
            var w := e.snd.win;
            && 1 <= w.cwnd <= cfg.txWindow && w.thresh <= cfg.txWindow
            && w.nacks < cfg.txWindow && w.ntx <= cfg.txWindow
            && (e.open ==> w.ntx == |e.snd.ack|)
            && (e.open && e.snd.ack != [] ==> AckHead(cfg, e.snd).win.ntx == w.ntx - 1)
  {
    StartInv(cfg);
    RunInv(cfg, Start(cfg), trace);
    WindowInvKept(RunFrom(cfg, Start(cfg), trace).snd.win, cfg.txWindow);
  }

  /**
   Conservation, against any peer and any failures: while the transport is open
   each submission is queued, in transmission, unacknowledged or complete, and
   exactly one of these; once it is down each has completed exactly once.
   */
  lemma EverySubmissionAccountedFor(cfg: Config, trace: seq<Act>, id: nat)
    requires ConfigOk(cfg) && LegalFrom(cfg, Start(cfg), trace)
    requires id < |RunFrom(cfg, Start(cfg), trace).subs|
    ensures var e := RunFrom(cfg, Start(cfg), trace);
            && Calls(e.snd.done, id) + Pending(e.snd.tx, id) + Pending(e.snd.ack, id)
               + (if e.spc.Written? && e.spc.m.id == id then 1 else 0) == 1
            && (!e.open ==> e.snd.tx == [] && e.snd.ack == [] && Calls(e.snd.done, id) == 1)
  {
    StartInv(cfg);
    RunInv(cfg, Start(cfg), trace);
    var e := RunFrom(cfg, Start(cfg), trace);
    if e.open {
      Conservation(cfg, e, id);
    } else {
      ShutIsIdle(cfg, Start(cfg), trace);
    }
  }

  lemma {:induction false} ShutIsIdle(cfg: Config, e: Ep, trace: seq<Act>)
    requires LegalFrom(cfg, e, trace) && (!e.open ==> e.spc.Idle?)
    ensures !RunFrom(cfg, e, trace).open ==> RunFrom(cfg, e, trace).spc.Idle?
    decreases |trace|
  {
    if trace != [] {
      ShutIsIdle(cfg, Do(cfg, e, trace[0]), trace[1..]);
    }
  }

  // ---------- Where delivery stops ----------

  // The receiver reads one packet, hands its nr over and works on its queue once.
  function ReadOne(cfg: Config, e: Ep, f: Flight): Ep
    requires e.open && e.spc.Idle? && e.rpc.Ready?
  {
    var e' := Do(cfg, Do(cfg, Do(cfg, e, Receive([f])), Hand), Drain);
    if e'.rpc.Delivering? then Do(cfg, e', Deliver) else e'
  }

  // Reading a packet and working on the queue once, in terms of the head of the queue.
  lemma ReadOneIs(cfg: Config, e: Ep, f: Flight)
    requires e.open && e.spc.Idle? && e.rpc.Ready? && FrameAccepted(e.snd.win.ns, [f.pkt])
    ensures var e' := ReadOne(cfg, e, f);
            var q := e.rxq + [f];
            var v := RxVerdict(e.snd.win.nr, q[0].pkt);
            && e'.rxq == (if v == Ahead then q else q[1..])
            && (if v == InSequence && q[0].pkt.body.Control?
                then e'.delivered == e.delivered + [q[0].pkt]
                else e'.delivered == e.delivered && e'.snd.win.nr == e.snd.win.nr)
  {
    assert Packets([f]) == [f.pkt];
  }

  /**
   Exactly when a packet read from the network is delivered: it must be the next
   in sequence and the queue must not be wedged; and the queue is wedged from
   the first packet ahead of sequence on.
   */
  lemma DeliveredExactlyWhen(cfgs: Configs, s: Net, f: Flight)
    requires ConfigsOk(cfgs) && Reachable(cfgs, s)
    requires s.b.open && s.b.spc.Idle? && s.b.rpc.Ready? && f in s.ab
    ensures var b' := ReadOne(cfgs.b, s.b, f);
            && b'.delivered == (if !Wedged(s.b) && f.pkt.body.Control? && f.gns == s.b.recvd
                                then s.b.delivered + [f.pkt] else s.b.delivered)
            && (Wedged(b') <==> Wedged(s.b) || f.gns > s.b.recvd)
  {
    ReachableInv(cfgs, s);
    assert FlightOk(s.a, f);
    AcceptedIsBound(f.pkt.nr, s.b.snd.win.ns, f.gnr, s.b.sent);
    VerdictIsOrder(s.b.snd.win.nr, f.pkt, s.b.recvd, f.gns);
    ReadOneIs(cfgs.b, s.b, f);
    assert s.b.rxq == [] || Wedged(s.b);
  }

  // b reads a packet ahead of sequence.
  predicate ReadsAhead(s: Net, na: NetAct)
  {
    na.ActB? && na.act.Receive? && |na.act.frame| == 1 && na.act.frame[0].gns > s.b.recvd
  }

  predicate ReadAheadIn(cfgs: Configs, s: Net, trace: seq<NetAct>)
    requires LegalNet(cfgs, s, trace)
    decreases |trace|
  {
    trace != [] && (ReadsAhead(s, trace[0]) || ReadAheadIn(cfgs, NetDo(cfgs, s, trace[0]), trace[1..]))
  }

  lemma ReceiveWedges(cfgs: Configs, s: Net, f: Flight)
    requires NetInv(cfgs, s) && Fresh(s) && NetEnabled(cfgs, s, ActB(Receive([f])))
    ensures Wedged(Do(cfgs.b, s.b, Receive([f]))) <==> Wedged(s.b) || f.gns > s.b.recvd
  {
    assert f in s.ab && FlightOk(s.a, f);
    AcceptedIsBound(f.pkt.nr, s.b.snd.win.ns, f.gnr, s.b.sent);
    VerdictIsOrder(s.b.snd.win.nr, f.pkt, s.b.recvd, f.gns);
    assert Packets([f]) == [f.pkt];
    assert s.b.rxq == [] || Wedged(s.b);
  }

  lemma WedgesExactly(cfgs: Configs, s: Net, na: NetAct)
    requires NetInv(cfgs, s) && Fresh(s) && NetEnabled(cfgs, s, na) && NetDo(cfgs, s, na).b.open
    ensures Wedged(NetDo(cfgs, s, na).b) <==> Wedged(s.b) || ReadsAhead(s, na)
  {
    if na.ActB? {
      if na.act.Receive? {
        assert na.act.frame == [na.act.frame[0]];
        ReceiveWedges(cfgs, s, na.act.frame[0]);
      } else if Wedged(s.b) {
        WedgedStep(cfgs.b, s.b, na.act);
      } else {
        UnwedgedStep(cfgs, s, na.act);
      }
    }
  }

  lemma UnwedgedStep(cfgs: Configs, s: Net, a: Act)
    requires NetInv(cfgs, s) && NetEnabled(cfgs, s, ActB(a)) && !a.Receive? && !Wedged(s.b)
    ensures !Wedged(Do(cfgs.b, s.b, a))
  {
    var b' := Do(cfgs.b, s.b, a);
    StepInv(cfgs.b, s.b, a);
    assert b'.rxq == [] || (b'.rxq == s.b.rxq && b'.recvd == s.b.recvd);
  }

  lemma {:induction false} WedgedRun(cfgs: Configs, s: Net, trace: seq<NetAct>)
    requires NetInv(cfgs, s) && LegalNet(cfgs, s, trace) && RunNet(cfgs, s, trace).b.open
    ensures s.b.open
    ensures Wedged(RunNet(cfgs, s, trace).b) <==> Wedged(s.b) || ReadAheadIn(cfgs, s, trace)
    decreases |trace|
  {
    if trace != [] {
      NetStepInv(cfgs, s, trace[0]);
      WedgedRun(cfgs, NetDo(cfgs, s, trace[0]), trace[1..]);
      WedgesExactly(cfgs, s, trace[0]);
    }
  }

  /** Over a whole run: an open side's receive queue is wedged exactly when the side once read ahead of sequence. */
  lemma WedgedExactly(cfgs: Configs, trace: seq<NetAct>)
    requires ConfigsOk(cfgs) && LegalNet(cfgs, StartNet(cfgs), trace)
    requires RunNet(cfgs, StartNet(cfgs), trace).b.open
    ensures Wedged(RunNet(cfgs, StartNet(cfgs), trace).b) <==> ReadAheadIn(cfgs, StartNet(cfgs), trace)
  {
    StartNetInv(cfgs);
    WedgedRun(cfgs, StartNet(cfgs), trace);
  }

  lemma WedgedStep(cfg: Config, e: Ep, a: Act)
    requires EpInv(cfg, e) && Wedged(e) && Enabled(cfg, e, a)
    ensures Do(cfg, e, a).accepted == e.accepted
    ensures Do(cfg, e, a).open ==> Wedged(Do(cfg, e, a))
  {
    var e' := Do(cfg, e, a);
    StepInv(cfg, e, a);
    assert e'.recvd == e.recvd;
    assert e'.open ==> e'.rxq != [] && e'.rxq[0] == e.rxq[0];
  }

  /**
   A wedged receive queue stays wedged: whatever the peer sends or retransmits,
   nothing is accepted any more, so that nothing is delivered but what was
   accepted before.
   */
  lemma {:induction false} WedgedForEver(cfg: Config, e: Ep, trace: seq<Act>)
    requires EpInv(cfg, e) && DeliveryInv(e) && LegalFrom(cfg, e, trace)
    requires e.open ==> Wedged(e)
    ensures RunFrom(cfg, e, trace).accepted == e.accepted
    ensures Bodies(RunFrom(cfg, e, trace).delivered) <= e.accepted
    decreases |trace|
  {
    if trace == [] {
      DeliveredIsAccepted(e);
    } else {
      WedgedStep(cfg, e, trace[0]);
      StepInv(cfg, e, trace[0]);
      StepDelivery(cfg, e, trace[0]);
      WedgedForEver(cfg, Do(cfg, e, trace[0]), trace[1..]);
    }
  }

  // ---------- Where a message is lost ----------

  // The step in which the transport goes down with a message on its way to the user.
  predicate CutsOff(cfg: Config, e: Ep, a: Act)
    requires Enabled(cfg, e, a)
  {
    e.rpc.Delivering? && !Do(cfg, e, a).open
  }

  predicate CutOffIn(cfg: Config, e: Ep, trace: seq<Act>)
    requires LegalFrom(cfg, e, trace)
    decreases |trace|
  {
    trace != [] && (CutsOff(cfg, e, trace[0]) || CutOffIn(cfg, Do(cfg, e, trace[0]), trace[1..]))
  }

  lemma {:induction false} LossRun(cfg: Config, e: Ep, trace: seq<Act>)
    requires EpInv(cfg, e) && DeliveryInv(e) && LegalFrom(cfg, e, trace)
    ensures DeliveryInv(RunFrom(cfg, e, trace))
    ensures !e.open ==> RunFrom(cfg, e, trace) == e
    ensures e.open && !RunFrom(cfg, e, trace).open ==>
              (|RunFrom(cfg, e, trace).delivered| < |RunFrom(cfg, e, trace).accepted| <==> CutOffIn(cfg, e, trace))
    decreases |trace|
  {
    if trace != [] {
      StepInv(cfg, e, trace[0]);
      StepDelivery(cfg, e, trace[0]);
      LossRun(cfg, Do(cfg, e, trace[0]), trace[1..]);
      if !Do(cfg, e, trace[0]).open {
        DeliveryUntouched(cfg, e, trace[0]);
      }
    }
  }

  /**
   In every run that ends with the transport down, against any peer, a message
   was accepted and never handed to the user exactly when the transport went
   down while it was on its way there; it is then the last one accepted.
   */
  lemma LostExactly(cfg: Config, trace: seq<Act>)
    requires ConfigOk(cfg) && LegalFrom(cfg, Start(cfg), trace) && !RunFrom(cfg, Start(cfg), trace).open
    ensures var e := RunFrom(cfg, Start(cfg), trace);
            && (|e.delivered| < |e.accepted| <==> CutOffIn(cfg, Start(cfg), trace))
            && |e.accepted| <= |e.delivered| + 1
  {
    StartInv(cfg);
    LossRun(cfg, Start(cfg), trace);
  }
}
