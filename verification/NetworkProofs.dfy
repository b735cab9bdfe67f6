/** Every step of the two-endpoint system keeps its invariant; the delivery and acknowledgement theorems. */
module NetworkProofs {
  import opened Bytes
  import opened SeqNum
  import opened SlowStart
  import opened TransportSpec
  import opened Endpoint
  import opened EndpointProofs
  import opened Network

  // ---------- 16-bit tests agree with the unbounded counters ----------

  // A received nr covers exactly the messages numbered below the peer's count.
  lemma AcksIsBelow(nr: U16, m: Xmit, gnr: nat, id: nat)
    requires nr == Wrap(gnr) && m.ns == Wrap(id)
    requires gnr - id < 0x8000 && id - gnr < 0x8000
    ensures Acks(nr, m) <==> id < gnr
  {
  }

  lemma VerdictIsOrder(nr: U16, p: Packet, recvd: nat, gns: nat)
    requires nr == Wrap(recvd) && p.ns == Wrap(gns)
    requires recvd - gns < 0x8000 && gns - recvd < 0x8000
    ensures RxVerdict(nr, p) == if gns == recvd then InSequence else if gns < recvd then Stale else Ahead
  {
  }

  lemma AcceptedIsBound(nr: U16, ns: U16, gnr: nat, sent: nat)
    requires nr == Wrap(gnr) && ns == Wrap(sent)
    requires -0x8000 <= gnr - (sent + 1) < 0x8000
    ensures SeqCompare(nr, SeqIncrement(ns)) <= 0 <==> gnr <= sent + 1
  {
    WrapNext(sent);
    SeqCompareAgrees(gnr, sent + 1);
  }

  // ---------- What an endpoint step can change ----------

  predicate Grows(x: Ep, x': Ep)
  {
    && x.subs <= x'.subs
    && OnWire(x) <= OnWire(x') && x.sent <= x'.sent && x.recvd <= x'.recvd
  }

  lemma DoGrows(cfg: Config, e: Ep, a: Act)
    requires Enabled(cfg, e, a)
    ensures Grows(e, Do(cfg, e, a))
  {
  }

  lemma FlightOkKept(x: Ep, x': Ep, f: Flight)
    requires Grows(x, x') && FlightOk(x, f)
    ensures FlightOk(x', f)
  {
  }

  lemma EmittedOk(cfg: Config, e: Ep, a: Act)
    requires EpInv(cfg, e) && Enabled(cfg, e, a)
    ensures forall f | f in Emitted(cfg, e, a) :: FlightOk(Do(cfg, e, a), f)
  {
  }

  // ---------- The sending side of a step ----------

  lemma CoveredIsBelow(cfg: Config, x: Ep, ind: Ind, i: nat)
    requires QueuesInv(cfg, x) && WindowInv(x.snd.win, cfg.txWindow) && cfg.txWindow < 0x8000 && i < |x.snd.ack|
    requires ind.nr == Wrap(ind.gnr) && ind.gnr <= x.sent && x.sent - ind.gnr < 0x8000
    ensures x.snd.ack[i].id == x.acked + i
    ensures Acks(ind.nr, x.snd.ack[i]) <==> x.acked + i < ind.gnr
  {
    assert WaitingOk(cfg, x, x.snd.ack[i], x.acked + i);
    AcksIsBelow(ind.nr, x.snd.ack[i], ind.gnr, x.acked + i);
  }

  // The acknowledgement count becomes the larger of itself and the nr processed.
  lemma AckNextCounts(cfg: Config, x: Ep)
    requires EpInv(cfg, x) && Enabled(cfg, x, AckNext) && cfg.txWindow < 0x8000
    requires var ind := x.spc.nrs[0];
             ind.nr == Wrap(ind.gnr) && ind.gnr <= x.sent && x.sent - ind.gnr < 0x8000
    ensures Do(cfg, x, AckNext).acked == if x.acked < x.spc.nrs[0].gnr then x.spc.nrs[0].gnr else x.acked
  {
    var ind := x.spc.nrs[0];
    var k := AckPrefixShape(cfg, x.snd, ind.nr);
    if k > 0 {
      CoveredIsBelow(cfg, x, ind, k - 1);
    }
    if k < |x.snd.ack| {
      CoveredIsBelow(cfg, x, ind, k);
    }
  }

  lemma OrderAfterAck(cfg: Config, x: Ep, y: Ep, xy: set<Flight>, yx: set<Flight>)
    requires EpInv(cfg, x) && cfg.txWindow < 0x8000 && DirInv(cfg, x, y, xy)
    requires Enabled(cfg, x, AckNext) && FreshFor(x, yx)
    ensures WindowOrder(cfg, Do(cfg, x, AckNext), y)
  {
    assert Held(x)[0] == x.spc.nrs[0];
    assert IndOk(y, Held(x)[0]);
    AckNextCounts(cfg, x);
  }

  lemma OrderAfterOther(cfg: Config, x: Ep, y: Ep, a: Act)
    requires EpInv(cfg, x) && WindowOrder(cfg, x, y)
    requires Enabled(cfg, x, a) && !a.AckNext?
    ensures WindowOrder(cfg, Do(cfg, x, a), y)
  {
    var x' := Do(cfg, x, a);
    assert x'.acked == x.acked;
    assert OnWire(x') == if a == WriteNext(true) then OnWire(x) + 1 else OnWire(x);
  }

  lemma HeldMoves(cfg: Config, x: Ep, a: Act)
    requires Enabled(cfg, x, a)
    ensures var x' := Do(cfg, x, a);
            || Held(x') == Held(x) || Held(x') == []
            || (a.AckNext? && Held(x') == Held(x)[1..])
            || (a.Receive? && Held(x') == Held(x) + Indications(a.frame))
  {
    if a.AckNext? {
      assert Held(Do(cfg, x, a)) == Held(x)[1..];
    }
  }

  lemma HeldAfterSenderStep(cfg: Config, x: Ep, y: Ep, xy: set<Flight>, yx: set<Flight>, a: Act)
    requires DirInv(cfg, x, y, xy) && EnabledOn(cfg, x, yx, a)
    requires forall f | f in yx :: FlightOk(y, f)
    ensures forall i | 0 <= i < |Held(Do(cfg, x, a))| :: IndOk(y, Held(Do(cfg, x, a))[i])
  {
    var x' := Do(cfg, x, a);
    HeldMoves(cfg, x, a);
    if a.Receive? && Held(x') == Held(x) + Indications(a.frame) {
      assert FlightOk(y, a.frame[0]);
    }
  }

  lemma SenderStep(cfg: Config, x: Ep, y: Ep, xy: set<Flight>, yx: set<Flight>, a: Act)
    requires EpInv(cfg, x) && cfg.txWindow < 0x8000 && DirInv(cfg, x, y, xy)
    requires EnabledOn(cfg, x, yx, a) && FreshFor(x, yx)
    requires forall f | f in yx :: FlightOk(y, f)
    ensures DirInv(cfg, Do(cfg, x, a), y, xy + Emitted(cfg, x, a))
  {
    var x' := Do(cfg, x, a);
    DoGrows(cfg, x, a);
    if a.AckNext? {
      OrderAfterAck(cfg, x, y, xy, yx);
    } else {
      OrderAfterOther(cfg, x, y, a);
    }
    HeldAfterSenderStep(cfg, x, y, xy, yx, a);
    EmittedOk(cfg, x, a);
    assert y.accepted == x'.subs[..y.recvd] by {
      assert x'.subs[..y.recvd] == x.subs[..y.recvd];
    }
    forall f | f in xy + Emitted(cfg, x, a)
      ensures FlightOk(x', f)
    {
      if f in xy {
        FlightOkKept(x, x', f);
      }
    }
    forall i | 0 <= i < |y.rxq|
      ensures FlightOk(x', y.rxq[i])
    {
      FlightOkKept(x, x', y.rxq[i]);
    }
  }

  // ---------- The receiving side of a step ----------

  lemma VerdictOfQueued(cx: Config, x: Ep, y: Ep, xy: set<Flight>, cy: Config)
    requires DirInv(cx, x, y, xy) && EpInv(cy, y) && cx.txWindow < 0x8000 && y.rxq != []
    ensures RxVerdict(y.snd.win.nr, y.rxq[0].pkt)
            == var g := y.rxq[0].gns; if g == y.recvd then InSequence else if g < y.recvd then Stale else Ahead
  {
    assert FlightOk(x, y.rxq[0]);
    VerdictIsOrder(y.snd.win.nr, y.rxq[0].pkt, y.recvd, y.rxq[0].gns);
  }

  lemma DrainStep(cx: Config, x: Ep, y: Ep, xy: set<Flight>, cy: Config)
    requires DirInv(cx, x, y, xy) && EpInv(cy, y) && cx.txWindow < 0x8000
    requires Enabled(cy, y, Drain)
    ensures DirInv(cx, x, Do(cy, y, Drain), xy)
  {
    var y' := Do(cy, y, Drain);
    if y.rxq != [] && !Wedged(y) {
      VerdictOfQueued(cx, x, y, xy, cy);
      assert FlightOk(x, y.rxq[0]);
      assert y'.rxq == [];
      if y'.recvd == y.recvd + 1 {
        assert x.subs[..y'.recvd] == x.subs[..y.recvd] + [x.subs[y.recvd]];
      }
    }
  }

  lemma ReceiveStep(cx: Config, x: Ep, y: Ep, xy: set<Flight>, cy: Config, frame: seq<Flight>)
    requires DirInv(cx, x, y, xy)
    requires EnabledOn(cy, y, xy, Receive(frame)) && FreshFor(y, xy)
    ensures DirInv(cx, x, Do(cy, y, Receive(frame)), xy)
  {
  }

  // Steps of the sender goroutine do not touch the receive path.
  lemma ReceiveUntouched(cx: Config, x: Ep, y: Ep, xy: set<Flight>, cy: Config, a: Act)
    requires DirInv(cx, x, y, xy) && EpInv(cy, y) && Enabled(cy, y, a)
    requires !a.Drain? && !a.Receive?
    ensures DirInv(cx, x, Do(cy, y, a), xy)
  {
    var y' := Do(cy, y, a);
    assert y'.recvd == y.recvd && y'.accepted == y.accepted;
    assert y'.rxq == [] || (y'.rxq == y.rxq && (y.rpc.Ready? <==> y'.rpc.Ready?));
    assert y'.snd.win.nr == y.snd.win.nr by {
      StepInv(cy, y, a);
    }
  }

  lemma ReceiverStep(cx: Config, x: Ep, y: Ep, xy: set<Flight>, cy: Config, a: Act)
    requires DirInv(cx, x, y, xy) && EpInv(cy, y) && cx.txWindow < 0x8000
    requires EnabledOn(cy, y, xy, a) && FreshFor(y, xy)
    ensures DirInv(cx, x, Do(cy, y, a), xy)
  {
    match a
    case Drain => DrainStep(cx, x, y, xy, cy);
    case Receive(frame) => ReceiveStep(cx, x, y, xy, cy, frame);
    case _ => ReceiveUntouched(cx, x, y, xy, cy, a);
  }

  // ---------- Whole system ----------

  // One endpoint, whose peer does not move, takes a step.
  lemma SideStep(cx: Config, x: Ep, cy: Config, y: Ep, xy: set<Flight>, yx: set<Flight>, a: Act)
    requires EpInv(cx, x) && EpInv(cy, y) && cx.txWindow < 0x8000 && cy.txWindow < 0x8000
    requires DirInv(cx, x, y, xy) && DirInv(cy, y, x, yx)
    requires EnabledOn(cx, x, yx, a) && FreshFor(x, yx)
    ensures var x' := Do(cx, x, a);
            && EpInv(cx, x')
            && DirInv(cx, x', y, xy + Emitted(cx, x, a))
            && DirInv(cy, y, x', yx)
  {
    StepInv(cx, x, a);
    SenderStep(cx, x, y, xy, yx, a);
    ReceiverStep(cy, y, x, yx, cx, a);
  }

  lemma NetStepInv(cfgs: Configs, s: Net, na: NetAct)
    requires NetInv(cfgs, s) && Fresh(s) && NetEnabled(cfgs, s, na)
    ensures NetInv(cfgs, NetDo(cfgs, s, na))
  {
    match na
    case ActA(a) =>
      SideStep(cfgs.a, s.a, cfgs.b, s.b, s.ab, s.ba, a);
      StepDelivery(cfgs.a, s.a, a);
    case ActB(a) =>
      SideStep(cfgs.b, s.b, cfgs.a, s.a, s.ba, s.ab, a);
      StepDelivery(cfgs.b, s.b, a);
    case LoseAB(f) =>
    case LoseBA(f) =>
  }

  lemma StartNetInv(cfgs: Configs)
    requires ConfigsOk(cfgs)
    ensures NetInv(cfgs, StartNet(cfgs))
  {
  }

  lemma {:induction false} RunNetInv(cfgs: Configs, s: Net, trace: seq<NetAct>)
    requires NetInv(cfgs, s) && LegalNet(cfgs, s, trace)
    ensures NetInv(cfgs, RunNet(cfgs, s, trace))
    ensures Fresh(RunNet(cfgs, s, trace))
    decreases |trace|
  {
    if trace != [] {
      NetStepInv(cfgs, s, trace[0]);
      RunNetInv(cfgs, NetDo(cfgs, s, trace[0]), trace[1..]);
    }
  }
}
