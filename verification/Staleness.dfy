/**
 The staleness assumption as a bound on the network alone.  Fresh also bounds
 the nr values that an endpoint holds; here that part is derived, from a bound
 on packets that is smaller by the window and one.
 */
module Staleness {
  import opened TransportSpec
  import opened Endpoint
  import opened Network
  import opened NetworkProofs

  predicate YoungFor(cfg: Config, e: Ep, incoming: set<Flight>)
  {
    forall f | f in incoming :: e.recvd - f.gns < 0x8000 && e.sent - f.gnr < 0x8000 - cfg.txWindow - 1
  }

  predicate Young(cfgs: Configs, s: Net) { YoungFor(cfgs.a, s.a, s.ba) && YoungFor(cfgs.b, s.b, s.ab) }

  predicate LegalYoung(cfgs: Configs, s: Net, trace: seq<NetAct>)
    decreases |trace|
  {
    && Young(cfgs, s)
    && (trace == [] || (NetEnabled(cfgs, s, trace[0]) && LegalYoung(cfgs, NetDo(cfgs, s, trace[0]), trace[1..])))
  }

  function Acting(e: Ep): seq<Ind> { if e.spc.Idle? then [] else e.spc.nrs }

  // Whatever the sender does with the nr values it is acting on, its window stays within reach of those in hand.
  predicate HeldYoung(cfg: Config, e: Ep)
  {
    && (e.rpc.Handing? ==> |e.rpc.nrs| <= 1)
    && (forall i | 0 <= i < |Held(e)| :: e.acked + cfg.txWindow - Held(e)[i].gnr < 0x8000)
    && (forall i, j | 0 <= i < |Held(e)| && 0 <= j < |Acting(e)| ::
          Acting(e)[j].gnr + cfg.txWindow - Held(e)[i].gnr < 0x8000)
  }

  lemma YoungIsFresh(cfg: Config, x: Ep, y: Ep, xy: set<Flight>, incoming: set<Flight>)
    requires DirInv(cfg, x, y, xy) && YoungFor(cfg, x, incoming) && HeldYoung(cfg, x)
    ensures FreshFor(x, incoming)
  {
  }

  lemma ReceiveYoung(cfg: Config, x: Ep, y: Ep, xy: set<Flight>, incoming: set<Flight>, f: Flight)
    requires EpInv(cfg, x) && DirInv(cfg, x, y, xy) && YoungFor(cfg, x, incoming) && HeldYoung(cfg, x)
    requires EnabledOn(cfg, x, incoming, Receive([f]))
    ensures HeldYoung(cfg, Do(cfg, x, Receive([f])))
  {
    var x' := Do(cfg, x, Receive([f]));
    assert Acting(x') == Acting(x);
    assert Held(x') == Acting(x) + x'.rpc.nrs && Held(x) == Acting(x);
    assert x.acked <= y.recvd <= OnWire(x) <= x.sent + 1;
    forall j | 0 <= j < |Acting(x)|
      ensures Acting(x)[j].gnr <= x.sent + 1
    {
      assert IndOk(y, Held(x)[j]);
    }
  }

  lemma AckYoung(cfg: Config, x: Ep, y: Ep, xy: set<Flight>, incoming: set<Flight>)
    requires EpInv(cfg, x) && cfg.txWindow < 0x8000 && DirInv(cfg, x, y, xy) && HeldYoung(cfg, x)
    requires Enabled(cfg, x, AckNext) && FreshFor(x, incoming)
    ensures HeldYoung(cfg, Do(cfg, x, AckNext))
  {
    var x' := Do(cfg, x, AckNext);
    assert Held(x)[0] == x.spc.nrs[0] == Acting(x)[0];
    assert IndOk(y, Held(x)[0]);
    AckNextCounts(cfg, x);
    assert Acting(x') == Acting(x)[1..] && Held(x') == Held(x)[1..];
  }

  lemma StepYoung(cfg: Config, x: Ep, y: Ep, xy: set<Flight>, incoming: set<Flight>, a: Act)
    requires EpInv(cfg, x) && cfg.txWindow < 0x8000 && DirInv(cfg, x, y, xy)
    requires YoungFor(cfg, x, incoming) && HeldYoung(cfg, x) && EnabledOn(cfg, x, incoming, a)
    ensures HeldYoung(cfg, Do(cfg, x, a))
  {
    YoungIsFresh(cfg, x, y, xy, incoming);
    match a
    case Receive(frame) =>
      assert frame == [frame[0]];
      ReceiveYoung(cfg, x, y, xy, incoming, frame[0]);
    case AckNext => AckYoung(cfg, x, y, xy, incoming);
    case _ => HeldUnmoved(cfg, x, a);
  }

  function Handing(e: Ep): seq<Ind> { if e.rpc.Handing? then e.rpc.nrs else [] }

  // Every other step leaves the nr values where they are, drops them, or hands over the one there is.
  lemma HeldParts(cfg: Config, x: Ep, a: Act)
    requires EpInv(cfg, x) && Enabled(cfg, x, a) && !a.Receive? && !a.AckNext? && !a.Hand?
    ensures var x' := Do(cfg, x, a);
            && x'.acked == x.acked
            && (Acting(x') == Acting(x) || Acting(x') == [])
            && (x'.rpc == x.rpc || !x'.rpc.Handing?)
  {
  }

  lemma FewerHeld(cfg: Config, x: Ep, x': Ep)
    requires HeldYoung(cfg, x) && x'.acked == x.acked
    requires (Acting(x') == Acting(x) || Acting(x') == []) && (x'.rpc == x.rpc || !x'.rpc.Handing?)
    ensures HeldYoung(cfg, x')
  {
    assert Held(x) == Acting(x) + Handing(x) && Held(x') == Acting(x') + Handing(x');
    forall i | 0 <= i < |Held(x')|
      ensures Held(x')[i] in Held(x)
    {
    }
  }

  lemma HandMoves(cfg: Config, x: Ep)
    requires Enabled(cfg, x, Hand)
    ensures var x' := Do(cfg, x, Hand);
            && x'.acked == x.acked && !x'.rpc.Handing?
            && Held(x) == x.rpc.nrs && Acting(x') == x.rpc.nrs && Held(x') == x.rpc.nrs
  {
  }

  // The one nr there is passes from the receiver to the sender.
  lemma SameHeld(cfg: Config, x: Ep, x': Ep)
    requires HeldYoung(cfg, x) && x'.acked == x.acked && !x'.rpc.Handing? && cfg.txWindow < 0x8000
    requires Held(x') == Held(x) && Acting(x') == Held(x) && |Held(x)| <= 1
    ensures HeldYoung(cfg, x')
  {
  }

  lemma HeldUnmoved(cfg: Config, x: Ep, a: Act)
    requires EpInv(cfg, x) && cfg.txWindow < 0x8000 && HeldYoung(cfg, x)
    requires Enabled(cfg, x, a) && !a.Receive? && !a.AckNext?
    ensures HeldYoung(cfg, Do(cfg, x, a))
  {
    var x' := Do(cfg, x, a);
    if a.Hand? {
      HandMoves(cfg, x);
      SameHeld(cfg, x, x');
    } else {
      HeldParts(cfg, x, a);
      FewerHeld(cfg, x, x');
    }
  }

  lemma NetStepYoung(cfgs: Configs, s: Net, na: NetAct)
    requires NetInv(cfgs, s) && Young(cfgs, s) && HeldYoung(cfgs.a, s.a) && HeldYoung(cfgs.b, s.b)
    requires NetEnabled(cfgs, s, na)
    ensures var s' := NetDo(cfgs, s, na); HeldYoung(cfgs.a, s'.a) && HeldYoung(cfgs.b, s'.b)
  {
    match na
    case ActA(a) => StepYoung(cfgs.a, s.a, s.b, s.ab, s.ba, a);
    case ActB(a) => StepYoung(cfgs.b, s.b, s.a, s.ba, s.ab, a);
    case _ =>
  }

  lemma {:induction false} YoungRunsAreFresh(cfgs: Configs, s: Net, trace: seq<NetAct>)
    requires NetInv(cfgs, s) && HeldYoung(cfgs.a, s.a) && HeldYoung(cfgs.b, s.b) && LegalYoung(cfgs, s, trace)
    ensures LegalNet(cfgs, s, trace)
    decreases |trace|
  {
    YoungIsFresh(cfgs.a, s.a, s.b, s.ab, s.ba);
    YoungIsFresh(cfgs.b, s.b, s.a, s.ba, s.ab);
    if trace != [] {
      NetStepYoung(cfgs, s, trace[0]);
      NetStepInv(cfgs, s, trace[0]);
      YoungRunsAreFresh(cfgs, NetDo(cfgs, s, trace[0]), trace[1..]);
    }
  }

  /** A run whose packets are young enough is one of the runs that the network theorems speak of. */
  lemma NetworkBoundSuffices(cfgs: Configs, trace: seq<NetAct>)
    requires ConfigsOk(cfgs) && LegalYoung(cfgs, StartNet(cfgs), trace)
    ensures LegalNet(cfgs, StartNet(cfgs), trace)
  {
    StartNetInv(cfgs);
    YoungRunsAreFresh(cfgs, StartNet(cfgs), trace);
  }
}
