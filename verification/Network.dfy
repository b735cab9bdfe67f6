/**
 Two endpoints joined by a network that loses, duplicates and reorders.

 The network is a set of packets in each direction: receiving a packet does not
 remove it (duplication), any packet may be received next (reordering), and any
 packet may vanish (loss).  The one assumption on it is Fresh: no copy still
 around is half the sequence space old.
 */
module Network {
  import opened SeqNum
  import opened SlowStart
  import opened TransportSpec
  import opened Endpoint

  // ab holds the packets in flight from a to b, ba those from b to a.
  datatype Net = Net(a: Ep, b: Ep, ab: set<Flight>, ba: set<Flight>)

  datatype Configs = Configs(a: Config, b: Config)

  datatype NetAct = ActA(act: Act) | ActB(act: Act) | LoseAB(f: Flight) | LoseBA(f: Flight)

  predicate ConfigsOk(cfgs: Configs)
  {
    && ConfigOk(cfgs.a) && ConfigOk(cfgs.b)
    && cfgs.a.txWindow < 0x8000 && cfgs.b.txWindow < 0x8000
  }

  function StartNet(cfgs: Configs): Net { Net(Start(cfgs.a), Start(cfgs.b), {}, {}) }

  // An endpoint reads one datagram, holding one message, off the network.
  predicate EnabledOn(cfg: Config, e: Ep, incoming: set<Flight>, a: Act)
  {
    && Enabled(cfg, e, a)
    && (a.Receive? ==> |a.frame| == 1 && a.frame[0] in incoming)
  }

  predicate NetEnabled(cfgs: Configs, s: Net, na: NetAct)
  {
    match na
    case ActA(a) => EnabledOn(cfgs.a, s.a, s.ba, a)
    case ActB(a) => EnabledOn(cfgs.b, s.b, s.ab, a)
    case LoseAB(f) => f in s.ab
    case LoseBA(f) => f in s.ba
  }

  function NetDo(cfgs: Configs, s: Net, na: NetAct): Net
    requires NetEnabled(cfgs, s, na)
  {
    match na
    case ActA(a) => s.(a := Do(cfgs.a, s.a, a), ab := s.ab + Emitted(cfgs.a, s.a, a))
    case ActB(a) => s.(b := Do(cfgs.b, s.b, a), ba := s.ba + Emitted(cfgs.b, s.b, a))
    case LoseAB(f) => s.(ab := s.ab - {f})
    case LoseBA(f) => s.(ba := s.ba - {f})
  }

  // The nr values an endpoint has received and not yet acted on.
  function Held(e: Ep): seq<Ind>
  {
    (if e.spc.Idle? then [] else e.spc.nrs) + (if e.rpc.Handing? then e.rpc.nrs else [])
  }

  // No packet coming in, and no nr in hand, is half the sequence space behind the endpoint.
  predicate FreshFor(e: Ep, incoming: set<Flight>)
  {
    && (forall f | f in incoming :: e.recvd - f.gns < 0x8000 && e.sent - f.gnr < 0x8000)
    && (forall i | 0 <= i < |Held(e)| :: e.sent - Held(e)[i].gnr < 0x8000)
  }

  predicate Fresh(s: Net) { FreshFor(s.a, s.ba) && FreshFor(s.b, s.ab) }

  predicate LegalNet(cfgs: Configs, s: Net, trace: seq<NetAct>)
    decreases |trace|
  {
    && Fresh(s)
    && (trace == [] || (NetEnabled(cfgs, s, trace[0]) && LegalNet(cfgs, NetDo(cfgs, s, trace[0]), trace[1..])))
  }

  function RunNet(cfgs: Configs, s: Net, trace: seq<NetAct>): Net
    requires LegalNet(cfgs, s, trace)
    decreases |trace|
  {
    if trace == [] then s else RunNet(cfgs, NetDo(cfgs, s, trace[0]), trace[1..])
  }

  // ---------- The invariant of one direction ----------

  // What a packet written by x says is true of x, now and later.
  predicate FlightOk(x: Ep, f: Flight)
  {
    && f.pkt.ns == Wrap(f.gns) && f.pkt.nr == Wrap(f.gnr)
    && f.gnr <= x.recvd
    && (f.pkt.body.AckBody? ==> f.gns <= x.sent)
    && (f.pkt.body.Control? ==> f.gns < OnWire(x) && f.gns < |x.subs| && f.pkt.body == x.subs[f.gns])
  }

  predicate IndOk(y: Ep, ind: Ind) { ind.nr == Wrap(ind.gnr) && ind.gnr <= y.recvd }

  // The head of the receive queue is ahead of sequence.
  predicate Wedged(e: Ep)
  {
    e.rxq != [] && RxVerdict(e.snd.win.nr, e.rxq[0].pkt) == Ahead
  }

  // Receive-side shape: at most the packet just read is waiting, unless the queue is wedged.
  predicate RxShape(y: Ep)
  {
    && (forall i | 0 <= i < |y.rxq| :: y.recvd - y.rxq[i].gns < 0x8000)
    && (y.rxq == [] || Wedged(y) || (|y.rxq| == 1 && !y.rpc.Ready?))
  }

  // The counters of a sender x and its receiver y: acked <= received <= on the wire <= acked + window.
  predicate WindowOrder(cx: Config, x: Ep, y: Ep)
  {
    && x.acked <= y.recvd <= OnWire(x) <= |x.subs|
    && OnWire(x) <= x.acked + cx.txWindow
  }

  predicate DirInv(cx: Config, x: Ep, y: Ep, xy: set<Flight>)
  {
    && WindowOrder(cx, x, y)
    && y.accepted == x.subs[..y.recvd]
    && (forall f | f in xy :: FlightOk(x, f))
    && (forall i | 0 <= i < |y.rxq| :: FlightOk(x, y.rxq[i]))
    && (forall i | 0 <= i < |Held(x)| :: IndOk(y, Held(x)[i]))
    && RxShape(y)
  }

  ghost predicate NetInv(cfgs: Configs, s: Net)
  {
    && ConfigsOk(cfgs)
    && EpInv(cfgs.a, s.a) && EpInv(cfgs.b, s.b)
    && DeliveryInv(s.a) && DeliveryInv(s.b)
    && DirInv(cfgs.a, s.a, s.b, s.ab)
    && DirInv(cfgs.b, s.b, s.a, s.ba)
  }
}
