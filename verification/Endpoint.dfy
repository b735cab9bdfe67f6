/**
 One endpoint of the transport as a machine whose steps are the points where
 the sender goroutine, the receiver goroutine and the timers can interleave.
 A transmission is two steps, the socket write and the update of ns, because
 the receiver may read ns in between.  So is a reception, the update of nr and
 the hand-over to the user, because the sender may acknowledge in between.

 A retry timer that has fired leaves a request for the sender, who may take it
 only after an acknowledgement has completed the message: late holds the
 completed messages with such a request outstanding.

 Proof-only counters shadow the 16-bit numbers: every submitted message has its
 position in subs, and acked, sent and recvd count without wrapping; told is
 what recvd was when the last packet was stamped.  armed records every arming of
 a retry timer.
 */
module Endpoint {
  import opened Bytes
  import opened SeqNum
  import opened SlowStart
  import opened TransportSpec

  // A packet on the network together with the unbounded numbers it stands for.
  datatype Flight = Flight(pkt: Packet, gns: nat, gnr: nat)

  // An nr value handed from the receiver to the sender.
  datatype Ind = Ind(isAck: bool, nr: U16, gnr: nat)

  datatype SenderPc =
    | Idle
    | Acking(nrs: seq<Ind>, kick: bool)
    | Pumping(nrs: seq<Ind>, kick: bool)
    | Written(m: Xmit, nrs: seq<Ind>, kick: bool)

  datatype ReceiverPc = Ready | Handing(nrs: seq<Ind>) | Draining | Delivering(pkt: Packet)

  datatype Ep = Ep(
    snd: Sender,
    spc: SenderPc,
    rpc: ReceiverPc,
    rxq: seq<Flight>,
    accepted: seq<Payload>,
    delivered: seq<Packet>,
    open: bool,
    subs: seq<Payload>,
    acked: nat,
    sent: nat,
    recvd: nat,
    told: nat,
    late: seq<Xmit>,
    armed: seq<Arming>)

  // One arming of a message's retry timer.
  datatype Arming = Arming(id: nat, backoff: nat)

  datatype Act =
    | Submit(octets: seq<Octet>)
    | WriteNext(ok: bool)
    | CommitNext
    | PumpStops
    | AckNext
    | AckEnds
    | TimerFires(i: nat)
    | Retry(r: nat, ok: bool)
    | AckTimerFires(ok: bool)
    | Receive(frame: seq<Flight>)
    | Hand
    | Drain
    | Deliver
    | ReceiveFails
    | Close

  function Start(cfg: Config): Ep
  {
    Ep(Sender(InitialWindow(cfg.txWindow), [], [], [], [], false),
       Idle, Ready, [], [], [], true, [], 0, 0, 0, 0, [], [])
  }

  function Packets(frame: seq<Flight>): seq<Packet>
  {
    seq(|frame|, i requires 0 <= i < |frame| => frame[i].pkt)
  }

  function Indications(frame: seq<Flight>): seq<Ind>
  {
    seq(|frame|, i requires 0 <= i < |frame| => Ind(frame[i].pkt.body.AckBody?, frame[i].pkt.nr, frame[i].gnr))
  }

  // ---------- Retry requests ----------

  // The messages that may have a request outstanding: those waiting, then those completed meanwhile.
  function Requests(e: Ep): seq<Xmit> { e.snd.ack + e.late }

  function Put(e: Ep, r: nat, m: Xmit): Ep
    requires r < |Requests(e)|
  {
    if r < |e.snd.ack| then e.(snd := e.snd.(ack := e.snd.ack[r := m]))
    else e.(late := e.late[r - |e.snd.ack| := m])
  }

  // The request is dropped.
  function Forget(e: Ep, r: nat): Ep
    requires r < |Requests(e)|
  {
    var j := r - |e.snd.ack|;
    if j < 0 then Put(e, r, Requests(e)[r].(timer := Stopped))
    else e.(late := e.late[..j] + e.late[j + 1..])
  }

  // The sender takes a request.  Only isComplete tells it that the message has been acknowledged since.
  function TakeRequest(cfg: Config, e: Ep, r: nat, ok: bool): Ep
    requires r < |Requests(e)|
  {
    var m := Requests(e)[r];
    if m.isComplete then Forget(e, r)
    else if Exhausted(cfg, m) || !ok then
      var e' := Put(e, r, Bumped(m).(isComplete := true));
      Shut(e'.(snd := e'.snd.(done := TxComplete(e.snd.done, m, Failed))))
    else
      var e' := e.(snd := Rewritten(e.snd, m), told := e.recvd, armed := e.armed + [Arming(m.id, m.nretries + 1)]);
      Put(e', r, Resent(e.snd, m))
  }

  // Messages just acknowledged whose timers had already fired.
  function Stragglers(q: seq<Xmit>): seq<Xmit>
    decreases |q|
  {
    if q == [] then []
    else (if q[0].timer.Fired? then [q[0].(isComplete := true)] else []) + Stragglers(q[1..])
  }

  predicate Enabled(cfg: Config, e: Ep, a: Act)
  {
    && e.open
    && match a
       case Submit(_) => e.spc.Idle?
       case WriteNext(_) => e.spc.Pumping? && e.snd.tx != [] && CanSend(e.snd.win)
       case CommitNext => e.spc.Written?
       case PumpStops => e.spc.Pumping? && (e.snd.tx == [] || !CanSend(e.snd.win))
       case AckNext => e.spc.Acking? && e.spc.nrs != []
       case AckEnds => e.spc.Acking? && e.spc.nrs == []
       case TimerFires(i) => i < |e.snd.ack| && e.snd.ack[i].timer.Armed?
       case Retry(r, _) => e.spc.Idle? && r < |Requests(e)| && Requests(e)[r].timer == Fired
       case AckTimerFires(_) => e.spc.Idle?
       case Receive(_) => e.rpc.Ready?
       case Hand => e.spc.Idle? && e.rpc.Handing?
       case Drain => e.rpc.Draining?
       case Deliver => e.rpc.Delivering?
       case ReceiveFails => e.spc.Idle? && e.rpc.Ready?
       case Close => e.spc.Idle?
  }

  // The transport goes down: the receiver stops, both queues are flushed.
  function Shut(e: Ep): Ep
  {
    e.(snd := Down(e.snd), spc := Idle, rpc := Ready, rxq := [], open := false)
  }

  function Do(cfg: Config, e: Ep, a: Act): Ep
    requires Enabled(cfg, e, a)
  {
    match a
    case Submit(octets) =>
      var m := Xmit(|e.subs|, Control(octets), 0, 0, 0, false, Stopped);
      e.(snd := e.snd.(tx := e.snd.tx + [m]), subs := e.subs + [Control(octets)], spc := Pumping([], false))
    case WriteNext(ok) =>
      if ok
      then e.(snd := PumpWritten(e.snd), spc := Written(NextOut(e.snd), e.spc.nrs, e.spc.kick), told := e.recvd)
      else Shut(e.(snd := PumpFailed(e.snd)))
    case CommitNext =>
      e.(snd := PumpCommitted(e.snd, e.spc.m), sent := e.sent + 1, spc := Pumping(e.spc.nrs, e.spc.kick),
         armed := e.armed + [Arming(e.spc.m.id, e.spc.m.nretries)])
    case PumpStops => e.(spc := Acking(e.spc.nrs, e.spc.kick))
    case AckNext =>
      var s := AckPrefix(cfg, e.snd, e.spc.nrs[0].nr);
      var found := |s.ack| < |e.snd.ack|;
      var rest := e.spc.nrs[1..];
      e.(snd := s,
         acked := if found then e.acked + (|e.snd.ack| - |s.ack|) else e.acked,
         late := if found then e.late + Stragglers(e.snd.ack[..|e.snd.ack| - |s.ack|]) else e.late,
         spc := if found then Pumping(rest, e.spc.kick) else Acking(rest, e.spc.kick))
    case AckEnds => e.(snd := e.snd.(ackTimer := e.snd.ackTimer || e.spc.kick), spc := Idle)
    case TimerFires(i) => e.(snd := e.snd.(ack := e.snd.ack[i := e.snd.ack[i].(timer := Fired)]))
    case Retry(r, ok) => TakeRequest(cfg, e, r, ok)
    case AckTimerFires(ok) => if ok then e.(snd := AckWritten(e.snd), told := e.recvd) else Shut(e)
    case Receive(frame) =>
      if FrameAccepted(e.snd.win.ns, Packets(frame))
      then e.(rxq := e.rxq + frame, rpc := Handing(Indications(frame)))
      else e.(rpc := Handing([]))
    case Hand =>
      e.(spc := Acking(e.rpc.nrs, exists i :: 0 <= i < |e.rpc.nrs| && !e.rpc.nrs[i].isAck), rpc := Draining)
    case Drain =>
      if e.rxq == [] || RxVerdict(e.snd.win.nr, e.rxq[0].pkt) == Ahead then e.(rpc := Ready)
      else if e.rxq[0].pkt.body.Control? && RxVerdict(e.snd.win.nr, e.rxq[0].pkt) == InSequence then
        e.(snd := e.snd.(win := IncrementNr(e.snd.win)), rxq := e.rxq[1..],
           accepted := e.accepted + [e.rxq[0].pkt.body], recvd := e.recvd + 1, rpc := Delivering(e.rxq[0].pkt))
      else e.(rxq := e.rxq[1..])
    case Deliver => e.(delivered := e.delivered + [e.rpc.pkt], rpc := Draining)
    case ReceiveFails => Shut(e)
    case Close => Shut(e)
  }

  // What a step puts on the network.
  function Emitted(cfg: Config, e: Ep, a: Act): set<Flight>
    requires Enabled(cfg, e, a)
  {
    match a
    case WriteNext(ok) => if ok then {Flight(PacketOf(NextOut(e.snd)), e.sent, e.recvd)} else {}
    case Retry(r, ok) =>
      var m := Requests(e)[r];
      if m.isComplete || Exhausted(cfg, m) || !ok then {}
      else {Flight(PacketOf(Resent(e.snd, m)), m.id, e.recvd)}
    case AckTimerFires(ok) => if ok then {Flight(ExplicitAck(e.snd.win), e.sent, e.recvd)} else {}
    case _ => {}
  }

  // ---------- Traces of one endpoint against an arbitrary peer ----------

  predicate LegalFrom(cfg: Config, e: Ep, trace: seq<Act>)
    decreases |trace|
  {
    trace == [] || (Enabled(cfg, e, trace[0]) && LegalFrom(cfg, Do(cfg, e, trace[0]), trace[1..]))
  }

  function RunFrom(cfg: Config, e: Ep, trace: seq<Act>): Ep
    requires LegalFrom(cfg, e, trace)
    decreases |trace|
  {
    if trace == [] then e else RunFrom(cfg, Do(cfg, e, trace[0]), trace[1..])
  }

  // ---------- The invariant ----------

  // Messages that have been written to the socket, ns updated or not.
  function OnWire(e: Ep): nat { if e.spc.Written? then e.sent + 1 else e.sent }

  predicate WaitingOk(cfg: Config, e: Ep, m: Xmit, id: nat)
  {
    && id < |e.subs|
    && m.id == id && m.body == e.subs[id] && m.ns == Wrap(id)
    && m.nretries < cfg.maxRetries && !m.isComplete && !m.timer.Stopped?
    && (m.timer.Armed? ==> m.timer.backoff == m.nretries)
  }

  predicate QueuedOk(e: Ep, m: Xmit, id: nat)
  {
    && id < |e.subs|
    && m.id == id && m.body == e.subs[id]
    && m.nretries == 0 && !m.isComplete && m.timer.Stopped?
  }

  predicate CountersInv(cfg: Config, e: Ep)
  {
    && ConfigOk(cfg)
    && WindowInv(e.snd.win, cfg.txWindow)
    && e.snd.win.ns == Wrap(e.sent)
    && e.snd.win.nr == Wrap(e.recvd)
    && e.recvd == |e.accepted|
    && (forall i | 0 <= i < |e.subs| :: e.subs[i].Control?)
  }

  predicate QueuesInv(cfg: Config, e: Ep)
  {
    && e.acked + |e.snd.ack| == e.sent
    && e.snd.win.ntx == |e.snd.ack|
    && OnWire(e) + |e.snd.tx| == |e.subs|
    && (forall i | 0 <= i < |e.snd.ack| :: WaitingOk(cfg, e, e.snd.ack[i], e.acked + i))
    && (forall i | 0 <= i < |e.snd.tx| :: QueuedOk(e, e.snd.tx[i], OnWire(e) + i))
    && (e.spc.Written? ==> QueuedOk(e, e.spc.m, e.sent) && e.spc.m.ns == Wrap(e.sent) && CanSend(e.snd.win))
  }

  // Successful completions are those of the first acked submissions, in order, and nothing else is complete.
  predicate AckedInOrder(e: Ep)
  {
    && |e.snd.done| == e.acked
    && (forall i | 0 <= i < |e.snd.done| :: e.snd.done[i] == Done(i, Acked))
  }

  // Outside the transmit loop, messages wait only because the window is full.
  predicate NoStall(e: Ep)
  {
    (e.spc.Idle? || e.spc.Acking?) && e.snd.tx != [] ==> !CanSend(e.snd.win)
  }

  // A packet handed to the user as number k.
  predicate DeliveredOk(e: Ep, p: Packet, k: nat)
  {
    k < |e.accepted| && p.ns == Wrap(k) && p.body == e.accepted[k]
  }

  // What has been handed to the user is what was accepted, but perhaps for the last message: it may be on its
  // way to the user, or have been on its way when the transport went down.
  predicate DeliveryInv(e: Ep)
  {
    && (forall k | 0 <= k < |e.delivered| :: DeliveredOk(e, e.delivered[k], k))
    && |e.delivered| <= |e.accepted| <= |e.delivered| + 1
    && (e.open ==> (e.rpc.Delivering? <==> |e.accepted| == |e.delivered| + 1))
    && (e.rpc.Delivering? ==> DeliveredOk(e, e.rpc.pkt, |e.delivered|))
  }

  // A request that outlives its queue is for a message that has completed.
  predicate LateInv(e: Ep)
  {
    forall j | 0 <= j < |e.late| :: e.late[j].isComplete && e.late[j].id < e.acked && e.late[j].timer.Fired?
  }

  ghost predicate EpInv(cfg: Config, e: Ep)
  {
    && CountersInv(cfg, e)
    && (e.open ==> QueuesInv(cfg, e) && AckedInOrder(e) && NoStall(e) && LateInv(e))
    && (!e.open ==> ShutInv(e))
  }

  // How often the completion callback of a message has been called.
  function Calls(done: seq<Done>, id: nat): nat
    decreases |done|
  {
    if done == [] then 0
    else Calls(done[..|done| - 1], id) + (if done[|done| - 1].id == id then 1 else 0)
  }

  // After shutdown: empty queues and exactly one completion for every submission, acknowledged ones first.
  ghost predicate ShutInv(e: Ep)
  {
    && e.snd.tx == [] && e.snd.ack == []
    && e.acked <= e.sent <= |e.subs|
    && e.acked <= |e.snd.done|
    && (forall i | 0 <= i < e.acked :: e.snd.done[i] == Done(i, Acked))
    && (forall i | e.acked <= i < |e.snd.done| :: e.snd.done[i].outcome == Failed)
    && (forall id: nat | id < |e.subs| :: Calls(e.snd.done, id) == 1)
  }
}
