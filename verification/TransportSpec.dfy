/**
 What the reliable transport computes, as functions on values: the sender's
 queues and timers, the receiver's queue, and the pieces of each operation that
 another goroutine can observe separately.
 */
module TransportSpec {
  import opened Bytes
  import opened SeqNum
  import opened SlowStart

  // A control message without its sequence numbers.  AckBody is the L2TPv2
  // zero-length body, or the L2TPv3 explicit acknowledgement message.
  datatype Payload = AckBody | Control(octets: seq<Octet>)

  datatype Packet = Packet(ns: U16, nr: U16, body: Payload)

  // Durations are in nanoseconds.
  datatype Config = Config(txWindow: U16, maxRetries: nat, retryTimeout: nat, ackTimeout: nat)

  predicate ConfigOk(cfg: Config) { cfg.txWindow >= 1 && cfg.maxRetries >= 1 && cfg.retryTimeout >= 1 }

  const DefaultConfig: Config := Config(4, 3, 1_000_000_000, 100_000_000)

  // Unset parameters get their defaults: four packets, three writes, a second, a tenth of a second.
  function SanitiseConfig(given: Config): (cfg: Config)
    ensures ConfigOk(cfg) && cfg.ackTimeout >= 1
    ensures cfg.txWindow != given.txWindow <==> given.txWindow == 0
    ensures cfg.maxRetries != given.maxRetries <==> given.maxRetries == 0
    ensures cfg.retryTimeout != given.retryTimeout <==> given.retryTimeout == 0
    ensures cfg.ackTimeout != given.ackTimeout <==> given.ackTimeout == 0
    ensures cfg.txWindow in {given.txWindow, 4} && cfg.maxRetries in {given.maxRetries, 3}
    ensures cfg.retryTimeout in {given.retryTimeout, 1_000_000_000} && cfg.ackTimeout in {given.ackTimeout, 100_000_000}
  {
    Config(
      if given.txWindow == 0 then DefaultConfig.txWindow else given.txWindow,
      if given.maxRetries == 0 then DefaultConfig.maxRetries else given.maxRetries,
      if given.retryTimeout == 0 then DefaultConfig.retryTimeout else given.retryTimeout,
      if given.ackTimeout == 0 then DefaultConfig.ackTimeout else given.ackTimeout)
  }

  // The retry timer of a message: Armed for the retry timeout doubled backoff times, and
  // Fired from its expiry until the sender takes the request.
  datatype Timer = Stopped | Armed(backoff: nat) | Fired

  datatype Xmit = Xmit(id: nat, body: Payload, ns: U16, nr: U16, nretries: nat, isComplete: bool, timer: Timer)

  datatype Outcome = Acked | Failed

  // One call of a message's completion callback.
  datatype Done = Done(id: nat, outcome: Outcome)

  // One successful write to the socket.
  datatype Wire = OfMsg(id: nat, pkt: Packet) | OfAck(pkt: Packet)

  datatype Sender = Sender(
    win: Window,
    tx: seq<Xmit>,
    ack: seq<Xmit>,
    done: seq<Done>,
    wire: seq<Wire>,
    ackTimer: bool)

  // ---------- Sending ----------

  // A retransmitted message keeps its ns; nr is always refreshed.
  function Stamp(m: Xmit, w: Window): Xmit
  {
    m.(ns := if m.nretries > 0 then m.ns else w.ns, nr := w.nr)
  }

  function PacketOf(m: Xmit): Packet { Packet(m.ns, m.nr, m.body) }

  function TxComplete(done: seq<Done>, m: Xmit, outcome: Outcome): seq<Done>
  {
    if m.isComplete then done else done + [Done(m.id, outcome)]
  }

  // The head of the transmit queue as it goes to the socket.
  function NextOut(s: Sender): Xmit
    requires s.tx != []
  {
    Stamp(s.tx[0], s.win)
  }

  // First half of a transmission: the message has left the queue and is on the wire.
  function PumpWritten(s: Sender): Sender
    requires s.tx != []
  {
    s.(tx := s.tx[1..], wire := s.wire + [OfMsg(NextOut(s).id, PacketOf(NextOut(s)))])
  }

  // Second half: ns moves on, the retry timer starts, the message waits for its acknowledgement.
  function PumpCommitted(s: Sender, m: Xmit): Sender
  {
    var w := if m.body.AckBody? || m.nretries > 0 then s.win else IncrementNs(s.win);
    s.(win := OnSend(w), ack := s.ack + [m.(timer := Armed(m.nretries))], ackTimer := false)
  }

  function PumpFailed(s: Sender): Sender
    requires s.tx != []
  {
    s.(tx := s.tx[1..], done := TxComplete(s.done, s.tx[0], Failed))
  }

  datatype Pumped = Pumped(s: Sender, writes: nat, ok: bool)

  // processTxQueue: io(n) says whether the n-th write to the socket succeeds.
  function Pump(s: Sender, io: nat -> bool, n: nat): Pumped
    decreases |s.tx|
  {
    if s.tx == [] || !CanSend(s.win) then Pumped(s, n, true)
    else if io(n) then Pump(PumpCommitted(PumpWritten(s), NextOut(s)), io, n + 1)
    else Pumped(PumpFailed(s), n + 1, false)
  }

  // ---------- Acknowledgements ----------

  // Does a received nr acknowledge this message?
  predicate Acks(nr: U16, m: Xmit) { SeqCompare(nr, m.ns) > 0 }

  function AckHead(cfg: Config, s: Sender): Sender
    requires s.ack != []
  {
    s.(win := OnAck(s.win, cfg.txWindow), ack := s.ack[1..], done := TxComplete(s.done, s.ack[0], Acked))
  }

  // processAckQueue: pop from the front for as long as the front is acknowledged.
  function AckPrefix(cfg: Config, s: Sender, nr: U16): Sender
    decreases |s.ack|
  {
    if s.ack == [] || !Acks(nr, s.ack[0]) then s else AckPrefix(cfg, AckHead(cfg, s), nr)
  }

  // One nr from the receiver: what it acknowledges may open the window for more.
  function HandleNr(cfg: Config, s: Sender, nr: U16, io: nat -> bool, n: nat): Pumped
  {
    var s' := AckPrefix(cfg, s, nr);
    if |s'.ack| < |s.ack| then Pump(s', io, n) else Pumped(s', n, true)
  }

  function HandleNrs(cfg: Config, s: Sender, nrs: seq<U16>, io: nat -> bool, n: nat): Pumped
    decreases |nrs|
  {
    if nrs == [] then Pumped(s, n, true)
    else
      var p := HandleNr(cfg, s, nrs[0], io, n);
      if p.ok then HandleNrs(cfg, p.s, nrs[1..], io, p.writes) else p
  }

  // ---------- Retransmission ----------

  function Bumped(m: Xmit): Xmit { m.(nretries := m.nretries + 1, timer := Stopped) }

  predicate Exhausted(cfg: Config, m: Xmit) { Bumped(m).nretries >= cfg.maxRetries }

  // A message after it has been written once more.
  function Resent(s: Sender, m: Xmit): Xmit { Stamp(Bumped(m), s.win).(timer := Armed(m.nretries + 1)) }

  // The rest of the sender after a message has been written once more.
  function Rewritten(s: Sender, m: Xmit): Sender
  {
    s.(win := OnRetransmit(s.win),
       wire := s.wire + [OfMsg(m.id, PacketOf(Resent(s, m)))],
       ackTimer := false)
  }

  function Retransmitted(s: Sender, i: nat): Sender
    requires i < |s.ack|
  {
    Rewritten(s, s.ack[i]).(ack := s.ack[i := Resent(s, s.ack[i])])
  }

  // A retransmission that fails completes its message before the transport goes down.
  function RetryFailed(s: Sender, i: nat): Sender
    requires i < |s.ack|
  {
    s.(ack := s.ack[i := Bumped(s.ack[i]).(isComplete := true)],
       done := TxComplete(s.done, s.ack[i], Failed))
  }

  // ---------- Explicit acknowledgement and shutdown ----------

  function ExplicitAck(w: Window): Packet { Packet(w.ns, w.nr, AckBody) }

  function AckWritten(s: Sender): Sender
  {
    s.(wire := s.wire + [OfAck(ExplicitAck(s.win))], ackTimer := false)
  }

  function Flush(done: seq<Done>, q: seq<Xmit>): seq<Done>
    decreases |q|
  {
    if q == [] then done else Flush(TxComplete(done, q[0], Failed), q[1..])
  }

  function Down(s: Sender): Sender
  {
    s.(tx := [], ack := [], done := Flush(Flush(s.done, s.tx), s.ack), ackTimer := false)
  }

  // ---------- Receiving ----------

  // The early check of recvFrame: no message may acknowledge more than ns + 1.
  predicate FrameAccepted(ns: U16, frame: seq<Packet>)
  {
    forall i | 0 <= i < |frame| :: SeqCompare(frame[i].nr, SeqIncrement(ns)) <= 0
  }

  // An nr value handed from the receiver to the sender, and whether it came with an acknowledgement only.
  datatype NrInd = NrInd(isAck: bool, nr: U16)

  function NrInds(frame: seq<Packet>): seq<NrInd>
  {
    seq(|frame|, i requires 0 <= i < |frame| => NrInd(frame[i].body.AckBody?, frame[i].nr))
  }

  function Nrs(inds: seq<NrInd>): seq<U16> { seq(|inds|, i requires 0 <= i < |inds| => inds[i].nr) }

  predicate AnyMessage(inds: seq<NrInd>) { exists i :: 0 <= i < |inds| && !inds[i].isAck }

  datatype Verdict = Ahead | InSequence | Stale

  function RxVerdict(nr: U16, p: Packet): Verdict
  {
    if SeqCompare(nr, p.ns) == 0 then InSequence
    else if SeqCompare(p.ns, nr) == -1 then Stale
    else Ahead
  }

  datatype RxState = RxState(nr: U16, rx: seq<Packet>, out: seq<Packet>)

  // One turn of processRxQueue on a head it can handle.
  function RxPop(r: RxState): RxState
    requires r.rx != []
  {
    if r.rx[0].body.Control? && RxVerdict(r.nr, r.rx[0]) == InSequence
    then RxState(SeqIncrement(r.nr), r.rx[1..], r.out + [r.rx[0]])
    else r.(rx := r.rx[1..])
  }

  // processRxQueue: only the head of the queue is ever considered.
  function DrainRx(r: RxState): RxState
    decreases |r.rx|
  {
    if r.rx == [] || RxVerdict(r.nr, r.rx[0]) == Ahead then r else DrainRx(RxPop(r))
  }
}
