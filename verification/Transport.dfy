/**
 The transport object: the queues, timers and counters as the two goroutines
 update them in place.  Every method is proved against the functions of
 TransportSpec.
 */
module Transport {
  import opened Bytes
  import opened SeqNum
  import opened SlowStart
  import opened TransportSpec

  /** A message handed to the transport, shared between the queues and its retry timer. */
  class XmitMsg {
    const id: nat
    const body: Payload
    var ns: U16
    var nr: U16
    var nretries: nat
    var isComplete: bool
    var timer: Timer

    ghost function Value(): Xmit
      reads this
    {
      Xmit(id, body, ns, nr, nretries, isComplete, timer)
    }

    constructor (id: nat, body: Payload)
      ensures Value() == Xmit(id, body, 0, 0, 0, false, Stopped)
    {
      this.id, this.body := id, body;
      ns, nr, nretries, isComplete, timer := 0, 0, 0, false, Stopped;
    }
  }

  /** The socket: outcome(n) says whether the n-th write succeeds. */
  class ControlPlane {
    const outcome: nat -> bool
    var attempts: nat
    ghost var wire: seq<Wire>

    constructor (outcome: nat -> bool)
      ensures this.outcome == outcome && attempts == 0 && wire == []
    {
      this.outcome := outcome;
      attempts, wire := 0, [];
    }

    method Write(ghost w: Wire) returns (ok: bool)
      modifies this
      ensures ok == outcome(old(attempts)) && attempts == old(attempts) + 1
      ensures wire == if ok then old(wire) + [w] else old(wire)
    {
      ok := outcome(attempts);
      attempts := attempts + 1;
      if ok { wire := wire + [w]; }
    }
  }

  ghost function Values(q: seq<XmitMsg>): seq<Xmit>
    reads q
  {
    seq(|q|, i requires 0 <= i < |q| reads q => q[i].Value())
  }

  predicate Distinct(q: seq<XmitMsg>)
  {
    forall i, j | 0 <= i < j < |q| :: q[i] != q[j]
  }

  // Moving or dropping the head of the first queue keeps messages apart.
  lemma HeadIsApart(tx: seq<XmitMsg>, ack: seq<XmitMsg>)
    requires tx != [] && Distinct(tx + ack)
    ensures tx[0] !in tx[1..] && tx[0] !in ack
    ensures Distinct(tx[1..] + ack)
    ensures Distinct(tx[1..] + (ack + [tx[0]]))
  {
    var all := tx + ack;
    assert all[0] == tx[0];
    assert forall i | 0 <= i < |tx[1..]| :: tx[1..][i] == all[i + 1];
    assert forall i | 0 <= i < |ack| :: ack[i] == all[|tx| + i];
    assert tx[1..] + ack == all[1..];
    assert tx[1..] + (ack + [tx[0]]) == all[1..] + [tx[0]];
  }

  lemma AckHeadIsApart(tx: seq<XmitMsg>, ack: seq<XmitMsg>)
    requires ack != [] && Distinct(tx + ack)
    ensures ack[0] !in tx && ack[0] !in ack[1..]
    ensures Distinct(tx + ack[1..])
  {
    AckIsApart(tx, ack, 0);
    var all, rest := tx + ack, tx + ack[1..];
    forall i, j | 0 <= i < j < |rest|
      ensures rest[i] != rest[j]
    {
      assert rest[i] == all[if i < |tx| then i else i + 1];
      assert rest[j] == all[if j < |tx| then j else j + 1];
    }
  }

  lemma AckIsApart(tx: seq<XmitMsg>, ack: seq<XmitMsg>, i: nat)
    requires i < |ack| && Distinct(tx + ack)
    ensures ack[i] !in tx
    ensures forall j | 0 <= j < |ack| && j != i :: ack[j] != ack[i]
  {
    var all := tx + ack;
    assert forall j | 0 <= j < |tx| :: tx[j] == all[j];
    assert forall j | 0 <= j < |ack| :: ack[j] == all[|tx| + j];
  }

  lemma AppendIsApart(tx: seq<XmitMsg>, ack: seq<XmitMsg>, m: XmitMsg)
    requires Distinct(tx + ack) && m !in tx && m !in ack
    ensures Distinct((tx + [m]) + ack)
  {
    var all, new' := tx + ack, (tx + [m]) + ack;
    forall i, j | 0 <= i < j < |new'|
      ensures new'[i] != new'[j]
    {
      var old_i := if i < |tx| then i else i - 1;
      var old_j := if j < |tx| then j else j - 1;
      if i != |tx| && j != |tx| {
        assert new'[i] == all[old_i] && new'[j] == all[old_j];
      }
    }
  }

  // What shutdown does with a queue depends only on which messages are complete.
  lemma {:induction false} FlushIgnores(done: seq<Done>, q: seq<Xmit>, r: seq<Xmit>)
    requires |q| == |r|
    requires forall i | 0 <= i < |q| :: q[i].id == r[i].id && q[i].isComplete == r[i].isComplete
    ensures Flush(done, q) == Flush(done, r)
    decreases |q|
  {
    if q != [] {
      FlushIgnores(TxComplete(done, q[0], Failed), q[1..], r[1..]);
    }
  }

  class Xport {
    const cfg: Config
    const cp: ControlPlane
    const slowStart: SlowStartState
    var txQueue: seq<XmitMsg>
    var ackQueue: seq<XmitMsg>
    var rxQueue: seq<Packet>
    var recvChan: seq<Packet>
    var ackTimer: bool
    ghost var done: seq<Done>

    // A message is in at most one place of at most one queue.
    ghost predicate Valid()
      reads this
    {
      Distinct(txQueue + ackQueue)
    }

    ghost function Value(): Sender
      reads this, cp, slowStart, txQueue, ackQueue
    {
      Sender(slowStart.Value(), Values(txQueue), Values(ackQueue), done, cp.wire, ackTimer)
    }

    ghost function RxValue(): RxState
      reads this, slowStart
    {
      RxState(slowStart.nr, rxQueue, recvChan)
    }

    constructor (cp: ControlPlane, given: Config)
      ensures Valid() && this.cp == cp && cfg == SanitiseConfig(given)
      ensures fresh(slowStart)
      ensures Value() == Sender(InitialWindow(cfg.txWindow), [], [], [], cp.wire, false)
      ensures RxValue() == RxState(0, [], [])
    {
      var c := SanitiseConfig(given);
      cfg := c;
      this.cp := cp;
      slowStart := new SlowStartState(c.txWindow);
      txQueue, ackQueue, rxQueue, recvChan, ackTimer, done := [], [], [], [], false, [];
    }

    // ---------- Sending ----------

    method CompleteTx(m: XmitMsg, ghost outcome: Outcome)
      modifies m`isComplete, m`timer, this`done
      ensures m.isComplete
      ensures m.timer == if !old(m.isComplete) && old(m.timer).Armed? then Stopped else old(m.timer)
      ensures done == TxComplete(old(done), old(m.Value()), outcome)
    {
      if !m.isComplete {
        m.isComplete := true;
        if m.timer.Armed? { m.timer := Stopped; }
        done := done + [Done(m.id, outcome)];
      }
    }

    method SendMessage(m: XmitMsg) returns (ok: bool)
      modifies m`ns, m`nr, m`timer, cp, slowStart, this`ackTimer
      ensures ok == cp.outcome(old(cp.attempts)) && cp.attempts == old(cp.attempts) + 1
      ensures var stamped := Stamp(old(m.Value()), old(slowStart.Value()));
              && m.Value() == (if ok then stamped.(timer := Armed(m.nretries)) else stamped)
              && cp.wire == (if ok then old(cp.wire) + [OfMsg(m.id, PacketOf(stamped))] else old(cp.wire))
      ensures slowStart.Value() == if ok && m.body.Control? && m.nretries == 0
                                   then IncrementNs(old(slowStart.Value())) else old(slowStart.Value())
      ensures ackTimer == (old(ackTimer) && !ok)
    {
      var ns := if m.nretries > 0 then m.ns else slowStart.ns;
      m.ns, m.nr := ns, slowStart.nr;
      ok := cp.Write(OfMsg(m.id, Packet(m.ns, m.nr, m.body)));
      if ok {
        ackTimer := false;
        if m.body.Control? && m.nretries == 0 {
          slowStart.BumpNs();
        }
        m.timer := Armed(m.nretries);
      }
    }

    // One turn of the transmit loop.
    method SendHead() returns (ok: bool)
      requires Valid() && txQueue != []
      modifies this, cp, slowStart, txQueue[0]
      ensures Valid()
      ensures ok == cp.outcome(old(cp.attempts)) && cp.attempts == old(cp.attempts) + 1
      ensures Value() == if ok then PumpCommitted(PumpWritten(old(Value())), NextOut(old(Value())))
                         else PumpFailed(old(Value()))
      ensures txQueue == old(txQueue)[1..]
      ensures ackQueue == if ok then old(ackQueue) + [old(txQueue)[0]] else old(ackQueue)
      ensures RxValue() == old(RxValue())
    {
      ghost var v := Value();
      var msg := txQueue[0];
      HeadIsApart(txQueue, ackQueue);
      txQueue := txQueue[1..];
      assert Values(txQueue) == v.tx[1..];
      ok := SendMessage(msg);
      if ok {
        ackQueue := ackQueue + [msg];
        slowStart.Sent();
        assert Values(ackQueue) == v.ack + [NextOut(v).(timer := Armed(NextOut(v).nretries))];
      } else {
        CompleteTx(msg, Failed);
      }
    }

    method ProcessTxQueue() returns (ok: bool)
      requires Valid()
      modifies this, cp, slowStart, txQueue
      ensures Valid()
      ensures Pumped(Value(), cp.attempts, ok) == Pump(old(Value()), cp.outcome, old(cp.attempts))
      ensures RxValue() == old(RxValue())
      ensures forall m | m in txQueue :: m in old(txQueue)
      ensures forall m | m in ackQueue :: m in old(ackQueue) || m in old(txQueue)
    {
      while |txQueue| > 0
        invariant Valid()
        invariant Pump(Value(), cp.outcome, cp.attempts) == Pump(old(Value()), cp.outcome, old(cp.attempts))
        invariant forall m | m in txQueue :: m in old(txQueue)
        invariant forall m | m in ackQueue :: m in old(ackQueue) || m in old(txQueue)
        invariant RxValue() == old(RxValue())
        decreases |txQueue|
      {
        var open := slowStart.CanSendNow();
        if !open {
          return true;
        }
        assert txQueue[0] in old(txQueue);
        var sent := SendHead();
        if !sent {
          return false;
        }
      }
      return true;
    }

    // ---------- Acknowledgements ----------

    // Only the front of the queue is ever looked at, so the loop pops a prefix.
    method ProcessAckQueue(nr: U16) returns (found: bool)
      requires Valid()
      modifies this`ackQueue, this`done, slowStart, ackQueue
      ensures Valid()
      ensures Value() == AckPrefix(cfg, old(Value()), nr)
      ensures found <==> |ackQueue| < |old(ackQueue)|
      ensures forall m | m in ackQueue :: m in old(ackQueue)
      ensures slowStart.nr == old(slowStart.nr)
    {
      found := false;
      var i := 0;
      while i < |ackQueue|
        invariant 0 <= i <= |ackQueue| <= |old(ackQueue)|
        invariant Valid()
        invariant AckPrefix(cfg, Value(), nr) == AckPrefix(cfg, old(Value()), nr)
        invariant i > 0 ==> !Acks(nr, ackQueue[0].Value())
        invariant found <==> |ackQueue| < |old(ackQueue)|
        invariant forall m | m in ackQueue :: m in old(ackQueue)
        invariant slowStart.nr == old(slowStart.nr)
        decreases |ackQueue| - i
      {
        var msg := ackQueue[0];
        if SeqCompare(nr, msg.ns) > 0 {
          assert i == 0 && ackQueue[0] in old(ackQueue);
          PopAcked();
          found := true;
        } else {
          i := i + 1;
        }
      }
    }

    // The front of the queue is acknowledged: count it, remove it, complete it.
    method PopAcked()
      requires Valid() && ackQueue != []
      modifies this`ackQueue, this`done, slowStart, ackQueue[0]
      ensures Valid()
      ensures Value() == AckHead(cfg, old(Value()))
      ensures ackQueue == old(ackQueue)[1..]
      ensures slowStart.nr == old(slowStart.nr)
    {
      ghost var v := Value();
      var msg := ackQueue[0];
      AckHeadIsApart(txQueue, ackQueue);
      slowStart.Acked(cfg.txWindow);
      ackQueue := ackQueue[1..];
      assert Values(ackQueue) == v.ack[1..];
      CompleteTx(msg, Acked);
    }

    // ---------- Retransmission, explicit acknowledgement, shutdown ----------

    // A retry request reaches the sender.  It may be late: then the message is complete and in no queue.
    method HandleRetry(m: XmitMsg, ghost i: nat) returns (ok: bool)
      requires Valid()
      requires !m.isComplete ==> i < |ackQueue| && ackQueue[i] == m
      requires m.isComplete ==> m !in txQueue && m !in ackQueue
      requires m.timer == Fired
      modifies this, cp, slowStart, m, txQueue, ackQueue
      ensures Valid()
      ensures old(m.isComplete) ==> ok && Value() == old(Value())
      ensures !old(m.isComplete) ==>
                && ok == (!Exhausted(cfg, old(m.Value())) && cp.outcome(old(cp.attempts)))
                && Value() == (if ok then Retransmitted(old(Value()), i) else Down(RetryFailed(old(Value()), i)))
    {
      ok := true;
      ghost var v := Value();
      if m.isComplete {
        m.timer := Stopped;
      } else {
        AckIsApart(txQueue, ackQueue, i);
        m.timer := Stopped;
        assert Values(txQueue) == v.tx;
        assert Values(ackQueue) == v.ack[i := v.ack[i].(timer := Stopped)];
        ok := Retransmit(m, i);
        if ok {
          assert Value().ack == Retransmitted(v, i).ack;
        } else {
          GiveUp(m, i, v);
        }
      }
    }

    // A message has run out of attempts, or could not be written again.
    method GiveUp(m: XmitMsg, ghost i: nat, ghost v: Sender)
      requires Valid() && i < |ackQueue| && ackQueue[i] == m && !m.isComplete
      requires |v.ack| == |ackQueue| && v.ack[i].id == m.id && !v.ack[i].isComplete
      requires Value() == v.(ack := v.ack[i := m.Value()])
      modifies this, txQueue, ackQueue
      ensures Valid() && Value() == Down(RetryFailed(v, i))
    {
      AckIsApart(txQueue, ackQueue, i);
      ghost var before := Values(ackQueue);
      CompleteTx(m, Failed);
      assert Values(txQueue) == v.tx;
      assert Values(ackQueue) == before[i := m.Value()];
      FlushIgnores(Flush(done, v.tx), Values(ackQueue), RetryFailed(v, i).ack);
      GoDown();
    }

    // On failure only the message itself has changed.
    method Retransmit(m: XmitMsg, ghost i: nat) returns (ok: bool)
      requires Valid() && i < |ackQueue| && ackQueue[i] == m && m.timer == Stopped
      modifies m`ns, m`nr, m`timer, m`nretries, cp, slowStart, this`ackTimer
      ensures ok == (old(m.nretries) + 1 < cfg.maxRetries && cp.outcome(old(cp.attempts)))
      ensures ok ==> Value() == Retransmitted(old(Value()), i)
      ensures !ok ==>
                && slowStart.Value() == old(slowStart.Value()) && cp.wire == old(cp.wire)
                && ackTimer == old(ackTimer)
                && Values(txQueue) == old(Values(txQueue))
                && Values(ackQueue) == old(Values(ackQueue))[i := m.Value()]
    {
      ghost var v := Value();
      AckIsApart(txQueue, ackQueue, i);
      m.nretries := m.nretries + 1;
      ok := m.nretries < cfg.maxRetries;
      if ok {
        ok := SendMessage(m);
        if ok {
          slowStart.Retransmitted();
        }
      }
      assert Values(txQueue) == v.tx;
      assert Values(ackQueue) == v.ack[i := m.Value()];
    }

    method GoDown()
      requires Valid()
      modifies this, txQueue, ackQueue
      ensures Valid() && txQueue == [] && ackQueue == []
      ensures Value() == Down(old(Value()))
      ensures RxValue() == old(RxValue())
    {
      while |txQueue| > 0
        invariant Valid()
        invariant Down(Value()) == Down(old(Value()))
        invariant forall m | m in txQueue :: m in old(txQueue)
        invariant ackQueue == old(ackQueue)
        invariant RxValue() == old(RxValue())
        decreases |txQueue|
      {
        assert txQueue[0] in old(txQueue);
        FlushTxHead();
      }
      while |ackQueue| > 0
        invariant Valid() && txQueue == []
        invariant Down(Value()) == Down(old(Value()))
        invariant forall m | m in ackQueue :: m in old(ackQueue)
        invariant RxValue() == old(RxValue())
        decreases |ackQueue|
      {
        assert ackQueue[0] in old(ackQueue);
        FlushAckHead();
      }
      ackTimer := false;
    }

    method FlushTxHead()
      requires Valid() && txQueue != []
      modifies this`txQueue, this`done, txQueue[0]
      ensures Valid()
      ensures Value() == (var v := old(Value()); v.(tx := v.tx[1..], done := TxComplete(v.done, v.tx[0], Failed)))
      ensures txQueue == old(txQueue)[1..]
    {
      ghost var v := Value();
      var msg := txQueue[0];
      HeadIsApart(txQueue, ackQueue);
      txQueue := txQueue[1..];
      assert Values(txQueue) == v.tx[1..];
      CompleteTx(msg, Failed);
    }

    method FlushAckHead()
      requires Valid() && ackQueue != []
      modifies this`ackQueue, this`done, ackQueue[0]
      ensures Valid()
      ensures Value() == (var v := old(Value()); v.(ack := v.ack[1..], done := TxComplete(v.done, v.ack[0], Failed)))
      ensures ackQueue == old(ackQueue)[1..]
    {
      ghost var v := Value();
      var msg := ackQueue[0];
      AckHeadIsApart(txQueue, ackQueue);
      ackQueue := ackQueue[1..];
      assert Values(ackQueue) == v.ack[1..];
      CompleteTx(msg, Failed);
    }

    method SendExplicitAck() returns (ok: bool)
      modifies cp, this`ackTimer
      ensures ok == cp.outcome(old(cp.attempts))
      ensures Value() == if ok then AckWritten(old(Value())) else old(Value()).(ackTimer := false)
    {
      ackTimer := false;
      ok := cp.Write(OfAck(Packet(slowStart.ns, slowStart.nr, AckBody)));
    }

    // ---------- Receiving ----------

    method RecvFrame(frame: seq<Packet>) returns (accepted: bool)
      ensures accepted <==> FrameAccepted(slowStart.ns, frame)
    {
      var ns := slowStart.ns;
      for i := 0 to |frame|
        invariant forall j | 0 <= j < i :: SeqCompare(frame[j].nr, SeqIncrement(ns)) <= 0
      {
        if SeqCompare(frame[i].nr, SeqIncrement(ns)) > 0 {
          return false;
        }
      }
      return true;
    }

    // What a frame adds to the receive queue, and the nr values it has for the sender.
    method ReceiveFrame(frame: seq<Packet>) returns (rxNr: seq<NrInd>)
      modifies this`rxQueue
      ensures rxQueue == if FrameAccepted(slowStart.ns, frame) then old(rxQueue) + frame else old(rxQueue)
      ensures rxNr == if FrameAccepted(slowStart.ns, frame) then NrInds(frame) else []
    {
      rxNr := [];
      var accepted := RecvFrame(frame);
      var messages := if accepted then frame else [];
      for i := 0 to |messages|
        invariant rxQueue == old(rxQueue) + messages[..i] && rxNr == NrInds(messages[..i])
      {
        rxQueue := rxQueue + [messages[i]];
        rxNr := rxNr + [NrInd(messages[i].body.AckBody?, messages[i].nr)];
        assert messages[..i + 1] == messages[..i] + [messages[i]];
      }
      assert messages[..|messages|] == messages;
    }

    // The loop reads index 0 in every turn, so it finds the head of the queue or nothing.
    method DequeueRxMessage() returns (found: bool, m: Packet)
      modifies this`rxQueue
      ensures found <==> old(rxQueue) != [] && RxVerdict(slowStart.nr, old(rxQueue)[0]) != Ahead
      ensures found ==> m == old(rxQueue)[0] && rxQueue == old(rxQueue)[1..]
      ensures !found ==> rxQueue == old(rxQueue)
    {
      m := Packet(0, 0, AckBody);
      var i := 0;
      while i < |rxQueue|
        invariant 0 <= i <= |rxQueue| && rxQueue == old(rxQueue)
        invariant i > 0 ==> RxVerdict(slowStart.nr, rxQueue[0]) == Ahead
      {
        m := rxQueue[0];
        if SeqCompare(slowStart.nr, m.ns) == 0 || SeqCompare(m.ns, slowStart.nr) == -1 {
          rxQueue := rxQueue[..i] + rxQueue[i + 1..];
          return true, m;
        }
        i := i + 1;
      }
      return false, m;
    }

    method ProcessRxQueue()
      modifies this`rxQueue, this`recvChan, slowStart
      ensures RxValue() == DrainRx(old(RxValue()))
      ensures slowStart.Value() == old(slowStart.Value()).(nr := slowStart.nr)
    {
      while true
        invariant DrainRx(RxValue()) == DrainRx(old(RxValue()))
        invariant slowStart.Value() == old(slowStart.Value()).(nr := slowStart.nr)
        decreases |rxQueue|
      {
        var found, m := DequeueRxMessage();
        if !found {
          return;
        }
        if m.body.Control? {
          if SeqCompare(slowStart.nr, m.ns) == 0 {
            slowStart.BumpNr();
            recvChan := recvChan + [m];
          }
        }
      }
    }

    // ---------- Cases of the sender's loop ----------

    method Enqueue(m: XmitMsg)
      requires Valid() && m !in txQueue && m !in ackQueue
      modifies this`txQueue
      ensures Valid() && txQueue == old(txQueue) + [m]
      ensures Value() == (var v := old(Value()); v.(tx := v.tx + [m.Value()]))
    {
      ghost var v := Value();
      AppendIsApart(txQueue, ackQueue, m);
      txQueue := txQueue + [m];
      assert Values(txQueue) == v.tx + [m.Value()];
    }

    // A message arrives on sendChan.
    method HandleSend(m: XmitMsg) returns (ok: bool)
      requires Valid() && m !in txQueue && m !in ackQueue
      modifies this, cp, slowStart, m, txQueue, ackQueue
      ensures Valid()
      ensures var v := old(Value());
              var p := Pump(v.(tx := v.tx + [old(m.Value())]), cp.outcome, old(cp.attempts));
              ok == p.ok && Value() == if ok then p.s else Down(p.s)
    {
      Enqueue(m);
      assert forall x | x in txQueue :: x in old(txQueue) || x == m;
      ok := ProcessTxQueue();
      if !ok {
        assert forall i | 0 <= i < |txQueue| :: txQueue[i] in txQueue;
        assert forall i | 0 <= i < |ackQueue| :: ackQueue[i] in ackQueue;
        GoDown();
      }
    }

    // One nr value: the acknowledgement queue, then perhaps the transmit queue.
    method HandleOneNr(nr: U16) returns (ok: bool)
      requires Valid()
      modifies this, cp, slowStart, txQueue, ackQueue
      ensures Valid()
      ensures Pumped(Value(), cp.attempts, ok) == HandleNr(cfg, old(Value()), nr, cp.outcome, old(cp.attempts))
      ensures forall m | m in txQueue :: m in old(txQueue)
      ensures forall m | m in ackQueue :: m in old(ackQueue) || m in old(txQueue)
    {
      ok := true;
      var found := ProcessAckQueue(nr);
      if found {
        ok := ProcessTxQueue();
      }
    }

    // The nr values of a frame arrive on nrChan.
    method HandleNrInds(rxNr: seq<NrInd>) returns (ok: bool)
      requires Valid()
      modifies this, cp, slowStart, txQueue, ackQueue
      ensures Valid()
      ensures var p := HandleNrs(cfg, old(Value()), Nrs(rxNr), cp.outcome, old(cp.attempts));
              ok == p.ok && Value() == if ok then p.s.(ackTimer := p.s.ackTimer || AnyMessage(rxNr)) else Down(p.s)
    {
      ghost var nrs := Nrs(rxNr);
      for i := 0 to |rxNr|
        invariant Valid()
        invariant forall m | m in txQueue :: m in old(txQueue)
        invariant forall m | m in ackQueue :: m in old(ackQueue) || m in old(txQueue)
        invariant HandleNrs(cfg, Value(), nrs[i..], cp.outcome, cp.attempts)
               == HandleNrs(cfg, old(Value()), nrs, cp.outcome, old(cp.attempts))
      {
        assert nrs[i..][0] == rxNr[i].nr && nrs[i..][1..] == nrs[i + 1..];
        assert forall j | 0 <= j < |txQueue| :: txQueue[j] in txQueue;
        assert forall j | 0 <= j < |ackQueue| :: ackQueue[j] in ackQueue;
        ok := HandleOneNr(rxNr[i].nr);
        if !ok {
          assert forall j | 0 <= j < |txQueue| :: txQueue[j] in txQueue;
          assert forall j | 0 <= j < |ackQueue| :: ackQueue[j] in ackQueue;
          GoDown();
          return;
        }
      }
      KickAckTimer(rxNr);
      return true;
    }

    method KickAckTimer(rxNr: seq<NrInd>)
      modifies this`ackTimer
      ensures ackTimer == (old(ackTimer) || AnyMessage(rxNr))
    {
      for i := 0 to |rxNr|
        invariant ackTimer == old(ackTimer) && forall j | 0 <= j < i :: rxNr[j].isAck
      {
        if !rxNr[i].isAck {
          ackTimer := true;
          return;
        }
      }
    }
  }
}
