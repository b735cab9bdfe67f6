/** Every step of an endpoint keeps its invariant, whatever the peer sends. */
module EndpointProofs {
  import opened Bytes
  import opened SeqNum
  import opened SlowStart
  import opened TransportSpec
  import opened Endpoint

  // ---------- Completion counts ----------

  function Pending(q: seq<Xmit>, id: nat): nat
    decreases |q|
  {
    if q == [] then 0
    else (if !q[0].isComplete && q[0].id == id then 1 else 0) + Pending(q[1..], id)
  }

  lemma CallsAppend(done: seq<Done>, d: Done, id: nat)
    ensures Calls(done + [d], id) == Calls(done, id) + (if d.id == id then 1 else 0)
  {
  }

  lemma {:induction false} FlushCalls(done: seq<Done>, q: seq<Xmit>, id: nat)
    ensures Calls(Flush(done, q), id) == Calls(done, id) + Pending(q, id)
    decreases |q|
  {
    if q != [] {
      CallsAppend(done, Done(q[0].id, Failed), id);
      FlushCalls(TxComplete(done, q[0], Failed), q[1..], id);
    }
  }

  lemma {:induction false} FlushShape(done: seq<Done>, q: seq<Xmit>)
    ensures done <= Flush(done, q)
    ensures forall i | |done| <= i < |Flush(done, q)| :: Flush(done, q)[i].outcome == Failed
    decreases |q|
  {
    if q != [] {
      FlushShape(TxComplete(done, q[0], Failed), q[1..]);
    }
  }

  predicate Consecutive(q: seq<Xmit>, base: nat)
  {
    forall i | 0 <= i < |q| :: q[i].id == base + i && !q[i].isComplete
  }

  lemma {:induction false} PendingConsecutive(q: seq<Xmit>, base: nat, id: nat)
    requires Consecutive(q, base)
    ensures Pending(q, id) == if base <= id < base + |q| then 1 else 0
    decreases |q|
  {
    if q != [] {
      PendingConsecutive(q[1..], base + 1, id);
    }
  }

  lemma {:induction false} PendingHole(q: seq<Xmit>, i: nat, m: Xmit, id: nat)
    requires i < |q| && !q[i].isComplete && m.isComplete
    ensures Pending(q[i := m], id) + (if q[i].id == id then 1 else 0) == Pending(q, id)
    decreases |q|
  {
    if i == 0 {
      assert q[i := m][1..] == q[1..];
    } else {
      assert q[i := m][1..] == q[1..][i - 1 := m];
      PendingHole(q[1..], i - 1, m, id);
    }
  }

  lemma {:induction false} CallsInOrder(done: seq<Done>, id: nat)
    requires forall i | 0 <= i < |done| :: done[i].id == i
    ensures Calls(done, id) == if id < |done| then 1 else 0
    decreases |done|
  {
    if done != [] {
      CallsInOrder(done[..|done| - 1], id);
    }
  }

  // Shutting down completes every message still queued, once.
  lemma DownCompletes(e: Ep)
    requires e.acked <= e.sent <= |e.subs|
    requires e.acked <= |e.snd.done|
    requires forall i | 0 <= i < e.acked :: e.snd.done[i] == Done(i, Acked)
    requires forall i | e.acked <= i < |e.snd.done| :: e.snd.done[i].outcome == Failed
    requires forall id: nat | id < |e.subs| ::
               Calls(e.snd.done, id) + Pending(e.snd.tx, id) + Pending(e.snd.ack, id) == 1
    ensures ShutInv(Shut(e))
  {
    var s := e.snd;
    FlushShape(s.done, s.tx);
    FlushShape(Flush(s.done, s.tx), s.ack);
    forall id: nat | id < |e.subs|
      ensures Calls(Down(s).done, id) == 1
    {
      assert Calls(s.done, id) + Pending(s.tx, id) + Pending(s.ack, id) == 1;
      FlushCalls(s.done, s.tx, id);
      FlushCalls(Flush(s.done, s.tx), s.ack, id);
    }
  }

  // Conservation: a submitted message is in exactly one of the queues, on its way between them, or complete.
  lemma Conservation(cfg: Config, e: Ep, id: nat)
    requires EpInv(cfg, e) && e.open && id < |e.subs|
    ensures Calls(e.snd.done, id) + Pending(e.snd.tx, id) + Pending(e.snd.ack, id)
            + (if e.spc.Written? && e.spc.m.id == id then 1 else 0) == 1
  {
    CallsInOrder(e.snd.done, id);
    PendingConsecutive(e.snd.ack, e.acked, id);
    PendingConsecutive(e.snd.tx, OnWire(e), id);
  }

  // ---------- Acknowledgement processing ----------

  /**
   processAckQueue takes a prefix of the queue, completes exactly its messages
   and stops at the first message the nr does not cover.
   */
  lemma {:induction false} AckPrefixShape(cfg: Config, s: Sender, nr: U16)
    returns (k: nat)
    requires WindowInv(s.win, cfg.txWindow) && s.win.ntx == |s.ack|
    requires forall i | 0 <= i < |s.ack| :: !s.ack[i].isComplete
    ensures k <= |s.ack|
    ensures var s' := AckPrefix(cfg, s, nr);
            && s'.ack == s.ack[k..] && s'.tx == s.tx && s'.wire == s.wire && s'.ackTimer == s.ackTimer
            && WindowInv(s'.win, cfg.txWindow) && s'.win.ntx == |s'.ack|
            && s'.win.ns == s.win.ns && s'.win.nr == s.win.nr
            && |s'.done| == |s.done| + k
            && s.done <= s'.done
            && (forall i | 0 <= i < k :: s'.done[|s.done| + i] == Done(s.ack[i].id, Acked))
    ensures forall i | 0 <= i < k :: Acks(nr, s.ack[i])
    ensures k < |s.ack| ==> !Acks(nr, s.ack[k])
    decreases |s.ack|
  {
    if s.ack == [] || !Acks(nr, s.ack[0]) {
      k := 0;
    } else {
      var t := AckHead(cfg, s);
      WindowInvKept(s.win, cfg.txWindow);
      var k' := AckPrefixShape(cfg, t, nr);
      k := k' + 1;
      assert t.ack[k'..] == s.ack[k..];
      var s' := AckPrefix(cfg, t, nr);
      forall i | 0 <= i < k
        ensures s'.done[|s.done| + i] == Done(s.ack[i].id, Acked) && Acks(nr, s.ack[i])
      {
        if i > 0 {
          assert t.ack[i - 1] == s.ack[i];
          assert s'.done[|t.done| + (i - 1)] == Done(t.ack[i - 1].id, Acked);
        } else {
          assert s'.done[..|t.done|][|s.done|] == t.done[|s.done|];
        }
      }
    }
  }

  // ---------- Steps ----------

  lemma StartInv(cfg: Config)
    requires ConfigOk(cfg)
    ensures EpInv(cfg, Start(cfg))
  {
  }

  lemma SubmitInv(cfg: Config, e: Ep, octets: seq<Octet>)
    requires EpInv(cfg, e) && Enabled(cfg, e, Submit(octets))
    ensures EpInv(cfg, Do(cfg, e, Submit(octets)))
  {
  }

  lemma WriteInv(cfg: Config, e: Ep)
    requires EpInv(cfg, e) && Enabled(cfg, e, WriteNext(true))
    ensures EpInv(cfg, Do(cfg, e, WriteNext(true)))
  {
  }

  lemma WriteFailInv(cfg: Config, e: Ep)
    requires EpInv(cfg, e) && Enabled(cfg, e, WriteNext(false))
    ensures EpInv(cfg, Do(cfg, e, WriteNext(false)))
  {
    assert QueuedOk(e, e.snd.tx[0], OnWire(e) + 0);
    var f := e.(snd := PumpFailed(e.snd));
    forall id: nat | id < |f.subs|
      ensures Calls(f.snd.done, id) + Pending(f.snd.tx, id) + Pending(f.snd.ack, id) == 1
    {
      Conservation(cfg, e, id);
      CallsAppend(e.snd.done, Done(e.snd.tx[0].id, Failed), id);
    }
    DownCompletes(f);
  }

  lemma CommitInv(cfg: Config, e: Ep)
    requires EpInv(cfg, e) && Enabled(cfg, e, CommitNext)
    ensures EpInv(cfg, Do(cfg, e, CommitNext))
  {
  }

  lemma AckNextCompletes(cfg: Config, e: Ep, k: nat)
    requires EpInv(cfg, e) && Enabled(cfg, e, AckNext) && k <= |e.snd.ack|
    requires var done := AckPrefix(cfg, e.snd, e.spc.nrs[0].nr).done;
             && |done| == |e.snd.done| + k
             && e.snd.done <= done
             && (forall i | 0 <= i < k :: done[|e.snd.done| + i] == Done(e.snd.ack[i].id, Acked))
    ensures var done := AckPrefix(cfg, e.snd, e.spc.nrs[0].nr).done;
            forall i | 0 <= i < |done| :: done[i] == Done(i, Acked)
  {
    var done := AckPrefix(cfg, e.snd, e.spc.nrs[0].nr).done;
    forall i | 0 <= i < |done|
      ensures done[i] == Done(i, Acked)
    {
      if i < |e.snd.done| {
        assert done[..|e.snd.done|][i] == e.snd.done[i];
      } else {
        var j := i - |e.snd.done|;
        assert done[|e.snd.done| + j] == Done(e.snd.ack[j].id, Acked);
        assert WaitingOk(cfg, e, e.snd.ack[j], e.acked + j);
      }
    }
  }

  // The queue from its k-th message on.
  lemma WaitingDropped(cfg: Config, e: Ep, e': Ep, k: nat)
    requires e.open && QueuesInv(cfg, e) && k <= |e.snd.ack|
    requires e'.subs == e.subs && e'.snd.ack == e.snd.ack[k..] && e'.acked == e.acked + k
    ensures forall i | 0 <= i < |e'.snd.ack| :: WaitingOk(cfg, e', e'.snd.ack[i], e'.acked + i)
  {
    forall i | 0 <= i < |e'.snd.ack|
      ensures WaitingOk(cfg, e', e'.snd.ack[i], e'.acked + i)
    {
      assert WaitingOk(cfg, e, e.snd.ack[k + i], e.acked + (k + i));
    }
  }

  lemma QueuesDropped(cfg: Config, e: Ep, e': Ep, k: nat)
    requires e.open && QueuesInv(cfg, e) && !e.spc.Written? && k <= |e.snd.ack|
    requires e'.subs == e.subs && e'.sent == e.sent && e'.acked == e.acked + k && !e'.spc.Written?
    requires e'.snd.ack == e.snd.ack[k..] && e'.snd.tx == e.snd.tx && e'.snd.win.ntx == |e'.snd.ack|
    ensures QueuesInv(cfg, e')
  {
    WaitingDropped(cfg, e, e', k);
    QueueKept(e, e');
  }

  lemma AckNextQueues(cfg: Config, e: Ep, k: nat)
    requires EpInv(cfg, e) && Enabled(cfg, e, AckNext) && k <= |e.snd.ack|
    requires var s := AckPrefix(cfg, e.snd, e.spc.nrs[0].nr);
             s.ack == e.snd.ack[k..] && s.tx == e.snd.tx && s.win.ntx == |s.ack|
    ensures QueuesInv(cfg, Do(cfg, e, AckNext))
  {
    QueuesDropped(cfg, e, Do(cfg, e, AckNext), k);
  }

  // A straggler is one of the messages, completed.
  lemma {:induction false} StragglersAre(q: seq<Xmit>, bound: nat)
    requires forall i | 0 <= i < |q| :: q[i].id < bound
    ensures forall j | 0 <= j < |Stragglers(q)| ::
              Stragglers(q)[j].isComplete && Stragglers(q)[j].id < bound && Stragglers(q)[j].timer.Fired?
    decreases |q|
  {
    if q != [] {
      StragglersAre(q[1..], bound);
    }
  }

  lemma AckNextLate(cfg: Config, e: Ep, k: nat)
    requires EpInv(cfg, e) && Enabled(cfg, e, AckNext) && k <= |e.snd.ack|
    requires AckPrefix(cfg, e.snd, e.spc.nrs[0].nr).ack == e.snd.ack[k..]
    ensures LateInv(Do(cfg, e, AckNext))
  {
    forall i | 0 <= i < k
      ensures e.snd.ack[..k][i].id < e.acked + k
    {
      assert WaitingOk(cfg, e, e.snd.ack[i], e.acked + i);
    }
    StragglersAre(e.snd.ack[..k], e.acked + k);
  }

  lemma AckNextInv(cfg: Config, e: Ep)
    requires EpInv(cfg, e) && Enabled(cfg, e, AckNext)
    ensures EpInv(cfg, Do(cfg, e, AckNext))
  {
    var e' := Do(cfg, e, AckNext);
    var k := AckPrefixShape(cfg, e.snd, e.spc.nrs[0].nr);
    assert AckedInOrder(e') by {
      AckNextCompletes(cfg, e, k);
    }
    assert NoStall(e') by {
      if k == 0 {
        assert e'.snd == e.snd;
      }
    }
    AckNextQueues(cfg, e, k);
    AckNextLate(cfg, e, k);
  }

  // Replacing one waiting message by another version of itself.
  lemma WaitingReplaced(cfg: Config, e: Ep, i: nat, e': Ep)
    requires EpInv(cfg, e) && e.open && i < |e.snd.ack|
    requires e'.subs == e.subs && e'.acked == e.acked && |e'.snd.ack| == |e.snd.ack|
    requires WaitingOk(cfg, e', e'.snd.ack[i], e.acked + i)
    requires e'.snd.ack == e.snd.ack[i := e'.snd.ack[i]]
    ensures forall j | 0 <= j < |e'.snd.ack| :: WaitingOk(cfg, e', e'.snd.ack[j], e'.acked + j)
  {
  }

  lemma QueueKept(e: Ep, e': Ep)
    requires e'.subs == e.subs && e'.snd.tx == e.snd.tx && OnWire(e') == OnWire(e)
    requires forall i | 0 <= i < |e.snd.tx| :: QueuedOk(e, e.snd.tx[i], OnWire(e) + i)
    ensures forall i | 0 <= i < |e'.snd.tx| :: QueuedOk(e', e'.snd.tx[i], OnWire(e') + i)
  {
  }

  lemma TimerQueues(cfg: Config, e: Ep, i: nat)
    requires EpInv(cfg, e) && Enabled(cfg, e, TimerFires(i))
    ensures QueuesInv(cfg, Do(cfg, e, TimerFires(i)))
  {
    var e' := Do(cfg, e, TimerFires(i));
    assert WaitingOk(cfg, e, e.snd.ack[i], e.acked + i);
    WaitingReplaced(cfg, e, i, e');
    QueueKept(e, e');
  }

  lemma TimerInv(cfg: Config, e: Ep, i: nat)
    requires EpInv(cfg, e) && Enabled(cfg, e, TimerFires(i))
    ensures EpInv(cfg, Do(cfg, e, TimerFires(i)))
  {
    var e' := Do(cfg, e, TimerFires(i));
    TimerQueues(cfg, e, i);
    assert e'.snd.done == e.snd.done && e'.late == e.late;
  }

  // A request is for a message that waits, or comes too late: the flag tells the two apart.
  lemma RequestIs(cfg: Config, e: Ep, r: nat)
    requires EpInv(cfg, e) && e.open && r < |Requests(e)|
    ensures Requests(e)[r].isComplete <==> r >= |e.snd.ack|
    ensures r < |e.snd.ack| ==> Requests(e)[r] == e.snd.ack[r] && WaitingOk(cfg, e, e.snd.ack[r], e.acked + r)
    ensures r >= |e.snd.ack| ==> Requests(e)[r] == e.late[r - |e.snd.ack|]
  {
    if r < |e.snd.ack| {
      assert WaitingOk(cfg, e, e.snd.ack[r], e.acked + r);
    }
  }

  // A waiting message's request is handled as the transport object handles it.
  lemma RequestOfWaiting(cfg: Config, e: Ep, r: nat, ok: bool)
    requires EpInv(cfg, e) && e.open && r < |e.snd.ack|
    ensures var e' := TakeRequest(cfg, e, r, ok);
            if Exhausted(cfg, e.snd.ack[r]) || !ok then e' == Shut(e.(snd := RetryFailed(e.snd, r)))
            else e' == e.(snd := Retransmitted(e.snd, r), told := e.recvd,
                          armed := e.armed + [Arming(e.snd.ack[r].id, e.snd.ack[r].nretries + 1)])
  {
    RequestIs(cfg, e, r);
  }

  // A late request changes nothing but the list of requests.
  lemma LateRetryInv(cfg: Config, e: Ep, r: nat, ok: bool)
    requires EpInv(cfg, e) && Enabled(cfg, e, Retry(r, ok)) && r >= |e.snd.ack|
    ensures Do(cfg, e, Retry(r, ok)) == e.(late := Do(cfg, e, Retry(r, ok)).late)
    ensures |Do(cfg, e, Retry(r, ok)).late| < |e.late|
    ensures EpInv(cfg, Do(cfg, e, Retry(r, ok)))
  {
    RequestIs(cfg, e, r);
    QueuesKept(cfg, e, Do(cfg, e, Retry(r, ok)));
  }

  lemma RetryInv(cfg: Config, e: Ep, i: nat)
    requires EpInv(cfg, e) && Enabled(cfg, e, Retry(i, true)) && i < |e.snd.ack| && !Exhausted(cfg, e.snd.ack[i])
    ensures EpInv(cfg, Do(cfg, e, Retry(i, true)))
  {
    var e' := Do(cfg, e, Retry(i, true));
    RequestOfWaiting(cfg, e, i, true);
    assert QueuesInv(cfg, e') by {
      assert WaitingOk(cfg, e, e.snd.ack[i], e.acked + i);
      WaitingReplaced(cfg, e, i, e');
      QueueKept(e, e');
    }
    WindowInvKept(e.snd.win, cfg.txWindow);
  }

  lemma RetryFailInv(cfg: Config, e: Ep, i: nat, ok: bool)
    requires EpInv(cfg, e) && Enabled(cfg, e, Retry(i, ok)) && i < |e.snd.ack|
    requires Exhausted(cfg, e.snd.ack[i]) || !ok
    ensures EpInv(cfg, Do(cfg, e, Retry(i, ok)))
  {
    RequestOfWaiting(cfg, e, i, ok);
    var f := e.(snd := RetryFailed(e.snd, i));
    forall id: nat | id < |f.subs|
      ensures Calls(f.snd.done, id) + Pending(f.snd.tx, id) + Pending(f.snd.ack, id) == 1
    {
      Conservation(cfg, e, id);
      assert WaitingOk(cfg, e, e.snd.ack[i], e.acked + i);
      CallsAppend(e.snd.done, Done(e.snd.ack[i].id, Failed), id);
      PendingHole(e.snd.ack, i, f.snd.ack[i], id);
    }
    assert WaitingOk(cfg, e, e.snd.ack[i], e.acked + i);
    DownCompletes(f);
  }

  lemma ShutKeeps(cfg: Config, e: Ep)
    requires EpInv(cfg, e) && e.open && e.spc.Idle?
    ensures EpInv(cfg, Shut(e))
  {
    forall id: nat | id < |e.subs|
      ensures Calls(e.snd.done, id) + Pending(e.snd.tx, id) + Pending(e.snd.ack, id) == 1
    {
      Conservation(cfg, e, id);
    }
    DownCompletes(e);
  }

  lemma WaitingKept(cfg: Config, e: Ep, e': Ep)
    requires e'.subs == e.subs && e'.snd.ack == e.snd.ack && e'.acked == e.acked
    requires forall i | 0 <= i < |e.snd.ack| :: WaitingOk(cfg, e, e.snd.ack[i], e.acked + i)
    ensures forall i | 0 <= i < |e'.snd.ack| :: WaitingOk(cfg, e', e'.snd.ack[i], e'.acked + i)
  {
  }

  lemma QueuesKept(cfg: Config, e: Ep, e': Ep)
    requires QueuesInv(cfg, e) && e'.subs == e.subs && e'.acked == e.acked && e'.sent == e.sent
    requires e'.snd.tx == e.snd.tx && e'.snd.ack == e.snd.ack
    requires e'.snd.win.ntx == e.snd.win.ntx && e'.snd.win.cwnd == e.snd.win.cwnd
    requires if e.spc.Written? then e'.spc.Written? && e'.spc.m == e.spc.m else !e'.spc.Written?
    ensures QueuesInv(cfg, e')
  {
    QueueKept(e, e');
    WaitingKept(cfg, e, e');
  }

  // Steps that leave the sender's queues alone.
  lemma QuietInv(cfg: Config, e: Ep, a: Act)
    requires EpInv(cfg, e) && Enabled(cfg, e, a)
    requires a.PumpStops? || a.AckEnds? || a.Receive? || a.Hand? || a.Deliver? || a == AckTimerFires(true)
    ensures EpInv(cfg, Do(cfg, e, a))
  {
    var e' := Do(cfg, e, a);
    assert e'.snd.win == e.snd.win;
    QueuesKept(cfg, e, e');
  }

  lemma DrainInv(cfg: Config, e: Ep)
    requires EpInv(cfg, e) && Enabled(cfg, e, Drain)
    ensures EpInv(cfg, Do(cfg, e, Drain))
  {
    WrapNext(e.recvd);
    QueuesKept(cfg, e, Do(cfg, e, Drain));
  }

  lemma StepInv(cfg: Config, e: Ep, a: Act)
    requires EpInv(cfg, e) && Enabled(cfg, e, a)
    ensures EpInv(cfg, Do(cfg, e, a))
  {
    match a
    case Submit(octets) => SubmitInv(cfg, e, octets);
    case WriteNext(ok) =>
      if ok { WriteInv(cfg, e); } else { WriteFailInv(cfg, e); }
    case CommitNext => CommitInv(cfg, e);
    case AckNext => AckNextInv(cfg, e);
    case TimerFires(i) => TimerInv(cfg, e, i);
    case Retry(r, ok) =>
      if r >= |e.snd.ack| { LateRetryInv(cfg, e, r, ok); }
      else if Exhausted(cfg, e.snd.ack[r]) || !ok { RetryFailInv(cfg, e, r, ok); }
      else { RetryInv(cfg, e, r); }
    case Drain => DrainInv(cfg, e);
    case ReceiveFails => ShutKeeps(cfg, e);
    case Close => ShutKeeps(cfg, e);
    case AckTimerFires(ok) =>
      if ok { QuietInv(cfg, e, a); } else { ShutKeeps(cfg, e); }
    case _ => QuietInv(cfg, e, a);
  }

  /** The invariant of every reachable state, against any peer and any failures of the socket. */
  lemma {:induction false} RunInv(cfg: Config, e: Ep, trace: seq<Act>)
    requires EpInv(cfg, e) && LegalFrom(cfg, e, trace)
    ensures EpInv(cfg, RunFrom(cfg, e, trace))
    decreases |trace|
  {
    if trace != [] {
      StepInv(cfg, e, trace[0]);
      RunInv(cfg, Do(cfg, e, trace[0]), trace[1..]);
    }
  }

  // ---------- What the user gets ----------

  lemma DeliveryKept(e: Ep, e': Ep)
    requires DeliveryInv(e) && e'.accepted == e.accepted && e'.delivered == e.delivered
    requires if e'.open then e.open && (if e.rpc.Delivering? then e'.rpc == e.rpc else !e'.rpc.Delivering?)
             else !e'.rpc.Delivering?
    ensures DeliveryInv(e')
  {
    forall k | 0 <= k < |e'.delivered|
      ensures DeliveredOk(e', e'.delivered[k], k)
    {
      assert DeliveredOk(e, e.delivered[k], k);
    }
  }

  // Only two steps change what is accepted or delivered.
  lemma DeliveryUntouched(cfg: Config, e: Ep, a: Act)
    requires EpInv(cfg, e) && Enabled(cfg, e, a) && !a.Drain? && !a.Deliver?
    ensures var e' := Do(cfg, e, a);
            && e'.accepted == e.accepted && e'.delivered == e.delivered
            && (if e'.open then e.rpc.Delivering? ==> e'.rpc == e.rpc else e'.rpc.Ready?)
            && (e'.open && !e.rpc.Delivering? ==> !e'.rpc.Delivering?)
  {
    if a.Retry? {
      RequestIs(cfg, e, a.r);
    }
  }

  lemma StepDelivery(cfg: Config, e: Ep, a: Act)
    requires EpInv(cfg, e) && DeliveryInv(e) && Enabled(cfg, e, a)
    ensures DeliveryInv(Do(cfg, e, a))
  {
    var e' := Do(cfg, e, a);
    if a.Drain? || a.Deliver? {
      forall k | 0 <= k < |e'.delivered|
        ensures DeliveredOk(e', e'.delivered[k], k)
      {
        if k < |e.delivered| {
          assert DeliveredOk(e, e.delivered[k], k);
        }
      }
    } else {
      DeliveryUntouched(cfg, e, a);
      DeliveryKept(e, e');
    }
  }
}
