/** Retransmission: how often, under which numbers and until when a message is written to the socket. */
module RetryProofs {
  import opened SeqNum
  import opened SlowStart
  import opened TransportSpec
  import opened Endpoint
  import opened EndpointProofs

  // How often a message has been written to the socket.
  function Writes(wire: seq<Wire>, id: nat): nat
    decreases |wire|
  {
    if wire == [] then 0
    else
      var w := wire[|wire| - 1];
      Writes(wire[..|wire| - 1], id) + (if w.OfMsg? && w.id == id then 1 else 0)
  }

  lemma WritesAppend(wire: seq<Wire>, w: Wire, id: nat)
    ensures Writes(wire + [w], id) == Writes(wire, id) + (if w.OfMsg? && w.id == id then 1 else 0)
  {
  }

  // Every write of a message carries the ns of its position and its own contents.
  predicate WireContents(e: Ep)
  {
    forall k | 0 <= k < |e.snd.wire| && e.snd.wire[k].OfMsg? ::
      && e.snd.wire[k].id < |e.subs|
      && e.snd.wire[k].pkt.ns == Wrap(e.snd.wire[k].id)
      && e.snd.wire[k].pkt.body == e.subs[e.snd.wire[k].id]
  }

  ghost predicate WireCounts(cfg: Config, e: Ep)
  {
    && (forall id: nat :: Writes(e.snd.wire, id) <= cfg.maxRetries)
    && (forall id: nat | id >= OnWire(e) :: Writes(e.snd.wire, id) == 0)
    && (forall i | 0 <= i < |e.snd.ack| :: Writes(e.snd.wire, e.snd.ack[i].id) == e.snd.ack[i].nretries + 1)
    && (e.spc.Written? ==> Writes(e.snd.wire, e.sent) == 1)
  }

  ghost predicate WireInv(cfg: Config, e: Ep) { WireContents(e) && WireCounts(cfg, e) }

  lemma WriteWires(cfg: Config, e: Ep)
    requires EpInv(cfg, e) && WireInv(cfg, e) && Enabled(cfg, e, WriteNext(true))
    ensures WireInv(cfg, Do(cfg, e, WriteNext(true)))
  {
    var e' := Do(cfg, e, WriteNext(true));
    assert QueuedOk(e, e.snd.tx[0], OnWire(e) + 0);
    var w := e'.snd.wire[|e.snd.wire|];
    forall id: nat
      ensures Writes(e'.snd.wire, id) == Writes(e.snd.wire, id) + (if id == e.sent then 1 else 0)
    {
      WritesAppend(e.snd.wire, w, id);
    }
    forall i | 0 <= i < |e'.snd.ack|
      ensures Writes(e'.snd.wire, e'.snd.ack[i].id) == e'.snd.ack[i].nretries + 1
    {
      assert WaitingOk(cfg, e, e.snd.ack[i], e.acked + i);
    }
  }

  lemma RetryWires(cfg: Config, e: Ep, i: nat)
    requires EpInv(cfg, e) && WireInv(cfg, e)
    requires Enabled(cfg, e, Retry(i, true)) && i < |e.snd.ack| && !Exhausted(cfg, e.snd.ack[i])
    ensures WireInv(cfg, Do(cfg, e, Retry(i, true)))
  {
    var e' := Do(cfg, e, Retry(i, true));
    RequestOfWaiting(cfg, e, i, true);
    assert WaitingOk(cfg, e, e.snd.ack[i], e.acked + i);
    var w := e'.snd.wire[|e.snd.wire|];
    forall id: nat
      ensures Writes(e'.snd.wire, id) == Writes(e.snd.wire, id) + (if id == e.acked + i then 1 else 0)
    {
      WritesAppend(e.snd.wire, w, id);
    }
    forall j | 0 <= j < |e'.snd.ack|
      ensures Writes(e'.snd.wire, e'.snd.ack[j].id) == e'.snd.ack[j].nretries + 1
    {
      assert WaitingOk(cfg, e, e.snd.ack[j], e.acked + j);
    }
  }

  lemma CommitWires(cfg: Config, e: Ep)
    requires EpInv(cfg, e) && WireInv(cfg, e) && Enabled(cfg, e, CommitNext)
    ensures WireInv(cfg, Do(cfg, e, CommitNext))
  {
  }

  lemma AckWires(cfg: Config, e: Ep)
    requires EpInv(cfg, e) && WireInv(cfg, e) && Enabled(cfg, e, AckNext)
    ensures WireInv(cfg, Do(cfg, e, AckNext))
  {
    var k := AckPrefixShape(cfg, e.snd, e.spc.nrs[0].nr);
  }

  lemma ExplicitAckWires(cfg: Config, e: Ep)
    requires WireInv(cfg, e) && Enabled(cfg, e, AckTimerFires(true))
    ensures WireInv(cfg, Do(cfg, e, AckTimerFires(true)))
  {
    var e' := Do(cfg, e, AckTimerFires(true));
    forall id: nat
      ensures Writes(e'.snd.wire, id) == Writes(e.snd.wire, id)
    {
      WritesAppend(e.snd.wire, e'.snd.wire[|e.snd.wire|], id);
    }
  }

  // Steps that neither write nor change which messages wait.
  lemma OtherWires(cfg: Config, e: Ep, a: Act)
    requires EpInv(cfg, e) && WireInv(cfg, e) && Enabled(cfg, e, a)
    requires !a.CommitNext? && !a.AckNext? && Emitted(cfg, e, a) == {}
    ensures WireInv(cfg, Do(cfg, e, a))
  {
    var e' := Do(cfg, e, a);
    WireUnchanged(cfg, e, a);
    assert WireCounts(cfg, e') by {
      forall i | 0 <= i < |e'.snd.ack|
        ensures Writes(e'.snd.wire, e'.snd.ack[i].id) == e'.snd.ack[i].nretries + 1
      {
        assert Writes(e.snd.wire, e.snd.ack[i].id) == e.snd.ack[i].nretries + 1;
      }
    }
  }

  lemma WireUnchanged(cfg: Config, e: Ep, a: Act)
    requires EpInv(cfg, e) && Enabled(cfg, e, a)
    requires !a.CommitNext? && !a.AckNext? && Emitted(cfg, e, a) == {}
    ensures var e' := Do(cfg, e, a);
            && e'.snd.wire == e.snd.wire && OnWire(e') == OnWire(e) && e.subs <= e'.subs
            && (e'.spc.Written? ==> e.spc.Written? && e'.sent == e.sent)
            && |e'.snd.ack| <= |e.snd.ack|
            && (forall i | 0 <= i < |e'.snd.ack| ::
                  e'.snd.ack[i].id == e.snd.ack[i].id && e'.snd.ack[i].nretries == e.snd.ack[i].nretries)
  {
  }

  // A retry that writes: its message waits, has attempts left, and the socket takes it.
  predicate Rewrites(cfg: Config, e: Ep, a: Act)
    requires a.Retry?
  {
    a.ok && a.r < |e.snd.ack| && !Exhausted(cfg, e.snd.ack[a.r])
  }

  lemma StepWires(cfg: Config, e: Ep, a: Act)
    requires EpInv(cfg, e) && WireInv(cfg, e) && Enabled(cfg, e, a)
    ensures WireInv(cfg, Do(cfg, e, a))
  {
    if a == WriteNext(true) {
      WriteWires(cfg, e);
    } else if a.Retry? && Rewrites(cfg, e, a) {
      RetryWires(cfg, e, a.r);
    } else if a.CommitNext? {
      CommitWires(cfg, e);
    } else if a.AckNext? {
      AckWires(cfg, e);
    } else if a == AckTimerFires(true) {
      ExplicitAckWires(cfg, e);
    } else {
      if a.Retry? {
        RequestIs(cfg, e, a.r);
      }
      OtherWires(cfg, e, a);
    }
  }

  /**
   In every run each message is written at most MaxRetries times, always under
   the ns of its first write and with the same contents.
   */
  lemma {:induction false} BoundedRetry(cfg: Config, e: Ep, trace: seq<Act>)
    requires EpInv(cfg, e) && WireInv(cfg, e) && LegalFrom(cfg, e, trace)
    ensures WireInv(cfg, RunFrom(cfg, e, trace))
    decreases |trace|
  {
    if trace != [] {
      StepInv(cfg, e, trace[0]);
      StepWires(cfg, e, trace[0]);
      BoundedRetry(cfg, Do(cfg, e, trace[0]), trace[1..]);
    }
  }

  lemma StartWires(cfg: Config)
    ensures WireInv(cfg, Start(cfg))
  {
  }

  /** The bound for every run from the start, and every write under the number and with the body of its submission. */
  lemma WrittenAtMostMaxRetries(cfg: Config, trace: seq<Act>, id: nat, k: nat)
    requires ConfigOk(cfg) && LegalFrom(cfg, Start(cfg), trace)
    ensures var e := RunFrom(cfg, Start(cfg), trace);
            && Writes(e.snd.wire, id) <= cfg.maxRetries
            && (k < |e.snd.wire| && e.snd.wire[k].OfMsg? && e.snd.wire[k].id == id ==>
                  id < |e.subs| && e.snd.wire[k].pkt.ns == Wrap(id) && e.snd.wire[k].pkt.body == e.subs[id])
  {
    StartInv(cfg);
    StartWires(cfg);
    BoundedRetry(cfg, Start(cfg), trace);
  }

  // ---------- A completed message is never written again ----------

  // A step on another message, and a late request for this one, leave its counts alone.
  lemma CompletedStep(cfg: Config, e: Ep, a: Act, id: nat)
    requires EpInv(cfg, e) && Enabled(cfg, e, a)
    requires id < |e.subs| && Calls(e.snd.done, id) >= 1
    ensures Calls(Do(cfg, e, a).snd.done, id) >= 1
    ensures Writes(Do(cfg, e, a).snd.wire, id) == Writes(e.snd.wire, id)
  {
    assert id < e.acked by {
      CallsInOrder(e.snd.done, id);
    }
    CompletedStaysDone(cfg, e, a, id);
    if a == WriteNext(true) {
      assert QueuedOk(e, e.snd.tx[0], OnWire(e) + 0);
      WritesAppend(e.snd.wire, OfMsg(NextOut(e.snd).id, PacketOf(NextOut(e.snd))), id);
    } else if a.Retry? && Rewrites(cfg, e, a) {
      RequestOfWaiting(cfg, e, a.r, true);
      assert WaitingOk(cfg, e, e.snd.ack[a.r], e.acked + a.r);
      WritesAppend(e.snd.wire, OfMsg(e.snd.ack[a.r].id, PacketOf(Resent(e.snd, e.snd.ack[a.r]))), id);
    } else if !a.CommitNext? {
      WritesKept(cfg, e, a, id);
    }
  }

  lemma CompletedStaysDone(cfg: Config, e: Ep, a: Act, id: nat)
    requires EpInv(cfg, e) && Enabled(cfg, e, a)
    requires id < e.acked
    ensures Calls(Do(cfg, e, a).snd.done, id) >= 1
  {
    var e' := Do(cfg, e, a);
    StepInv(cfg, e, a);
    if e'.open {
      assert e.acked <= e'.acked;
      CallsInOrder(e'.snd.done, id);
    }
  }

  lemma {:induction false} CompletedNeverRewritten(cfg: Config, e: Ep, trace: seq<Act>, id: nat)
    requires EpInv(cfg, e) && LegalFrom(cfg, e, trace)
    requires id < |e.subs| && Calls(e.snd.done, id) >= 1
    ensures Writes(RunFrom(cfg, e, trace).snd.wire, id) == Writes(e.snd.wire, id)
    decreases |trace|
  {
    if trace != [] {
      var e' := Do(cfg, e, trace[0]);
      CompletedStep(cfg, e, trace[0], id);
      StepInv(cfg, e, trace[0]);
      assert |e.subs| <= |e'.subs|;
      CompletedNeverRewritten(cfg, e', trace[1..], id);
    }
  }

  // ---------- Retries alone cannot go on for ever ----------

  function RetriesLeft(cfg: Config, q: seq<Xmit>): nat
    requires forall i | 0 <= i < |q| :: q[i].nretries < cfg.maxRetries
    decreases |q|
  {
    if q == [] then 0 else (cfg.maxRetries - q[0].nretries) + RetriesLeft(cfg, q[1..])
  }

  lemma {:induction false} RetriesLeftReplaced(cfg: Config, q: seq<Xmit>, i: nat, m: Xmit)
    requires forall j | 0 <= j < |q| :: q[j].nretries < cfg.maxRetries
    requires i < |q| && m.nretries == q[i].nretries + 1 < cfg.maxRetries
    ensures RetriesLeft(cfg, q[i := m]) == RetriesLeft(cfg, q) - 1
    decreases |q|
  {
    if i == 0 {
      assert q[i := m][1..] == q[1..];
    } else {
      assert q[i := m][1..] == q[1..][i - 1 := m];
      RetriesLeftReplaced(cfg, q[1..], i - 1, m);
    }
  }

  // A retry takes the transport down, uses up one of the attempts left, or uses up a late request.
  lemma RetryDecreases(cfg: Config, e: Ep, r: nat, ok: bool)
    requires EpInv(cfg, e) && Enabled(cfg, e, Retry(r, ok))
    ensures forall j | 0 <= j < |e.snd.ack| :: e.snd.ack[j].nretries < cfg.maxRetries
    ensures var e' := Do(cfg, e, Retry(r, ok));
            || !e'.open
            || ((forall j | 0 <= j < |e'.snd.ack| :: e'.snd.ack[j].nretries < cfg.maxRetries)
                && RetriesLeft(cfg, e'.snd.ack) + |e'.late| < RetriesLeft(cfg, e.snd.ack) + |e.late|)
  {
    forall j | 0 <= j < |e.snd.ack|
      ensures e.snd.ack[j].nretries < cfg.maxRetries
    {
      assert WaitingOk(cfg, e, e.snd.ack[j], e.acked + j);
    }
    if r >= |e.snd.ack| {
      LateRetryInv(cfg, e, r, ok);
    } else {
      RequestOfWaiting(cfg, e, r, ok);
      if ok && !Exhausted(cfg, e.snd.ack[r]) {
        RetriesLeftReplaced(cfg, e.snd.ack, r, Resent(e.snd, e.snd.ack[r]));
      }
    }
  }

  // ---------- Backoff ----------

  function Pow2(n: nat): (p: nat)
    ensures p >= 1
  {
    if n == 0 then 1 else 2 * Pow2(n - 1)
  }

  function RetryDelay(retryTimeout: nat, nretries: nat): nat { retryTimeout * Pow2(nretries) }

  // The delays of the first n timers of a message.
  function Waited(retryTimeout: nat, n: nat): nat
  {
    if n == 0 then 0 else Waited(retryTimeout, n - 1) + RetryDelay(retryTimeout, n - 1)
  }

  lemma {:induction false} WaitedClosedForm(retryTimeout: nat, n: nat)
    ensures Waited(retryTimeout, n) == retryTimeout * (Pow2(n) - 1)
  {
    if n > 0 {
      WaitedClosedForm(retryTimeout, n - 1);
      var p: int := Pow2(n - 1);
      assert retryTimeout * (p - 1) + retryTimeout * p == retryTimeout * (2 * p - 1);
    }
  }

  // How often a message's timer has been armed in a run, and the sum of the delays.
  function Armings(armed: seq<Arming>, id: nat): nat
    decreases |armed|
  {
    if armed == [] then 0
    else Armings(armed[..|armed| - 1], id) + (if armed[|armed| - 1].id == id then 1 else 0)
  }

  function Delays(retryTimeout: nat, armed: seq<Arming>, id: nat): nat
    decreases |armed|
  {
    if armed == [] then 0
    else
      var last := armed[|armed| - 1];
      Delays(retryTimeout, armed[..|armed| - 1], id)
      + (if last.id == id then RetryDelay(retryTimeout, last.backoff) else 0)
  }

  lemma ArmAppend(retryTimeout: nat, armed: seq<Arming>, a: Arming, id: nat)
    ensures Armings(armed + [a], id) == Armings(armed, id) + (if a.id == id then 1 else 0)
    ensures Delays(retryTimeout, armed + [a], id)
         == Delays(retryTimeout, armed, id) + (if a.id == id then RetryDelay(retryTimeout, a.backoff) else 0)
  {
    assert (armed + [a])[..|armed|] == armed;
  }

  // Written and timed: every write but one still in its gap has armed a timer.
  function Timed(e: Ep, id: nat): int
  {
    Writes(e.snd.wire, id) - (if e.spc.Written? && id == e.sent then 1 else 0)
  }

  ghost predicate ArmedInv(cfg: Config, e: Ep)
  {
    forall id: nat ::
      && Armings(e.armed, id) == Timed(e, id)
      && Delays(cfg.retryTimeout, e.armed, id) == Waited(cfg.retryTimeout, Armings(e.armed, id))
  }

  // One more arming of the message that is due its next one.
  lemma ArmsNext(cfg: Config, e: Ep, e': Ep, id: nat)
    requires ArmedInv(cfg, e)
    requires e'.armed == e.armed + [Arming(id, Armings(e.armed, id))]
    requires forall j: nat :: Timed(e', j) == Timed(e, j) + (if j == id then 1 else 0)
    ensures ArmedInv(cfg, e')
  {
    forall j: nat
      ensures Armings(e'.armed, j) == Timed(e', j)
      ensures Delays(cfg.retryTimeout, e'.armed, j) == Waited(cfg.retryTimeout, Armings(e'.armed, j))
    {
      ArmAppend(cfg.retryTimeout, e.armed, Arming(id, Armings(e.armed, id)), j);
    }
  }

  lemma CommitArms(cfg: Config, e: Ep)
    requires EpInv(cfg, e) && WireInv(cfg, e) && ArmedInv(cfg, e) && Enabled(cfg, e, CommitNext)
    ensures ArmedInv(cfg, Do(cfg, e, CommitNext))
  {
    assert Armings(e.armed, e.sent) == Timed(e, e.sent) == 0;
    ArmsNext(cfg, e, Do(cfg, e, CommitNext), e.sent);
  }

  lemma RetryArms(cfg: Config, e: Ep, a: Act)
    requires EpInv(cfg, e) && WireInv(cfg, e) && ArmedInv(cfg, e)
    requires Enabled(cfg, e, a) && a.Retry? && Rewrites(cfg, e, a)
    ensures ArmedInv(cfg, Do(cfg, e, a))
  {
    var m, e' := e.snd.ack[a.r], Do(cfg, e, a);
    RequestOfWaiting(cfg, e, a.r, true);
    assert Armings(e.armed, m.id) == Timed(e, m.id) == m.nretries + 1;
    forall j: nat
      ensures Timed(e', j) == Timed(e, j) + (if j == m.id then 1 else 0)
    {
      WritesAppend(e.snd.wire, e'.snd.wire[|e.snd.wire|], j);
    }
    ArmsNext(cfg, e, e', m.id);
  }

  // Steps after which the same writes have armed timers as before.
  lemma OtherArms(cfg: Config, e: Ep, a: Act)
    requires EpInv(cfg, e) && WireInv(cfg, e) && ArmedInv(cfg, e) && Enabled(cfg, e, a)
    requires !a.CommitNext? && !(a.Retry? && Rewrites(cfg, e, a))
    ensures ArmedInv(cfg, Do(cfg, e, a))
  {
    var e' := Do(cfg, e, a);
    assert e'.armed == e.armed by {
      if a.Retry? { RequestIs(cfg, e, a.r); }
    }
    forall j: nat
      ensures Timed(e', j) == Timed(e, j)
    {
      SameTimed(cfg, e, a, j);
    }
  }

  // Only a write opens the gap between write and increment, and only the increment closes it.
  lemma GapKept(cfg: Config, e: Ep, a: Act)
    requires Enabled(cfg, e, a) && !a.CommitNext? && a != WriteNext(true)
    ensures Do(cfg, e, a).spc.Written? <==> e.spc.Written?
    ensures Do(cfg, e, a).sent == e.sent
  {
  }

  // What a step that writes no message does to the record of writes.
  lemma WritesKept(cfg: Config, e: Ep, a: Act, j: nat)
    requires EpInv(cfg, e) && Enabled(cfg, e, a)
    requires !a.CommitNext? && a != WriteNext(true) && !(a.Retry? && Rewrites(cfg, e, a))
    ensures Writes(Do(cfg, e, a).snd.wire, j) == Writes(e.snd.wire, j)
  {
    var e' := Do(cfg, e, a);
    if a == AckTimerFires(true) {
      WritesAppend(e.snd.wire, e'.snd.wire[|e.snd.wire|], j);
    } else if a.AckNext? {
      var k := AckPrefixShape(cfg, e.snd, e.spc.nrs[0].nr);
    } else {
      if a.Retry? { RequestIs(cfg, e, a.r); }
      WireUnchanged(cfg, e, a);
    }
  }

  lemma SameTimed(cfg: Config, e: Ep, a: Act, j: nat)
    requires EpInv(cfg, e) && Enabled(cfg, e, a)
    requires !a.CommitNext? && !(a.Retry? && Rewrites(cfg, e, a))
    ensures Timed(Do(cfg, e, a), j) == Timed(e, j)
  {
    if a == WriteNext(true) {
      assert QueuedOk(e, e.snd.tx[0], OnWire(e) + 0);
      WritesAppend(e.snd.wire, OfMsg(NextOut(e.snd).id, PacketOf(NextOut(e.snd))), j);
    } else {
      GapKept(cfg, e, a);
      WritesKept(cfg, e, a, j);
    }
  }

  lemma {:induction false} RunArms(cfg: Config, e: Ep, trace: seq<Act>)
    requires EpInv(cfg, e) && WireInv(cfg, e) && ArmedInv(cfg, e) && LegalFrom(cfg, e, trace)
    ensures ArmedInv(cfg, RunFrom(cfg, e, trace))
    decreases |trace|
  {
    if trace != [] {
      var a := trace[0];
      if a.CommitNext? {
        CommitArms(cfg, e);
      } else if a.Retry? && Rewrites(cfg, e, a) {
        RetryArms(cfg, e, a);
      } else {
        OtherArms(cfg, e, a);
      }
      StepInv(cfg, e, a);
      StepWires(cfg, e, a);
      RunArms(cfg, Do(cfg, e, a), trace[1..]);
    }
  }

  lemma RunFacts(cfg: Config, trace: seq<Act>)
    requires ConfigOk(cfg) && LegalFrom(cfg, Start(cfg), trace)
    ensures var e := RunFrom(cfg, Start(cfg), trace); EpInv(cfg, e) && WireInv(cfg, e) && ArmedInv(cfg, e)
  {
    StartInv(cfg);
    StartWires(cfg);
    RunInv(cfg, Start(cfg), trace);
    BoundedRetry(cfg, Start(cfg), trace);
    RunArms(cfg, Start(cfg), trace);
  }

  /**
   In every run the timers armed for a message are one for each of its writes,
   but for a write whose ns increment is still outstanding, and n of them last
   RetryTimeout * (2^n - 1) together.
   */
  lemma DelaysOfEveryRun(cfg: Config, trace: seq<Act>, id: nat)
    requires ConfigOk(cfg) && LegalFrom(cfg, Start(cfg), trace)
    ensures var e := RunFrom(cfg, Start(cfg), trace);
            var n := Armings(e.armed, id);
            && n == Timed(e, id)
            && Delays(cfg.retryTimeout, e.armed, id) == Waited(cfg.retryTimeout, n) == cfg.retryTimeout * (Pow2(n) - 1)
  {
    RunFacts(cfg, trace);
    WaitedClosedForm(cfg.retryTimeout, Armings(RunFrom(cfg, Start(cfg), trace).armed, id));
  }

  lemma ExhaustedHasWaited(cfg: Config, e: Ep, r: nat)
    requires EpInv(cfg, e) && WireInv(cfg, e) && ArmedInv(cfg, e)
    requires e.open && e.spc.Idle? && r < |e.snd.ack| && Exhausted(cfg, e.snd.ack[r])
    ensures Armings(e.armed, e.snd.ack[r].id) == cfg.maxRetries
    ensures Delays(cfg.retryTimeout, e.armed, e.snd.ack[r].id) == cfg.retryTimeout * (Pow2(cfg.maxRetries) - 1)
  {
    assert WaitingOk(cfg, e, e.snd.ack[r], e.acked + r);
    assert Armings(e.armed, e.snd.ack[r].id) == Timed(e, e.snd.ack[r].id) == cfg.maxRetries;
    WaitedClosedForm(cfg.retryTimeout, cfg.maxRetries);
  }

  /** A message on which the transport gives up has waited RetryTimeout * (2^MaxRetries - 1). */
  lemma GivesUpAfter(cfg: Config, trace: seq<Act>, r: nat, ok: bool)
    requires ConfigOk(cfg) && LegalFrom(cfg, Start(cfg), trace)
    requires var e := RunFrom(cfg, Start(cfg), trace);
             Enabled(cfg, e, Retry(r, ok)) && r < |e.snd.ack| && Exhausted(cfg, e.snd.ack[r])
    ensures var e := RunFrom(cfg, Start(cfg), trace);
            && !Do(cfg, e, Retry(r, ok)).open
            && Delays(cfg.retryTimeout, e.armed, e.snd.ack[r].id) == cfg.retryTimeout * (Pow2(cfg.maxRetries) - 1)
  {
    RunFacts(cfg, trace);
    var e := RunFrom(cfg, Start(cfg), trace);
    ExhaustedHasWaited(cfg, e, r);
    RequestOfWaiting(cfg, e, r, ok);
  }

  // ---------- 64-bit durations ----------

  const TWO_63: int := 0x8000_0000_0000_0000

  // A number as it comes out of 64-bit two's complement.
  function Int64(x: int): int { (x + TWO_63) % (2 * TWO_63) - TWO_63 }

  // scaleRetryTimeout: both the shift and the product wrap.
  function ScaleRetryTimeout(retryTimeout: nat, nretries: nat): int { Int64(retryTimeout * Int64(Pow2(nretries))) }

  lemma {:induction false} Pow2Monotone(a: nat, b: nat)
    requires a <= b
    ensures Pow2(a) <= Pow2(b)
    decreases b
  {
    if a < b {
      Pow2Monotone(a, b - 1);
    }
  }

  lemma DelayFits(retryTimeout: nat, n: nat)
    requires retryTimeout >= 1 && RetryDelay(retryTimeout, n) < TWO_63
    ensures ScaleRetryTimeout(retryTimeout, n) == RetryDelay(retryTimeout, n)
  {
    assert Pow2(n) <= retryTimeout * Pow2(n);
    assert Int64(Pow2(n)) == Pow2(n);
  }

  /** No delay of a message overflows the duration type if and only if its last one does not. */
  lemma NoOverflowExactly(retryTimeout: nat, maxRetries: nat)
    requires retryTimeout >= 1 && maxRetries >= 1
    ensures (forall n: nat | n < maxRetries :: ScaleRetryTimeout(retryTimeout, n) == RetryDelay(retryTimeout, n))
            <==> retryTimeout * Pow2(maxRetries - 1) < TWO_63
  {
    if RetryDelay(retryTimeout, maxRetries - 1) < TWO_63 {
      forall n: nat | n < maxRetries
        ensures ScaleRetryTimeout(retryTimeout, n) == RetryDelay(retryTimeout, n)
      {
        Pow2Monotone(n, maxRetries - 1);
        assert retryTimeout * Pow2(n) <= retryTimeout * Pow2(maxRetries - 1);
        DelayFits(retryTimeout, n);
      }
    } else {
      assert ScaleRetryTimeout(retryTimeout, maxRetries - 1) < TWO_63;
    }
  }

  // ---------- The delays as the program computes them ----------

  function ScaledDelays(retryTimeout: nat, armed: seq<Arming>, id: nat): int
    decreases |armed|
  {
    if armed == [] then 0
    else
      var last := armed[|armed| - 1];
      ScaledDelays(retryTimeout, armed[..|armed| - 1], id)
      + (if last.id == id then ScaleRetryTimeout(retryTimeout, last.backoff) else 0)
  }

  predicate BackoffsOk(cfg: Config, armed: seq<Arming>)
  {
    forall i | 0 <= i < |armed| :: armed[i].backoff < cfg.maxRetries
  }

  lemma StepBackoffs(cfg: Config, e: Ep, a: Act)
    requires EpInv(cfg, e) && BackoffsOk(cfg, e.armed) && Enabled(cfg, e, a)
    ensures BackoffsOk(cfg, Do(cfg, e, a).armed)
  {
    if a.Retry? {
      RequestIs(cfg, e, a.r);
      if a.r < |e.snd.ack| {
        RequestOfWaiting(cfg, e, a.r, a.ok);
      }
    }
  }

  lemma {:induction false} RunBackoffs(cfg: Config, e: Ep, trace: seq<Act>)
    requires EpInv(cfg, e) && BackoffsOk(cfg, e.armed) && LegalFrom(cfg, e, trace)
    ensures BackoffsOk(cfg, RunFrom(cfg, e, trace).armed)
    decreases |trace|
  {
    if trace != [] {
      StepBackoffs(cfg, e, trace[0]);
      StepInv(cfg, e, trace[0]);
      RunBackoffs(cfg, Do(cfg, e, trace[0]), trace[1..]);
    }
  }

  lemma {:induction false} ScaledIsExact(cfg: Config, armed: seq<Arming>, id: nat)
    requires ConfigOk(cfg) && BackoffsOk(cfg, armed) && cfg.retryTimeout * Pow2(cfg.maxRetries - 1) < TWO_63
    ensures ScaledDelays(cfg.retryTimeout, armed, id) == Delays(cfg.retryTimeout, armed, id)
    decreases |armed|
  {
    if armed != [] {
      ScaledIsExact(cfg, armed[..|armed| - 1], id);
      NoOverflowExactly(cfg.retryTimeout, cfg.maxRetries);
      assert armed[|armed| - 1].backoff < cfg.maxRetries;
    }
  }

  /** As long as no delay overflows, what the program has waited when it gives up is that sum as well. */
  lemma GivesUpAfterScaled(cfg: Config, trace: seq<Act>, r: nat, ok: bool)
    requires ConfigOk(cfg) && LegalFrom(cfg, Start(cfg), trace)
    requires cfg.retryTimeout * Pow2(cfg.maxRetries - 1) < TWO_63
    requires var e := RunFrom(cfg, Start(cfg), trace);
             Enabled(cfg, e, Retry(r, ok)) && r < |e.snd.ack| && Exhausted(cfg, e.snd.ack[r])
    ensures var e := RunFrom(cfg, Start(cfg), trace);
            ScaledDelays(cfg.retryTimeout, e.armed, e.snd.ack[r].id)
            == cfg.retryTimeout * (Pow2(cfg.maxRetries) - 1)
  {
    GivesUpAfter(cfg, trace, r, ok);
    StartInv(cfg);
    RunBackoffs(cfg, Start(cfg), trace);
    var e := RunFrom(cfg, Start(cfg), trace);
    ScaledIsExact(cfg, e.armed, e.snd.ack[r].id);
  }
}
