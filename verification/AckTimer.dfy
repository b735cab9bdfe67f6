/**
 When an acknowledgement is due: the timer that sends it, what starts and stops
 it, and the runs in which an accepted message is left without one.
 */
module AckTimer {
  import opened Bytes
  import opened SlowStart
  import opened TransportSpec
  import opened Endpoint
  import opened EndpointProofs

  // ---------- One frame ----------

  predicate HasMessage(frame: seq<Packet>) { exists i :: 0 <= i < |frame| && frame[i].body.Control? }

  lemma {:induction false} PumpTimer(s: Sender, io: nat -> bool, n: nat)
    ensures var p := Pump(s, io, n); p.writes >= n && (p.ok ==> (p.s.ackTimer <==> s.ackTimer && p.writes == n))
    decreases |s.tx|
  {
    if s.tx != [] && CanSend(s.win) && io(n) {
      PumpTimer(PumpCommitted(PumpWritten(s), NextOut(s)), io, n + 1);
    }
  }

  lemma {:induction false} AckPrefixTimer(cfg: Config, s: Sender, nr: U16)
    ensures AckPrefix(cfg, s, nr).ackTimer == s.ackTimer
    decreases |s.ack|
  {
    if s.ack != [] && Acks(nr, s.ack[0]) {
      AckPrefixTimer(cfg, AckHead(cfg, s), nr);
    }
  }

  lemma {:induction false} NrsTimer(cfg: Config, s: Sender, nrs: seq<U16>, io: nat -> bool, n: nat)
    ensures var p := HandleNrs(cfg, s, nrs, io, n);
            p.writes >= n && (p.ok ==> (p.s.ackTimer <==> s.ackTimer && p.writes == n))
    decreases |nrs|
  {
    if nrs != [] {
      var p := HandleNr(cfg, s, nrs[0], io, n);
      AckPrefixTimer(cfg, s, nrs[0]);
      PumpTimer(AckPrefix(cfg, s, nrs[0]), io, n);
      if p.ok {
        NrsTimer(cfg, p.s, nrs[1..], io, p.writes);
      }
    }
  }

  /**
   After the sender has worked on a frame the acknowledgement timer is running
   exactly if the frame had a message in it, not only acknowledgements, or the
   timer was running and nothing was written.
   */
  lemma TimerAfterFrame(cfg: Config, s: Sender, frame: seq<Packet>, io: nat -> bool, n: nat)
    requires HandleNrs(cfg, s, Nrs(NrInds(frame)), io, n).ok
    ensures var p := HandleNrs(cfg, s, Nrs(NrInds(frame)), io, n);
            p.s.ackTimer || AnyMessage(NrInds(frame)) <==> HasMessage(frame) || (s.ackTimer && p.writes == n)
  {
    NrsTimer(cfg, s, Nrs(NrInds(frame)), io, n);
    AnyIsHas(frame);
  }

  lemma AnyIsHas(frame: seq<Packet>)
    ensures AnyMessage(NrInds(frame)) <==> HasMessage(frame)
  {
    if HasMessage(frame) {
      var i :| 0 <= i < |frame| && frame[i].body.Control?;
      assert !NrInds(frame)[i].isAck;
    }
  }

  // ---------- One step ----------

  // A packet goes out with the current nr.
  predicate Writes(cfg: Config, e: Ep, a: Act)
    requires Enabled(cfg, e, a)
  {
    |Do(cfg, e, a).snd.wire| > |e.snd.wire|
  }

  // A packet that has gone out is taken to have said what is to be acknowledged.
  predicate Stops(cfg: Config, e: Ep, a: Act)
    requires Enabled(cfg, e, a)
  {
    a.CommitNext? || ((a.Retry? || a.AckTimerFires?) && Writes(cfg, e, a))
  }

  /**
   Every step, exactly: the timer is started by the end of the work on a frame
   with a message, stopped by every packet that is sent and by shutdown, and
   touched by nothing else.
   */
  lemma TimerExactly(cfg: Config, e: Ep, a: Act)
    requires EpInv(cfg, e) && Enabled(cfg, e, a)
    ensures Do(cfg, e, a).snd.ackTimer
            <==> && Do(cfg, e, a).open
                 && ((e.snd.ackTimer && !Stops(cfg, e, a)) || (a.AckEnds? && e.spc.kick))
  {
    if a.Retry? {
      RequestIs(cfg, e, a.r);
    } else if a.AckNext? {
      AckPrefixTimer(cfg, e.snd, e.spc.nrs[0].nr);
    }
  }

  // ---------- What is owed and what is due ----------

  // Messages accepted since the last packet was stamped.
  predicate Owes(e: Ep) { e.told < e.recvd }

  predicate Messages(nrs: seq<Ind>) { exists i :: 0 <= i < |nrs| && !nrs[i].isAck }

  // The timer runs, or will be started once the sender has worked on the frame in hand.
  predicate Due(e: Ep)
  {
    e.snd.ackTimer || (!e.spc.Idle? && e.spc.kick) || (e.rpc.Handing? && Messages(e.rpc.nrs))
  }

  // A message has been accepted, no packet has said so, and none is going to unless something else is sent.
  predicate Stranded(e: Ep) { e.open && Owes(e) && !Due(e) }

  predicate ToldInv(e: Ep) { e.told <= e.recvd }

  predicate Brings(cfg: Config, e: Ep, a: Act)
    requires Enabled(cfg, e, a)
  {
    a.Receive? && FrameAccepted(e.snd.win.ns, Packets(a.frame)) && HasMessage(Packets(a.frame))
  }

  // A message is accepted although its acknowledgement has already gone out without it, or is about to be
  // taken to have gone out: the packet was stamped before.
  predicate Forgets(cfg: Config, e: Ep, a: Act)
    requires Enabled(cfg, e, a)
  {
    || (a.Drain? && Do(cfg, e, a).recvd > e.recvd && !Due(e))
    || (a.CommitNext? && Owes(e) && !e.spc.kick && !(e.rpc.Handing? && Messages(e.rpc.nrs)))
  }

  lemma HandedMessages(frame: seq<Flight>)
    ensures Messages(Indications(frame)) <==> HasMessage(Packets(frame))
  {
    if HasMessage(Packets(frame)) {
      var i :| 0 <= i < |frame| && Packets(frame)[i].body.Control?;
      assert !Indications(frame)[i].isAck;
    }
    if Messages(Indications(frame)) {
      var i :| 0 <= i < |frame| && !Indications(frame)[i].isAck;
      assert Packets(frame)[i].body.Control?;
    }
  }

  lemma ReceiveStrands(cfg: Config, e: Ep, frame: seq<Flight>)
    requires Enabled(cfg, e, Receive(frame))
    ensures Stranded(Do(cfg, e, Receive(frame))) <==> Stranded(e) && !Brings(cfg, e, Receive(frame))
  {
    HandedMessages(frame);
  }

  lemma RetryStrands(cfg: Config, e: Ep, r: nat, ok: bool)
    requires EpInv(cfg, e) && ToldInv(e) && Enabled(cfg, e, Retry(r, ok))
    ensures Stranded(Do(cfg, e, Retry(r, ok)))
            <==> Do(cfg, e, Retry(r, ok)).open && Stranded(e) && !Writes(cfg, e, Retry(r, ok))
    ensures ToldInv(Do(cfg, e, Retry(r, ok)))
  {
    RequestIs(cfg, e, r);
  }

  lemma AckNextStrands(cfg: Config, e: Ep)
    requires Enabled(cfg, e, AckNext)
    ensures Stranded(Do(cfg, e, AckNext)) <==> Stranded(e)
    ensures Do(cfg, e, AckNext).snd.wire == e.snd.wire
  {
    AckPrefixTimer(cfg, e.snd, e.spc.nrs[0].nr);
    AckPrefixWire(cfg, e.snd, e.spc.nrs[0].nr);
  }

  lemma {:induction false} AckPrefixWire(cfg: Config, s: Sender, nr: U16)
    ensures AckPrefix(cfg, s, nr).wire == s.wire
    decreases |s.ack|
  {
    if s.ack != [] && Acks(nr, s.ack[0]) {
      AckPrefixWire(cfg, AckHead(cfg, s), nr);
    }
  }

  /** One step, exactly. */
  lemma StrandsExactly(cfg: Config, e: Ep, a: Act)
    requires EpInv(cfg, e) && ToldInv(e) && Enabled(cfg, e, a)
    ensures ToldInv(Do(cfg, e, a))
    ensures Stranded(Do(cfg, e, a))
            <==> && Do(cfg, e, a).open
                 && (Forgets(cfg, e, a) || (Stranded(e) && !Writes(cfg, e, a) && !Brings(cfg, e, a)))
  {
    match a
    case Receive(frame) => ReceiveStrands(cfg, e, frame);
    case Retry(r, ok) => RetryStrands(cfg, e, r, ok);
    case AckNext => AckNextStrands(cfg, e);
    case _ =>
  }

  predicate ForgetsIn(cfg: Config, e: Ep, trace: seq<Act>)
    requires LegalFrom(cfg, e, trace)
    decreases |trace|
  {
    trace != [] && (Forgets(cfg, e, trace[0]) || ForgetsIn(cfg, Do(cfg, e, trace[0]), trace[1..]))
  }

  // Some state of the run, the first and the last included.
  predicate StrandedIn(cfg: Config, e: Ep, trace: seq<Act>)
    requires LegalFrom(cfg, e, trace)
    decreases |trace|
  {
    Stranded(e) || (trace != [] && StrandedIn(cfg, Do(cfg, e, trace[0]), trace[1..]))
  }

  // Nothing is written and no message comes in.
  predicate SilentIn(cfg: Config, e: Ep, trace: seq<Act>)
    requires LegalFrom(cfg, e, trace)
    decreases |trace|
  {
    trace == []
    || (!Writes(cfg, e, trace[0]) && !Brings(cfg, e, trace[0]) && SilentIn(cfg, Do(cfg, e, trace[0]), trace[1..]))
  }

  /** A stranded message stays so until a packet is sent for another reason or a message comes in. */
  lemma {:induction false} StrandedStays(cfg: Config, e: Ep, trace: seq<Act>)
    requires EpInv(cfg, e) && ToldInv(e) && Stranded(e) && LegalFrom(cfg, e, trace) && SilentIn(cfg, e, trace)
    ensures RunFrom(cfg, e, trace).open ==> Stranded(RunFrom(cfg, e, trace))
    decreases |trace|
  {
    if trace != [] {
      var e1 := Do(cfg, e, trace[0]);
      StepInv(cfg, e, trace[0]);
      StrandsExactly(cfg, e, trace[0]);
      if e1.open {
        StrandedStays(cfg, e1, trace[1..]);
      } else {
        assert trace[1..] == [];
      }
    }
  }

  lemma ForgettingIsOpen(cfg: Config, e: Ep, a: Act)
    requires Enabled(cfg, e, a) && Forgets(cfg, e, a)
    ensures Do(cfg, e, a).open
  {
  }

  lemma {:induction false} StrandedRun(cfg: Config, e: Ep, trace: seq<Act>)
    requires EpInv(cfg, e) && ToldInv(e) && LegalFrom(cfg, e, trace)
    ensures StrandedIn(cfg, e, trace) <==> Stranded(e) || ForgetsIn(cfg, e, trace)
    decreases |trace|
  {
    if trace != [] {
      StepInv(cfg, e, trace[0]);
      StrandsExactly(cfg, e, trace[0]);
      StrandedRun(cfg, Do(cfg, e, trace[0]), trace[1..]);
      if Forgets(cfg, e, trace[0]) {
        ForgettingIsOpen(cfg, e, trace[0]);
      }
    }
  }

  /**
   Over every run, against any peer: each accepted message has an
   acknowledgement written or due at every moment, exactly if no message was
   accepted behind a packet that was stamped after its frame had been handed
   over.
   */
  lemma AlwaysDueExactly(cfg: Config, trace: seq<Act>)
    requires ConfigOk(cfg) && LegalFrom(cfg, Start(cfg), trace)
    ensures !StrandedIn(cfg, Start(cfg), trace) <==> !ForgetsIn(cfg, Start(cfg), trace)
  {
    StartInv(cfg);
    StrandedRun(cfg, Start(cfg), trace);
  }
}
