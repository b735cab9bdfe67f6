/**
 The methods of the transport object and the steps of the endpoint machine are
 two grains of the same program: each method, run without interference, is a
 trace of steps.
 */
module Refinement {
  import opened Bytes
  import opened SlowStart
  import opened TransportSpec
  import opened Endpoint

  lemma ConsTrace(cfg: Config, e: Ep, a: Act, rest: seq<Act>)
    requires Enabled(cfg, e, a) && LegalFrom(cfg, Do(cfg, e, a), rest)
    ensures LegalFrom(cfg, e, [a] + rest)
    ensures RunFrom(cfg, e, [a] + rest) == RunFrom(cfg, Do(cfg, e, a), rest)
  {
  }

  lemma {:induction false} ConcatTrace(cfg: Config, e: Ep, t: seq<Act>, u: seq<Act>)
    requires LegalFrom(cfg, e, t) && LegalFrom(cfg, RunFrom(cfg, e, t), u)
    ensures LegalFrom(cfg, e, t + u) && RunFrom(cfg, e, t + u) == RunFrom(cfg, RunFrom(cfg, e, t), u)
    decreases |t|
  {
    if t == [] {
      assert t + u == u;
    } else {
      var e1, rest := Do(cfg, e, t[0]), t[1..];
      ConcatTrace(cfg, e1, rest, u);
      assert t + u == [t[0]] + (rest + u);
      ConsTrace(cfg, e, t[0], rest + u);
    }
  }

  /** processTxQueue is a run of write and commit steps, ended by a stop or by shutdown. */
  lemma {:induction false} TransmitLoopIsTrace(cfg: Config, e: Ep, io: nat -> bool, n: nat)
    returns (trace: seq<Act>)
    requires e.open && e.spc.Pumping?
    ensures LegalFrom(cfg, e, trace)
    ensures var p := Pump(e.snd, io, n);
            var e' := RunFrom(cfg, e, trace);
            if p.ok then e'.open && e'.snd == p.s && e'.spc == Acking(e.spc.nrs, e.spc.kick)
            else !e'.open && e'.snd == Down(p.s)
    decreases |e.snd.tx|
  {
    if e.snd.tx == [] || !CanSend(e.snd.win) {
      trace := [PumpStops];
      ConsTrace(cfg, e, PumpStops, []);
    } else if io(n) {
      var e1 := Do(cfg, e, WriteNext(true));
      var e2 := Do(cfg, e1, CommitNext);
      var rest := TransmitLoopIsTrace(cfg, e2, io, n + 1);
      ConsTrace(cfg, e1, CommitNext, rest);
      ConsTrace(cfg, e, WriteNext(true), [CommitNext] + rest);
      trace := [WriteNext(true)] + ([CommitNext] + rest);
    } else {
      trace := [WriteNext(false)];
      ConsTrace(cfg, e, WriteNext(false), []);
    }
  }

  function NrsOf(inds: seq<Ind>): seq<U16> { seq(|inds|, i requires 0 <= i < |inds| => inds[i].nr) }

  // The sender at the point where the transmit loop would be entered for the current nr, if at all.
  lemma NrTurn(cfg: Config, e: Ep, io: nat -> bool, n: nat) returns (trace: seq<Act>)
    requires e.open && e.spc.Acking? && e.spc.nrs != []
    ensures LegalFrom(cfg, e, trace)
    ensures var p := HandleNr(cfg, e.snd, e.spc.nrs[0].nr, io, n);
            var e' := RunFrom(cfg, e, trace);
            if p.ok then e'.open && e'.snd == p.s && e'.spc == Acking(e.spc.nrs[1..], e.spc.kick)
            else !e'.open && e'.snd == Down(p.s)
  {
    var e1 := Do(cfg, e, AckNext);
    var rest := [];
    if e1.spc.Pumping? {
      rest := TransmitLoopIsTrace(cfg, e1, io, n);
    }
    ConsTrace(cfg, e, AckNext, rest);
    trace := [AckNext] + rest;
  }

  /** The nr case of the sender's loop is a run of acknowledgement and transmit steps back to the loop head. */
  lemma {:induction false} NrLoopIsTrace(cfg: Config, e: Ep, io: nat -> bool, n: nat) returns (trace: seq<Act>)
    requires e.open && e.spc.Acking?
    ensures LegalFrom(cfg, e, trace)
    ensures var p := HandleNrs(cfg, e.snd, NrsOf(e.spc.nrs), io, n);
            var e' := RunFrom(cfg, e, trace);
            if p.ok then e'.open && e'.spc.Idle? && e'.snd == p.s.(ackTimer := p.s.ackTimer || e.spc.kick)
            else !e'.open && e'.snd == Down(p.s)
    decreases |e.spc.nrs|
  {
    if e.spc.nrs == [] {
      trace := [AckEnds];
      ConsTrace(cfg, e, AckEnds, []);
    } else {
      trace := NrTurn(cfg, e, io, n);
      var p, e1 := HandleNr(cfg, e.snd, e.spc.nrs[0].nr, io, n), RunFrom(cfg, e, trace);
      assert NrsOf(e.spc.nrs)[1..] == NrsOf(e.spc.nrs[1..]);
      if p.ok {
        var rest := NrLoopIsTrace(cfg, e1, io, p.writes);
        ConcatTrace(cfg, e, trace, rest);
        trace := trace + rest;
      }
    }
  }

  function RxView(e: Ep): RxState { RxState(e.snd.win.nr, Packets(e.rxq), e.delivered) }

  /** processRxQueue is a run of drain and delivery steps that ends with the receiver back at its socket. */
  lemma {:induction false} ReceiveLoopIsTrace(cfg: Config, e: Ep) returns (trace: seq<Act>)
    requires e.open && e.rpc.Draining?
    ensures LegalFrom(cfg, e, trace)
    ensures var e' := RunFrom(cfg, e, trace);
            e'.open && e'.rpc.Ready? && RxView(e') == DrainRx(RxView(e))
    decreases |e.rxq|
  {
    var e1 := Do(cfg, e, Drain);
    if e.rxq == [] || RxVerdict(e.snd.win.nr, e.rxq[0].pkt) == Ahead {
      trace := [Drain];
      ConsTrace(cfg, e, Drain, []);
    } else {
      assert Packets(e.rxq[1..]) == Packets(e.rxq)[1..];
      if e1.rpc.Delivering? {
        var e2 := Do(cfg, e1, Deliver);
        assert RxView(e2) == RxPop(RxView(e));
        var rest := ReceiveLoopIsTrace(cfg, e2);
        ConsTrace(cfg, e1, Deliver, rest);
        ConsTrace(cfg, e, Drain, [Deliver] + rest);
        trace := [Drain] + ([Deliver] + rest);
      } else {
        assert RxView(e1) == RxPop(RxView(e));
        var rest := ReceiveLoopIsTrace(cfg, e1);
        ConsTrace(cfg, e, Drain, rest);
        trace := [Drain] + rest;
      }
    }
  }
}
