/** A run in which an acknowledgement overtakes a retry request that is already on its way to the sender. */
module LateExample {
  import opened SlowStart
  import opened TransportSpec
  import opened Endpoint
  import opened Refinement
  import opened RetryProofs

  const Cfg: Config := DefaultConfig

  // The peer acknowledges the first message.
  const Reply: Flight := Flight(Packet(0, 1, AckBody), 0, 1)

  const Sending: seq<Act> := [Submit([1]), WriteNext(true), CommitNext, PumpStops, AckEnds]
  const Racing: seq<Act> := [TimerFires(0), Receive([Reply]), Hand, AckNext, PumpStops, AckEnds]

  const Msg: Xmit := Xmit(0, Control([1]), 0, 0, 0, false, Armed(0))

  function Waiting(): Ep
  {
    Start(Cfg).(
      snd := Sender(Window(1, 0, 1, 4, 0, 1), [], [Msg], [], [OfMsg(0, Packet(0, 0, Control([1])))], false),
      subs := [Control([1])], sent := 1, armed := [Arming(0, 0)])
  }

  // The message is complete, its request still to be taken.
  function Overtaken(): Ep
  {
    var w := Waiting();
    w.(snd := w.snd.(win := OnAck(w.snd.win, 4), ack := [], done := [Done(0, Acked)]),
       rpc := Draining, rxq := [Reply], acked := 1,
       late := [Msg.(timer := Fired, isComplete := true)])
  }

  lemma RunSending()
    ensures LegalFrom(Cfg, Start(Cfg), Sending) && RunFrom(Cfg, Start(Cfg), Sending) == Waiting()
  {
    var e1 := Do(Cfg, Start(Cfg), Sending[0]);
    var e2 := Do(Cfg, e1, Sending[1]);
    var e3 := Do(Cfg, e2, Sending[2]);
    var e4 := Do(Cfg, e3, Sending[3]);
    assert Do(Cfg, e4, Sending[4]) == Waiting();
    ConsTrace(Cfg, e4, Sending[4], []);
    ConsTrace(Cfg, e3, Sending[3], [Sending[4]]);
    ConsTrace(Cfg, e2, Sending[2], [Sending[3], Sending[4]]);
    ConsTrace(Cfg, e1, Sending[1], [Sending[2], Sending[3], Sending[4]]);
    ConsTrace(Cfg, Start(Cfg), Sending[0], [Sending[1], Sending[2], Sending[3], Sending[4]]);
  }

  // The timer fires, then the acknowledgement is read and handed over.
  function Handed(): Ep
  {
    var w := Waiting();
    w.(snd := w.snd.(ack := [Msg.(timer := Fired)]), spc := Acking([Ind(true, 1, 1)], false),
       rpc := Draining, rxq := [Reply])
  }

  lemma RunToHanded()
    ensures LegalFrom(Cfg, Waiting(), Racing[..3]) && RunFrom(Cfg, Waiting(), Racing[..3]) == Handed()
  {
    var e1 := Do(Cfg, Waiting(), Racing[0]);
    var e2 := Do(Cfg, e1, Racing[1]);
    assert Packets([Reply]) == [Reply.pkt] && Indications([Reply]) == [Ind(true, 1, 1)];
    assert Do(Cfg, e2, Racing[2]) == Handed();
    ConsTrace(Cfg, e2, Racing[2], []);
    ConsTrace(Cfg, e1, Racing[1], [Racing[2]]);
    ConsTrace(Cfg, Waiting(), Racing[0], [Racing[1], Racing[2]]);
    assert Racing[..3] == [Racing[0]] + [Racing[1], Racing[2]];
  }

  // The message has been taken out of the queue.
  function Completed(): Ep { Overtaken().(spc := Pumping([], false)) }

  lemma AckTaken()
    ensures Enabled(Cfg, Handed(), Racing[3]) && Do(Cfg, Handed(), Racing[3]) == Completed()
  {
    var s := Handed().snd;
    assert AckPrefix(Cfg, s, 1) == AckHead(Cfg, s);
    assert s.ack[..1] == s.ack && Stragglers(s.ack) == [Msg.(timer := Fired, isComplete := true)];
    var e := Do(Cfg, Handed(), Racing[3]);
    assert e.late == Completed().late && e.snd == Completed().snd && e.spc == Completed().spc;
  }

  lemma RunToOvertaken()
    ensures LegalFrom(Cfg, Handed(), Racing[3..]) && RunFrom(Cfg, Handed(), Racing[3..]) == Overtaken()
  {
    AckTaken();
    var e1 := Completed();
    var e2 := Do(Cfg, e1, Racing[4]);
    assert Do(Cfg, e2, Racing[5]) == Overtaken();
    ConsTrace(Cfg, e2, Racing[5], []);
    ConsTrace(Cfg, e1, Racing[4], [Racing[5]]);
    ConsTrace(Cfg, Handed(), Racing[3], [Racing[4], Racing[5]]);
    assert Racing[3..] == [Racing[3]] + [Racing[4], Racing[5]];
  }

  /**
   The race that isComplete guards against is a run: the sender takes a retry
   request for a message it has already completed, and writes nothing.
   */
  lemma LateRequestIsReachable(ok: bool)
    ensures LegalFrom(Cfg, Start(Cfg), Sending + Racing)
    ensures var e := RunFrom(Cfg, Start(Cfg), Sending + Racing);
            && e == Overtaken() && Enabled(Cfg, e, Retry(0, ok)) && Calls(e.snd.done, 0) == 1
            && Do(Cfg, e, Retry(0, ok)) == e.(late := []) && Writes(e.snd.wire, 0) == 1
  {
    RunSending();
    RunToHanded();
    RunToOvertaken();
    ConcatTrace(Cfg, Waiting(), Racing[..3], Racing[3..]);
    assert Racing[..3] + Racing[3..] == Racing;
    ConcatTrace(Cfg, Start(Cfg), Sending, Racing);
    WritesAppend([], Overtaken().snd.wire[0], 0);
    assert [] + [Overtaken().snd.wire[0]] == Overtaken().snd.wire;
  }
}
