/** How the congestion window answers retransmissions and acknowledgements in every run, against any peer. */
module CongestionTheorems {
  import opened Bytes
  import opened SlowStart
  import opened TransportSpec
  import opened Endpoint
  import opened EndpointProofs

  // ---------- Retransmission ----------

  // The step writes a message once more.
  predicate Rewrites(cfg: Config, e: Ep, a: Act)
    requires Enabled(cfg, e, a)
  {
    a.Retry? && |Do(cfg, e, a).snd.wire| > |e.snd.wire|
  }

  lemma RewritesExactly(cfg: Config, e: Ep, r: nat, ok: bool)
    requires EpInv(cfg, e) && Enabled(cfg, e, Retry(r, ok))
    ensures Rewrites(cfg, e, Retry(r, ok))
            <==> ok && r < |e.snd.ack| && e.snd.ack[r].nretries + 1 < cfg.maxRetries
  {
    RequestIs(cfg, e, r);
  }

  /**
   Every retransmission, in every run, starts the window over: back to one
   packet, the threshold at half of what the window was, and nothing else
   touched.
   */
  lemma RetransmitCollapses(cfg: Config, trace: seq<Act>, a: Act)
    requires ConfigOk(cfg) && LegalFrom(cfg, Start(cfg), trace)
    requires Enabled(cfg, RunFrom(cfg, Start(cfg), trace), a) && Rewrites(cfg, RunFrom(cfg, Start(cfg), trace), a)
    ensures var w := RunFrom(cfg, Start(cfg), trace).snd.win;
            Do(cfg, RunFrom(cfg, Start(cfg), trace), a).snd.win == Window(w.ns, w.nr, 1, w.cwnd / 2, w.nacks, w.ntx)
  {
    StartInv(cfg);
    RunInv(cfg, Start(cfg), trace);
    Collapses(cfg, RunFrom(cfg, Start(cfg), trace), a);
  }

  lemma Collapses(cfg: Config, e: Ep, a: Act)
    requires EpInv(cfg, e) && Enabled(cfg, e, a) && Rewrites(cfg, e, a)
    ensures var w, e' := e.snd.win, Do(cfg, e, a);
            e'.snd.win == Window(w.ns, w.nr, 1, w.cwnd / 2, w.nacks, w.ntx) && e'.acked == e.acked && e'.open
  {
    RewritesExactly(cfg, e, a.r, a.ok);
    RequestIs(cfg, e, a.r);
  }

  // ---------- Growth between retransmissions ----------

  // The part of the state that decides how the window grows.
  predicate SameGrowth(w: Window, u: Window) { w.cwnd == u.cwnd && w.thresh == u.thresh && w.nacks == u.nacks }

  // The window is where n acknowledgements take it from u.
  predicate GrownBy(cfg: Config, w: Window, u: Window, n: nat) { SameGrowth(w, Rounds(u, cfg.txWindow, n)) }

  lemma AckGrows(cfg: Config, w: Window, u: Window, n: nat)
    requires GrownBy(cfg, w, u, n) && WindowInv(u, cfg.txWindow) && u.ntx == 0 && cfg.txWindow >= 1 && w.ntx > 0
    ensures GrownBy(cfg, OnAck(w, cfg.txWindow), u, n + 1)
  {
    RoundsMonotone(u, cfg.txWindow, n, n);
  }

  lemma {:induction false} AckPrefixGrows(cfg: Config, s: Sender, nr: U16, u: Window, n: nat)
    requires GrownBy(cfg, s.win, u, n) && WindowInv(u, cfg.txWindow) && u.ntx == 0 && cfg.txWindow >= 1
    requires s.win.ntx == |s.ack|
    ensures var s' := AckPrefix(cfg, s, nr);
            |s'.ack| <= |s.ack| && GrownBy(cfg, s'.win, u, n + (|s.ack| - |s'.ack|))
    decreases |s.ack|
  {
    if s.ack != [] && Acks(nr, s.ack[0]) {
      AckGrows(cfg, s.win, u, n);
      AckPrefixGrows(cfg, AckHead(cfg, s), nr, u, n + 1);
    }
  }

  // Other steps than retransmissions and acknowledgements leave it alone.
  lemma OthersSteady(cfg: Config, e: Ep, a: Act)
    requires Enabled(cfg, e, a) && !a.Retry? && !a.AckNext?
    ensures SameGrowth(Do(cfg, e, a).snd.win, e.snd.win) && Do(cfg, e, a).acked == e.acked
  {
  }

  lemma OtherRetrySteady(cfg: Config, e: Ep, a: Act)
    requires EpInv(cfg, e) && Enabled(cfg, e, a) && a.Retry? && !Rewrites(cfg, e, a)
    ensures SameGrowth(Do(cfg, e, a).snd.win, e.snd.win) && Do(cfg, e, a).acked == e.acked
  {
    RewritesExactly(cfg, e, a.r, a.ok);
    RequestIs(cfg, e, a.r);
  }

  // The window is where the messages acknowledged since a count of base take it from u.
  predicate Tracks(cfg: Config, e: Ep, u: Window, base: nat)
  {
    base <= e.acked && GrownBy(cfg, e.snd.win, u, e.acked - base)
  }

  lemma AckTracks(cfg: Config, e: Ep, u: Window, base: nat)
    requires EpInv(cfg, e) && Enabled(cfg, e, AckNext)
    requires Tracks(cfg, e, u, base) && WindowInv(u, cfg.txWindow) && u.ntx == 0
    ensures Tracks(cfg, Do(cfg, e, AckNext), u, base)
  {
    var s' := AckPrefix(cfg, e.snd, e.spc.nrs[0].nr);
    AckPrefixGrows(cfg, e.snd, e.spc.nrs[0].nr, u, e.acked - base);
    var e' := Do(cfg, e, AckNext);
    assert e'.snd == s' && e'.acked - base == e.acked - base + (|e.snd.ack| - |s'.ack|);
  }

  lemma StepTracks(cfg: Config, e: Ep, a: Act, u: Window, base: nat)
    requires EpInv(cfg, e) && Enabled(cfg, e, a) && !Rewrites(cfg, e, a)
    requires Tracks(cfg, e, u, base) && WindowInv(u, cfg.txWindow) && u.ntx == 0
    ensures Tracks(cfg, Do(cfg, e, a), u, base)
  {
    if a.AckNext? {
      AckTracks(cfg, e, u, base);
    } else if a.Retry? {
      OtherRetrySteady(cfg, e, a);
    } else {
      OthersSteady(cfg, e, a);
    }
  }

  predicate RewriteIn(cfg: Config, e: Ep, trace: seq<Act>)
    requires LegalFrom(cfg, e, trace)
    decreases |trace|
  {
    trace != [] && (Rewrites(cfg, e, trace[0]) || RewriteIn(cfg, Do(cfg, e, trace[0]), trace[1..]))
  }

  lemma {:induction false} RunTracks(cfg: Config, e: Ep, trace: seq<Act>, u: Window, base: nat)
    requires EpInv(cfg, e) && LegalFrom(cfg, e, trace) && !RewriteIn(cfg, e, trace)
    requires Tracks(cfg, e, u, base) && WindowInv(u, cfg.txWindow) && u.ntx == 0
    ensures Tracks(cfg, RunFrom(cfg, e, trace), u, base)
    decreases |trace|
  {
    if trace != [] {
      StepInv(cfg, e, trace[0]);
      StepTracks(cfg, e, trace[0], u, base);
      RunTracks(cfg, Do(cfg, e, trace[0]), trace[1..], u, base);
    }
  }

  lemma RecoversFrom(cfg: Config, e: Ep, trace: seq<Act>, m: U16)
    requires EpInv(cfg, e) && e.snd.win.cwnd == 1 && 1 <= m <= cfg.txWindow
    requires LegalFrom(cfg, e, trace) && !RewriteIn(cfg, e, trace)
    ensures var e' := RunFrom(cfg, e, trace);
            && e'.acked >= e.acked
            && (e'.snd.win.cwnd >= m <==> e'.acked - e.acked >= RecoveryAcks(e.snd.win.thresh, e.snd.win.nacks, m))
  {
    var u := e.snd.win.(ntx := 0);
    assert Rounds(u, cfg.txWindow, 0) == u;
    RunTracks(cfg, e, trace, u, e.acked);
    RecoversExactly(u, cfg.txWindow, m, RunFrom(cfg, e, trace).acked - e.acked);
  }

  /**
   Recovery in every run: from a retransmission to the next, however sends,
   acknowledgements and receptions interleave, the window has come back to m
   exactly when RecoveryAcks messages have been acknowledged since, a number
   that depends only on the window and the acknowledgements counted before the
   retransmission.
   */
  lemma RecoveryOfEveryRun(cfg: Config, e: Ep, a: Act, trace: seq<Act>, m: U16)
    requires EpInv(cfg, e) && Enabled(cfg, e, a) && Rewrites(cfg, e, a) && 1 <= m <= cfg.txWindow
    requires LegalFrom(cfg, Do(cfg, e, a), trace) && !RewriteIn(cfg, Do(cfg, e, a), trace)
    ensures var e' := RunFrom(cfg, Do(cfg, e, a), trace);
            && e'.acked >= e.acked
            && (e'.snd.win.cwnd >= m
                <==> e'.acked - e.acked >= RecoveryAcks(e.snd.win.cwnd / 2, e.snd.win.nacks, m))
  {
    Collapses(cfg, e, a);
    StepInv(cfg, e, a);
    RecoversFrom(cfg, Do(cfg, e, a), trace, m);
  }

  /** Until the first retransmission the window is one more than the messages acknowledged, up to its maximum. */
  lemma GrowthBeforeLoss(cfg: Config, trace: seq<Act>)
    requires ConfigOk(cfg) && LegalFrom(cfg, Start(cfg), trace) && !RewriteIn(cfg, Start(cfg), trace)
    ensures var e := RunFrom(cfg, Start(cfg), trace);
            e.snd.win.cwnd == if 1 + e.acked <= cfg.txWindow then 1 + e.acked else cfg.txWindow
  {
    var u := InitialWindow(cfg.txWindow);
    StartInv(cfg);
    assert Rounds(u, cfg.txWindow, 0) == u;
    RunTracks(cfg, Start(cfg), trace, u, 0);
    InitialGrowth(cfg.txWindow, RunFrom(cfg, Start(cfg), trace).acked);
  }

  lemma InitialGrowth(maxTxWindow: U16, n: nat)
    requires maxTxWindow >= 1
    ensures Rounds(InitialWindow(maxTxWindow), maxTxWindow, n).cwnd
            == if 1 + n <= maxTxWindow then 1 + n else maxTxWindow
  {
    var u, full := InitialWindow(maxTxWindow), maxTxWindow - 1;
    if n <= full {
      SlowStartGrowth(u, maxTxWindow, n);
    } else {
      SlowStartGrowth(u, maxTxWindow, full);
      RoundsSplit(u, maxTxWindow, full, n, u.(cwnd := maxTxWindow));
      FullWindowIsStationary(u.(cwnd := maxTxWindow), n - full);
    }
  }

  /** A message is written for the first time only while fewer packets than the window are unacknowledged. */
  lemma SendsWithinWindow(cfg: Config, trace: seq<Act>, ok: bool)
    requires ConfigOk(cfg) && LegalFrom(cfg, Start(cfg), trace)
    requires Enabled(cfg, RunFrom(cfg, Start(cfg), trace), WriteNext(ok))
    ensures var e := RunFrom(cfg, Start(cfg), trace); |e.snd.ack| < e.snd.win.cwnd <= cfg.txWindow
  {
    StartInv(cfg);
    RunInv(cfg, Start(cfg), trace);
  }
}
