/**
 Sequence numbers and the slow start / congestion avoidance state of RFC 2661
 Appendix A: the value, the operations on it, the class that updates it in
 place, and the laws of window growth.
 */
module SlowStart {
  import opened Bytes
  import opened SeqNum

  datatype Window = Window(ns: U16, nr: U16, cwnd: U16, thresh: U16, nacks: U16, ntx: U16)

  predicate CanSend(w: Window) { w.ntx < w.cwnd }

  // uint16 increments wrap: WindowInv below is what rules the wrap out.
  function Inc(x: U16): U16 { if x == 0xffff then 0 else x + 1 }

  function OnSend(w: Window): Window { w.(ntx := Inc(w.ntx)) }

  function OnAck(w: Window, maxTxWindow: U16): Window
  {
    if w.ntx == 0 then w
    else
      var grown :=
        if w.cwnd >= maxTxWindow then w
        else if w.cwnd < w.thresh then w.(cwnd := Inc(w.cwnd))
        else if Inc(w.nacks) >= w.cwnd then w.(nacks := 0, cwnd := Inc(w.cwnd))
        else w.(nacks := Inc(w.nacks));
      grown.(ntx := w.ntx - 1)
  }

  function OnRetransmit(w: Window): Window { w.(thresh := w.cwnd / 2, cwnd := 1) }

  function IncrementNr(w: Window): Window { w.(nr := SeqIncrement(w.nr)) }

  function IncrementNs(w: Window): Window { w.(ns := SeqIncrement(w.ns)) }

  function InitialWindow(maxTxWindow: U16): Window { Window(0, 0, 1, maxTxWindow, 0, 0) }

  // The congestion part of the state stays inside the configured window.
  predicate WindowInv(w: Window, maxTxWindow: U16)
  {
    && 1 <= w.cwnd <= maxTxWindow
    && w.thresh <= maxTxWindow
    && w.nacks < maxTxWindow
    && w.ntx <= maxTxWindow
  }

  // Every operation keeps the window bounds, and none of its uint16 increments wraps.
  lemma WindowInvKept(w: Window, maxTxWindow: U16)
    requires WindowInv(w, maxTxWindow)
    ensures WindowInv(OnAck(w, maxTxWindow), maxTxWindow)
    ensures WindowInv(OnRetransmit(w), maxTxWindow)
    ensures CanSend(w) ==> WindowInv(OnSend(w), maxTxWindow) && OnSend(w).ntx == w.ntx + 1
    ensures w.ntx > 0 ==> OnAck(w, maxTxWindow).ntx == w.ntx - 1
    ensures w.ntx == 0 ==> OnAck(w, maxTxWindow) == w
    ensures w.cwnd <= OnAck(w, maxTxWindow).cwnd <= w.cwnd + 1
  {
  }

  /** The state updated in place, one method for each critical section of the lock. */
  class SlowStartState {
    var ns: U16
    var nr: U16
    var cwnd: U16
    var thresh: U16
    var nacks: U16
    var ntx: U16

    ghost function Value(): Window
      reads this
    {
      Window(ns, nr, cwnd, thresh, nacks, ntx)
    }

    constructor (maxTxWindow: U16)
      ensures Value() == InitialWindow(maxTxWindow)
    {
      ns, nr, cwnd, thresh, nacks, ntx := 0, 0, 1, maxTxWindow, 0, 0;
    }

    method CanSendNow() returns (ok: bool)
      ensures ok <==> CanSend(Value())
    {
      ok := ntx < cwnd;
    }

    method Sent()
      modifies this
      ensures Value() == OnSend(old(Value()))
    {
      ntx := Inc(ntx);
    }

    method Acked(maxTxWindow: U16)
      modifies this
      ensures Value() == OnAck(old(Value()), maxTxWindow)
    {
      if ntx > 0 {
        if cwnd < maxTxWindow {
          if cwnd < thresh {
            cwnd := Inc(cwnd);
          } else {
            nacks := Inc(nacks);
            if nacks >= cwnd {
              nacks := 0;
              cwnd := Inc(cwnd);
            }
          }
        }
        ntx := ntx - 1;
      }
    }

    method Retransmitted()
      modifies this
      ensures Value() == OnRetransmit(old(Value()))
    {
      thresh := cwnd / 2;
      cwnd := 1;
    }

    method BumpNr()
      modifies this
      ensures Value() == IncrementNr(old(Value()))
    {
      nr := SeqIncrement(nr);
    }

    method BumpNs()
      modifies this
      ensures Value() == IncrementNs(old(Value()))
    {
      ns := SeqIncrement(ns);
    }
  }

  // ---------- Window growth ----------

  // n acknowledgements, each of which finds a packet outstanding because one was sent before it.
  function Rounds(w: Window, maxTxWindow: U16, n: nat): Window
    decreases n
  {
    if n == 0 then w else OnAck(OnSend(Rounds(w, maxTxWindow, n - 1)), maxTxWindow)
  }

  lemma {:induction false} RoundsCompose(w: Window, maxTxWindow: U16, a: nat, b: nat)
    ensures Rounds(w, maxTxWindow, a + b) == Rounds(Rounds(w, maxTxWindow, a), maxTxWindow, b)
    decreases b
  {
    if b > 0 {
      RoundsCompose(w, maxTxWindow, a, b - 1);
      var u := Rounds(w, maxTxWindow, a + (b - 1));
      assert Rounds(w, maxTxWindow, a + b) == OnAck(OnSend(u), maxTxWindow);
    }
  }

  // Slow start: one more per acknowledgement until the threshold.
  lemma {:induction false} SlowStartGrowth(w: Window, maxTxWindow: U16, n: nat)
    requires WindowInv(w, maxTxWindow) && w.ntx < 0xffff
    requires w.cwnd + n <= w.thresh
    ensures Rounds(w, maxTxWindow, n) == w.(cwnd := w.cwnd + n)
    decreases n
  {
    if n > 0 {
      SlowStartGrowth(w, maxTxWindow, n - 1);
    }
  }

  // At the configured maximum the window is stationary, whatever the phase.
  lemma {:induction false} FullWindowIsStationary(w: Window, n: nat)
    requires w.ntx < 0xffff
    ensures Rounds(w, w.cwnd, n) == w
    decreases n
  {
    if n > 0 {
      FullWindowIsStationary(w, n - 1);
    }
  }

  // Congestion avoidance below the next step of the window: only nacks moves.
  lemma {:induction false} AvoidanceCounts(w: Window, maxTxWindow: U16, j: nat)
    requires w.thresh <= w.cwnd < maxTxWindow && w.nacks == 0 && w.ntx < 0xffff
    requires j < w.cwnd
    ensures Rounds(w, maxTxWindow, j) == w.(nacks := j)
    decreases j
  {
    if j > 0 {
      AvoidanceCounts(w, maxTxWindow, j - 1);
    }
  }

  // The acknowledgements needed to go from a window of k to a window of m.
  function AcksBetween(k: nat, m: nat): (n: nat)
    requires k <= m
    decreases m
  {
    if k == m then 0 else AcksBetween(k, m - 1) + (m - 1)
  }

  lemma {:induction false} AcksBetweenClosedForm(k: nat, m: nat)
    requires k <= m
    ensures 2 * AcksBetween(k, m) == m * (m - 1) - k * (k - 1)
    decreases m
  {
    if k < m {
      AcksBetweenClosedForm(k, m - 1);
      assert m * (m - 1) == (m - 1) * (m - 2) + 2 * (m - 1);
    }
  }

  // A window of k grows by one after k acknowledgements.
  lemma AvoidanceStep(w: Window, maxTxWindow: U16)
    requires w.thresh <= w.cwnd < maxTxWindow && 1 <= w.cwnd && w.nacks == 0 && w.ntx < 0xffff
    ensures Rounds(w, maxTxWindow, w.cwnd) == w.(cwnd := w.cwnd + 1)
  {
    AvoidanceCounts(w, maxTxWindow, w.cwnd - 1);
  }

  lemma AvoidanceOneMore(w: Window, maxTxWindow: U16, before: nat, k: U16)
    requires w.thresh <= k < maxTxWindow && 1 <= k && w.nacks == 0 && w.ntx < 0xffff
    requires Rounds(w, maxTxWindow, before) == w.(cwnd := k)
    ensures Rounds(w, maxTxWindow, before + k) == w.(cwnd := k + 1)
  {
    RoundsCompose(w, maxTxWindow, before, k);
    AvoidanceStep(w.(cwnd := k), maxTxWindow);
  }

  lemma {:induction false} AvoidanceReaches(w: Window, maxTxWindow: U16, m: U16)
    requires w.thresh <= w.cwnd && 1 <= w.cwnd <= m <= maxTxWindow
    requires w.nacks == 0 && w.ntx < 0xffff
    ensures Rounds(w, maxTxWindow, AcksBetween(w.cwnd, m)) == w.(cwnd := m)
    decreases m
  {
    if m > w.cwnd {
      AvoidanceReaches(w, maxTxWindow, m - 1);
      AvoidanceOneMore(w, maxTxWindow, AcksBetween(w.cwnd, m - 1), m - 1);
    }
  }

  lemma {:induction false} RoundsMonotone(w: Window, maxTxWindow: U16, a: nat, b: nat)
    requires WindowInv(w, maxTxWindow) && w.ntx < maxTxWindow
    requires a <= b
    ensures Rounds(w, maxTxWindow, a).cwnd <= Rounds(w, maxTxWindow, b).cwnd <= maxTxWindow
    ensures WindowInv(Rounds(w, maxTxWindow, b), maxTxWindow)
    ensures Rounds(w, maxTxWindow, b).ntx == w.ntx
    decreases b
  {
    if b > 0 {
      var u := Rounds(w, maxTxWindow, b - 1);
      RoundsMonotone(w, maxTxWindow, if a == b then a - 1 else a, b - 1);
      WindowInvKept(OnSend(u), maxTxWindow);
    }
  }

  /**
   In congestion avoidance the window first reaches m after exactly
   AcksBetween(k, m) = (m(m-1) - k(k-1))/2 acknowledgements from a window of k:
   not one earlier.
   */
  lemma {:induction false} AvoidanceReachesExactly(w: Window, maxTxWindow: U16, m: U16, n: nat)
    requires WindowInv(w, maxTxWindow) && w.ntx < maxTxWindow
    requires w.thresh <= w.cwnd <= m <= maxTxWindow && w.nacks == 0
    ensures Rounds(w, maxTxWindow, n).cwnd >= m <==> n >= AcksBetween(w.cwnd, m)
  {
    if n >= AcksBetween(w.cwnd, m) {
      AvoidanceReaches(w, maxTxWindow, m);
      RoundsMonotone(w, maxTxWindow, AcksBetween(w.cwnd, m), n);
    } else {
      AvoidanceNotEarlier(w, maxTxWindow, m, n);
    }
  }

  lemma {:induction false} AvoidanceNotEarlier(w: Window, maxTxWindow: U16, m: U16, n: nat)
    requires WindowInv(w, maxTxWindow) && w.ntx < maxTxWindow
    requires w.thresh <= w.cwnd < m <= maxTxWindow && w.nacks == 0
    requires n < AcksBetween(w.cwnd, m)
    ensures Rounds(w, maxTxWindow, n).cwnd < m
  {
    var before := AcksBetween(w.cwnd, m - 1);
    var full := w.(cwnd := m - 1);
    assert full == Rounds(w, maxTxWindow, before) by {
      AvoidanceReaches(w, maxTxWindow, m - 1);
    }
    if n < before {
      RoundsMonotone(w, maxTxWindow, n, before);
    } else {
      RoundsSplit(w, maxTxWindow, before, n, full);
      AvoidanceCounts(full, maxTxWindow, n - before);
    }
  }

  // ---------- Recovery ----------

  lemma RoundsSplit(w: Window, maxTxWindow: U16, a: nat, n: nat, u: Window)
    requires a <= n && Rounds(w, maxTxWindow, a) == u
    ensures Rounds(w, maxTxWindow, n) == Rounds(u, maxTxWindow, n - a)
  {
    RoundsCompose(w, maxTxWindow, a, n - a);
  }

  // In congestion avoidance some acknowledgements may have been counted already.
  function AcksToNext(k: nat, nacks: nat): (n: nat)
    requires k >= 1
    ensures 1 <= n <= k
  {
    if nacks + 1 >= k then 1 else k - nacks
  }

  lemma {:induction false} AvoidanceCountsOn(w: Window, maxTxWindow: U16, j: nat)
    requires w.thresh <= w.cwnd < maxTxWindow && 1 <= w.cwnd && w.nacks < 0xffff && w.ntx < 0xffff
    requires j < AcksToNext(w.cwnd, w.nacks)
    ensures Rounds(w, maxTxWindow, j) == w.(nacks := w.nacks + j)
    decreases j
  {
    if j > 0 {
      AvoidanceCountsOn(w, maxTxWindow, j - 1);
    }
  }

  lemma AvoidanceFirstStep(w: Window, maxTxWindow: U16)
    requires w.thresh <= w.cwnd < maxTxWindow && 1 <= w.cwnd && w.nacks < 0xffff && w.ntx < 0xffff
    ensures Rounds(w, maxTxWindow, AcksToNext(w.cwnd, w.nacks)) == w.(cwnd := w.cwnd + 1, nacks := 0)
  {
    AvoidanceCountsOn(w, maxTxWindow, AcksToNext(w.cwnd, w.nacks) - 1);
  }

  lemma AvoidanceReachesFrom(w: Window, maxTxWindow: U16, m: U16, n: nat)
    requires WindowInv(w, maxTxWindow) && w.ntx < maxTxWindow && w.thresh <= w.cwnd < m <= maxTxWindow
    ensures Rounds(w, maxTxWindow, n).cwnd >= m
            <==> n >= AcksToNext(w.cwnd, w.nacks) + AcksBetween(w.cwnd + 1, m)
  {
    var first := AcksToNext(w.cwnd, w.nacks);
    if n < first {
      AvoidanceCountsOn(w, maxTxWindow, n);
    } else {
      var next := w.(cwnd := w.cwnd + 1, nacks := 0);
      AvoidanceFirstStep(w, maxTxWindow);
      RoundsSplit(w, maxTxWindow, first, n, next);
      AvoidanceReachesExactly(next, maxTxWindow, m, n - first);
    }
  }

  // Where slow start from a window of 1 ends.
  function Turn(thresh: U16): U16 { if thresh > 1 then thresh else 1 }

  // The acknowledgements that bring a window of 1 up to m, with a threshold and acknowledgements already counted.
  function RecoveryAcks(thresh: U16, nacks: U16, m: U16): (n: nat)
    requires m >= 1
  {
    if m <= Turn(thresh) then m - 1
    else Turn(thresh) - 1 + AcksToNext(Turn(thresh), nacks) + AcksBetween(Turn(thresh) + 1, m)
  }

  lemma SlowStartOf(c: Window, maxTxWindow: U16, n: nat)
    requires WindowInv(c, maxTxWindow) && c.ntx < maxTxWindow && c.cwnd == 1 && n < Turn(c.thresh)
    ensures Rounds(c, maxTxWindow, n) == c.(cwnd := 1 + n)
  {
    if c.thresh >= 1 {
      SlowStartGrowth(c, maxTxWindow, n);
    }
  }

  lemma RecoversPastTurn(c: Window, maxTxWindow: U16, m: U16, n: nat)
    requires WindowInv(c, maxTxWindow) && c.ntx < maxTxWindow && c.cwnd == 1
    requires Turn(c.thresh) <= n && Turn(c.thresh) < m <= maxTxWindow
    ensures Rounds(c, maxTxWindow, n).cwnd >= m <==> n >= RecoveryAcks(c.thresh, c.nacks, m)
  {
    var turn := Turn(c.thresh);
    var top, left: nat := c.(cwnd := turn), n - (turn - 1);
    assert Rounds(c, maxTxWindow, n) == Rounds(top, maxTxWindow, left) by {
      SlowStartOf(c, maxTxWindow, turn - 1);
      RoundsSplit(c, maxTxWindow, turn - 1, n, top);
    }
    AvoidanceReachesFrom(top, maxTxWindow, m, left);
  }

  /**
   From a window of 1: slow start up to the threshold, then congestion
   avoidance, whose first step is shorter by the acknowledgements that had been
   counted before.  The window has reached m exactly after that many
   acknowledgements.
   */
  lemma RecoversExactly(c: Window, maxTxWindow: U16, m: U16, n: nat)
    requires WindowInv(c, maxTxWindow) && c.ntx < maxTxWindow && c.cwnd == 1 && 1 <= m <= maxTxWindow
    ensures Rounds(c, maxTxWindow, n).cwnd >= m <==> n >= RecoveryAcks(c.thresh, c.nacks, m)
  {
    var turn := Turn(c.thresh);
    if n < turn {
      SlowStartOf(c, maxTxWindow, n);
    } else if m <= turn {
      SlowStartOf(c, maxTxWindow, turn - 1);
      RoundsMonotone(c, maxTxWindow, turn - 1, n);
    } else {
      RecoversPastTurn(c, maxTxWindow, m, n);
    }
  }
}
