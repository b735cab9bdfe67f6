/**
 Transport sequence numbers: 16-bit counters compared as RFC 2661 section 5.8
 and RFC 3931 section 4.2 prescribe, that is, modulo 65536 with half of the
 number space counted as "before" and half as "after".
 */
module SeqNum {
  import opened Bytes

  // The 16-bit number that stands for an unbounded one.
  function Wrap(n: nat): (w: U16)
  {
    n % 0x10000
  }

  function SeqIncrement(seqNum: U16): (next: U16)
    ensures next == if seqNum == 0xffff then 0 else seqNum + 1
  {
    (seqNum + 1) % 0x10000
  }

  // Incrementing commutes with wrapping, at the end of the space as anywhere else.
  lemma WrapNext(n: nat)
    ensures Wrap(n + 1) == SeqIncrement(Wrap(n))
  {
  }

  function SeqCompare(seq1: U16, seq2: U16): (c: int)
    ensures -1 <= c <= 1
    ensures c == 0 <==> seq1 == seq2
    ensures c == 1 <==> 0 < seq1 - seq2 < 0x8000 || seq1 - seq2 < -0x8000
  {
    var delta: U16 :=
      if seq2 <= seq1 then seq1 - seq2 else (0xffff - seq2 + 1) + seq1;
    if delta == 0 then 0 else if delta < 0x8000 then 1 else -1
  }

  // The sign of an integer difference.
  function Sign(d: int): (c: int)
  {
    if d == 0 then 0 else if d > 0 then 1 else -1
  }

  // The distance of two unbounded numbers modulo 65536, in terms of what stands for them.
  lemma WrapDistance(m: nat, n: nat)
    ensures (m - n) % 0x10000 == if Wrap(n) <= Wrap(m) then Wrap(m) - Wrap(n) else 0x10000 + Wrap(m) - Wrap(n)
  {
    var qm, qn := m / 0x10000, n / 0x10000;
    assert m == qm * 0x10000 + Wrap(m) && n == qn * 0x10000 + Wrap(n);
    if Wrap(n) <= Wrap(m) {
      QuotientOf(m - n, qm - qn, Wrap(m) - Wrap(n));
    } else {
      QuotientOf(m - n, qm - qn - 1, 0x10000 + Wrap(m) - Wrap(n));
    }
  }

  lemma QuotientOf(x: int, q: int, d: int)
    requires x == q * 0x10000 + d && 0 <= d < 0x10000
    ensures x % 0x10000 == d
  {
  }

  // What SeqCompare sees of two unbounded numbers is only their distance modulo 65536.
  lemma SeqCompareOfDistance(m: nat, n: nat)
    ensures SeqCompare(Wrap(m), Wrap(n))
            == (var d := (m - n) % 0x10000; if d == 0 then 0 else if d < 0x8000 then 1 else -1)
  {
    WrapDistance(m, n);
  }

  /**
   The comparison agrees with the order of the unbounded numbers exactly on the
   pairs that are less than half the space apart, together with the one pair at
   distance half the space in the "before" direction.
   */
  lemma SeqCompareAgrees(m: nat, n: nat)
    requires -0x10000 < m - n < 0x10000
    ensures SeqCompare(Wrap(m), Wrap(n)) == Sign(m - n) <==> -0x8000 <= m - n < 0x8000
  {
    SeqCompareOfDistance(m, n);
    if m - n >= 0 {
      QuotientOf(m - n, 0, m - n);
    } else {
      QuotientOf(m - n, -1, m - n + 0x10000);
    }
  }

  lemma SeqCompareFlips(a: U16, b: U16)
    ensures SeqCompare(a, b) == -SeqCompare(b, a) <==> a - b != 0x8000 && b - a != 0x8000
  {
  }

  // The comparison is antisymmetric except at distance half the space, where each number precedes the other.
  lemma SeqCompareAntisymmetric(m: nat, n: nat)
    ensures SeqCompare(Wrap(m), Wrap(n)) == -SeqCompare(Wrap(n), Wrap(m))
            <==> (m - n) % 0x10000 != 0x8000
  {
    WrapDistance(m, n);
    SeqCompareFlips(Wrap(m), Wrap(n));
  }

  // A window of w unacknowledged messages is told apart by the comparison exactly when w is below half the space.
  lemma WindowBoundIsExact(w: U16)
    ensures (forall m: nat, n: nat | 0 < m - n <= w :: SeqCompare(Wrap(m), Wrap(n)) > 0) <==> w < 0x8000
  {
    if w < 0x8000 {
      forall m: nat, n: nat | 0 < m - n <= w
        ensures SeqCompare(Wrap(m), Wrap(n)) > 0
      {
        SeqCompareAgrees(m, n);
      }
    } else {
      SeqCompareAgrees(0x8000, 0);
    }
  }
}
