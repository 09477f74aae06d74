/** Congestion and advertised window of the sender (`congection_window_control`, src/tcp_proto_output.h). */
module CongestionControl {
  import opened SequenceWindows

  const CONGESTION_START_SZ: nat := 100

  datatype Congestion = Congestion(receiverWin: nat, congestionWin: nat, mtu: nat) {
    /** The smaller of the two windows. */
    function BoundedWinSz(): (n: nat)
      ensures n <= receiverWin && n <= congestionWin && (n == receiverWin || n == congestionWin)
    {
      if receiverWin <= congestionWin then receiverWin else congestionWin
    }

    function OnRetry(): Congestion {
      var half := congestionWin / 2;
      this.(congestionWin := if half < 1 then 1 else half)
    }

    function OnAck(windowSz: nat): Congestion {
      Congestion(windowSz, congestionWin + mtu, mtu)
    }
  }

  class CongestionWindowControl {
    var receiverWinSz: nat
    var congestionWinSz: nat
    var mtu: nat

    function View(): Congestion
      reads this
    {
      Congestion(receiverWinSz, congestionWinSz, mtu)
    }

    constructor (mtu: nat)
      ensures View() == Congestion(WINDOW_SZ, CONGESTION_START_SZ, mtu)
    {
      receiverWinSz, congestionWinSz := WINDOW_SZ, CONGESTION_START_SZ;
      this.mtu := mtu;
    }

    method OnRetry()
      modifies this
      ensures View() == old(View()).OnRetry()
    {
      congestionWinSz := congestionWinSz / 2;
      if congestionWinSz < 1 {
        congestionWinSz := 1;
      }
    }

    method OnAck(windowSz: nat)
      modifies this
      ensures View() == old(View()).OnAck(windowSz)
    {
      receiverWinSz := windowSz;
      congestionWinSz := congestionWinSz + mtu;
    }
  }

  /** What happens to a congestion window: an acknowledgement advertising a window, or a retry. */
  datatype Signal = AckHeard(windowSz: nat) | Retry

  function Feed(c: Congestion, signals: seq<Signal>): Congestion {
    if |signals| == 0 then c
    else
      var before := Feed(c, signals[..|signals| - 1]);
      match signals[|signals| - 1]
      case AckHeard(windowSz) => before.OnAck(windowSz)
      case Retry => before.OnRetry()
  }

  function Retries(signals: seq<Signal>): nat {
    if |signals| == 0 then 0
    else Retries(signals[..|signals| - 1]) + (if signals[|signals| - 1].Retry? then 1 else 0)
  }

  function Pow2(k: nat): (p: nat)
    ensures p >= 1
  {
    if k == 0 then 1 else 2 * Pow2(k - 1)
  }

  /** d / 2^k, rounded up. */
  function CeilShift(d: nat, k: nat): nat {
    (d + Pow2(k) - 1) / Pow2(k)
  }

  function Gap(a: nat, b: nat): nat {
    if a <= b then b - a else a - b
  }

  /** CeilShift(d, k) is the least number whose 2^k-fold reaches d. */
  lemma CeilShiftLeast(d: nat, k: nat, q: nat)
    ensures q * Pow2(k) >= d <==> q >= CeilShift(d, k)
  {
    var p := Pow2(k);
    var c := CeilShift(d, k);
    assert d + p - 1 == c * p + (d + p - 1) % p;
    if q >= c {
      assert q * p >= c * p by { MulMonotone(c, q, p); }
    } else {
      assert (c - 1) * p >= q * p by { MulMonotone(q, c - 1, p); }
      assert (c - 1) * p == c * p - p;
    }
  }

  lemma MulMonotone(a: nat, b: nat, p: nat)
    requires a <= b
    ensures a * p <= b * p
  {
  }

  lemma CeilShiftHalve(d: nat, k: nat)
    ensures CeilShift(d, k + 1) == (CeilShift(d, k) + 1) / 2
  {
    var c := CeilShift(d, k + 1);
    var h := (CeilShift(d, k) + 1) / 2;
    assert forall q: nat :: q * Pow2(k + 1) == (2 * q) * Pow2(k);
    CeilShiftLeast(d, k + 1, c);
    CeilShiftLeast(d, k, 2 * c);
    CeilShiftLeast(d, k + 1, h);
    CeilShiftLeast(d, k, 2 * h);
  }

  /**
    AIMD forgets its start: fed the same signals, two congestion windows that began d apart
    are at most d / 2^k apart (rounded up) after k retries, and neither drops below one.
   */
  lemma {:induction false} WindowsConverge(a: Congestion, b: Congestion, signals: seq<Signal>)
    requires a.congestionWin >= 1 && b.congestionWin >= 1 && a.mtu == b.mtu
    ensures var a', b' := Feed(a, signals), Feed(b, signals);
            && a'.congestionWin >= 1 && b'.congestionWin >= 1 && a'.mtu == b'.mtu == a.mtu
            && Gap(a'.congestionWin, b'.congestionWin)
               <= CeilShift(Gap(a.congestionWin, b.congestionWin), Retries(signals))
  {
    if |signals| == 0 {
    } else {
      var init := signals[..|signals| - 1];
      WindowsConverge(a, b, init);
      CeilShiftHalve(Gap(a.congestionWin, b.congestionWin), Retries(init));
    }
  }

  lemma DivideTwice(n: nat, p: nat)
    requires p > 0
    ensures (n / p) / 2 == n / (2 * p)
  {
    var q := n / p;
    assert n == p * q + n % p;
    var h := q / 2;
    assert p * q == (2 * p) * h + p * (q % 2);
    assert q % 2 == 0 || q % 2 == 1;
    assert 0 <= n - (2 * p) * h < 2 * p;
    QuotientUnique(n, 2 * p, h);
  }

  lemma QuotientUnique(n: nat, d: nat, h: nat)
    requires d > 0 && 0 <= n - d * h < d
    ensures n / d == h
  {
    var q := n / d;
    assert n == d * q + n % d;
    if q < h {
      MulMonotone(q + 1, h, d);
    } else if h < q {
      MulMonotone(h + 1, q, d);
    }
  }

  /** k retries in a row divide the congestion window by 2^k, but never take it below one. */
  lemma {:induction false} RetriesDivide(c: Congestion, signals: seq<Signal>)
    requires c.congestionWin >= 1
    requires forall i :: 0 <= i < |signals| ==> signals[i].Retry?
    ensures var n := c.congestionWin / Pow2(|signals|);
            Feed(c, signals) == c.(congestionWin := if n < 1 then 1 else n)
  {
    if |signals| == 0 {
    } else {
      RetriesDivide(c, signals[..|signals| - 1]);
      DivideTwice(c.congestionWin, Pow2(|signals| - 1));
    }
  }

  /** n acknowledgements in a row add n MTUs and leave the window the last one advertised. */
  lemma {:induction false} AcksAdd(c: Congestion, signals: seq<Signal>)
    requires |signals| > 0 && forall i :: 0 <= i < |signals| ==> signals[i].AckHeard?
    ensures Feed(c, signals)
            == Congestion(signals[|signals| - 1].windowSz, c.congestionWin + |signals| * c.mtu, c.mtu)
  {
    var init := signals[..|signals| - 1];
    if |init| == 0 {
    } else {
      AcksAdd(c, init);
    }
    assert |init| * c.mtu + c.mtu == |signals| * c.mtu;
  }
}
