/** The retransmission time-out (`timeout_computing`, src/tcp_proto_output.h; section 2 of RFC 6298). */
module RetransmitTimeout {

  const START_TIMEOUT: nat := 3000
  const GRANULARITY: nat := 300
  const K: nat := 4

  function Abs(x: int): nat {
    if x < 0 then -x else x
  }

  function Max(a: int, b: int): int {
    if a < b then b else a
  }

  /** The weighted mean the code computes in floating point, truncated on assignment. */
  function Blend(weight: real, old_: nat, sample: nat): int {
    ((1.0 - weight) * (old_ as real) + weight * (sample as real)).Floor
  }

  datatype Estimator = Estimator(srtt: nat, rttvar: nat, nm: nat) {
    function Sample(r: nat): Estimator {
      if nm == 0 then Estimator(r, r / 2, 1)
      else Estimator((7 * srtt + r) / 8, (3 * rttvar + Abs(srtt - r)) / 4, nm + 1)
    }

    function Timeout(): nat {
      if nm == 0 then START_TIMEOUT else srtt + Max(GRANULARITY, K * rttvar)
    }

    function Samples(rs: seq<nat>): Estimator {
      if |rs| == 0 then this else Samples(rs[..|rs| - 1]).Sample(rs[|rs| - 1])
    }
  }

  lemma BlendExact(old_: nat, sample: nat)
    ensures Blend(0.125, old_, sample) == (7 * old_ + sample) / 8
    ensures Blend(0.25, old_, sample) == (3 * old_ + sample) / 4
  {
    var a := (1.0 - 0.125) * (old_ as real) + 0.125 * (sample as real);
    assert 8.0 * a == (7 * old_ + sample) as real;
    var b := (1.0 - 0.25) * (old_ as real) + 0.25 * (sample as real);
    assert 4.0 * b == (3 * old_ + sample) as real;
  }

  class TimeoutComputing {
    var srtt: nat
    var rttvar: nat
    var nm: nat

    function View(): Estimator
      reads this
    {
      Estimator(srtt, rttvar, nm)
    }

    constructor ()
      ensures View().nm == 0
    {
      srtt, rttvar, nm := 0, 0, 0;
    }

    method ComputeTimeout(r: nat)
      modifies this
      ensures nm == old(nm) + 1
      ensures old(nm) == 0 ==> srtt == r && rttvar == r / 2
      ensures old(nm) > 0 ==> 8 * srtt <= 7 * old(srtt) + r < 8 * srtt + 8
      ensures old(nm) > 0 ==> 4 * rttvar <= 3 * old(rttvar) + Abs(old(srtt) - r) < 4 * rttvar + 4
      ensures View() == old(View()).Sample(r)
    {
      if nm == 0 {
        srtt := r;
        rttvar := r / 2;
      } else {
        BlendExact(rttvar, Abs(srtt - r));
        BlendExact(srtt, r);
        rttvar := Blend(0.25, rttvar, Abs(srtt - r));
        srtt := Blend(0.125, srtt, r);
      }
      nm := nm + 1;
    }
  }

  /** Three seconds before any sample; then the smoothed time and the larger of 300 and four variances. */
  lemma TimeoutIs(e: Estimator)
    ensures e.nm == 0 ==> e.Timeout() == 3000
    ensures e.nm > 0 ==> e.Timeout() >= e.srtt + 300 && e.Timeout() >= e.srtt + 4 * e.rttvar
    ensures e.nm > 0 ==> e.Timeout() == e.srtt + 300 || e.Timeout() == e.srtt + 4 * e.rttvar
  {
  }

  // ---------------------------------------------------------------- bounded samples

  /**
    Samples that all lie in [lo, hi] keep the smoothed time in [lo, hi] and the time-out between
    lo + 300 and hi + max(300, 4 max(hi/2, hi-lo)).
   */
  lemma {:induction false} SamplesBound(e: Estimator, rs: seq<nat>, lo: nat, hi: nat)
    requires e.nm == 0 && |rs| > 0
    requires forall i :: 0 <= i < |rs| ==> lo <= rs[i] <= hi
    ensures var e' := e.Samples(rs);
            && e'.nm == |rs|
            && lo <= e'.srtt <= hi
            && e'.rttvar <= Max(hi / 2, hi - lo)
            && lo + GRANULARITY <= e'.Timeout() <= hi + Max(GRANULARITY, K * Max(hi / 2, hi - lo))
  {
    var init := rs[..|rs| - 1];
    if |rs| > 1 {
      SamplesBound(e, init, lo, hi);
    } else {
      assert e.Samples(init) == e;
    }
  }

  // ---------------------------------------------------------------- convergence

  function Repeated(e: Estimator, r: nat, n: nat): Estimator
    decreases n
  {
    if n == 0 then e else Repeated(e.Sample(r), r, n - 1)
  }

  predicate Close(e: Estimator, r: nat) {
    r - 7 <= e.srtt <= r
  }

  lemma SampleError(e: Estimator, r: nat)
    requires e.nm > 0
    ensures var e' := e.Sample(r);
            && e'.nm > 0
            && Abs(e'.srtt - r) <= Abs(e.srtt - r)
            && (Close(e', r) || Abs(e'.srtt - r) < Abs(e.srtt - r))
            && (Close(e, r) ==> Close(e', r))
            && e'.rttvar <= Max(e.rttvar, Abs(e.srtt - r))
            && (Close(e, r) && e.rttvar > 7 ==> e'.rttvar < e.rttvar)
  {
  }

  /** The error shrinks by at least one a sample until it is below eight, and the variance follows it. */
  lemma {:induction false} RepeatedError(e: Estimator, r: nat, n: nat)
    requires e.nm > 0
    ensures var e' := Repeated(e, r, n);
            && e'.nm > 0
            && Abs(e'.srtt - r) <= Abs(e.srtt - r)
            && (Close(e', r) || Abs(e'.srtt - r) + n <= Abs(e.srtt - r))
            && (Close(e, r) ==> Close(e', r))
            && e'.rttvar <= Max(e.rttvar, Abs(e.srtt - r))
    decreases n
  {
    if n == 0 {
    } else {
      SampleError(e, r);
      RepeatedError(e.Sample(r), r, n - 1);
    }
  }

  function Power(b: nat, n: nat): nat {
    if n == 0 then 1 else b * Power(b, n - 1)
  }

  lemma ScaleBounds(p: nat, lo: int, x: int, hi: int)
    requires lo <= x <= hi
    ensures p * lo <= p * x <= p * hi
  {
  }

  lemma SampleScaled(e: Estimator, r: nat)
    requires e.nm > 0
    ensures var d, d' := e.srtt - r, e.Sample(r).srtt - r; 7 * d - 7 <= 8 * d' <= 7 * d
  {
  }

  /**
    Under equal samples the signed error of the smoothed time is multiplied by 7/8 each time and rounded down:
    after n of them it lies between (7/8)^n (d + 7) - 7 and (7/8)^n d.
   */
  lemma {:induction false} ErrorDecays(e: Estimator, r: nat, n: nat)
    requires e.nm > 0
    ensures var d, d' := e.srtt - r, Repeated(e, r, n).srtt - r;
            Power(7, n) * (d + 7) - 7 * Power(8, n) <= Power(8, n) * d' <= Power(7, n) * d
    decreases n
  {
    if n == 0 {
    } else {
      var d, d1, d' := e.srtt - r, e.Sample(r).srtt - r, Repeated(e, r, n).srtt - r;
      var p, q := Power(7, n - 1), Power(8, n - 1);
      ErrorDecays(e.Sample(r), r, n - 1);
      SampleScaled(e, r);
      ScaleBounds(p, 7 * d - 7, 8 * d1, 7 * d);
      DecayStep(p, q, d, d1, d');
    }
  }

  lemma DecayStep(p: nat, q: nat, d: int, d1: int, d': int)
    requires p * (d1 + 7) - 7 * q <= q * d' <= p * d1
    requires p * (7 * d - 7) <= p * (8 * d1) <= p * (7 * d)
    ensures (7 * p) * (d + 7) - 7 * (8 * q) <= (8 * q) * d' <= (7 * p) * d
  {
    assert p * (8 * d1) == 8 * (p * d1);
    assert p * (7 * d) == 7 * (p * d) && p * (7 * d - 7) == 7 * (p * d) - 7 * p;
    assert p * (d1 + 7) == p * d1 + 7 * p;
    assert (7 * p) * (d + 7) == 7 * (p * d) + 49 * p;
    assert (8 * q) * d' == 8 * (q * d');
  }

  lemma {:induction false} RepeatedVariance(e: Estimator, r: nat, n: nat)
    requires e.nm > 0 && Close(e, r)
    ensures var e' := Repeated(e, r, n);
            e'.nm > 0 && Close(e', r) && (e'.rttvar <= 7 || e'.rttvar + n <= e.rttvar)
    decreases n
  {
    if n == 0 {
    } else {
      SampleError(e, r);
      RepeatedVariance(e.Sample(r), r, n - 1);
    }
  }

  lemma {:induction false} RepeatedSplit(e: Estimator, r: nat, m: nat, n: nat)
    ensures Repeated(e, r, m + n) == Repeated(Repeated(e, r, m), r, n)
    decreases m
  {
    if m == 0 {
    } else {
      RepeatedSplit(e.Sample(r), r, m - 1, n);
    }
  }

  lemma ErrorGone(e: Estimator, r: nat)
    requires e.nm > 0
    ensures var e' := Repeated(e, r, Abs(e.srtt - r));
            e'.nm > 0 && Close(e', r) && e'.rttvar <= Abs(e.srtt - r) + e.rttvar
  {
    RepeatedError(e, r, Abs(e.srtt - r));
  }

  lemma SettledTimeout(e: Estimator, r: nat)
    requires e.nm > 0 && Close(e, r) && e.rttvar <= 7
    ensures r + 293 <= e.Timeout() <= r + 300
  {
  }

  lemma SettledSoon(e: Estimator, r: nat, n: nat)
    requires e.nm > 0 && Close(e, r) && e.rttvar <= n
    ensures r + 293 <= Repeated(e, r, n).Timeout() <= r + 300
  {
    RepeatedVariance(e, r, n);
    SettledTimeout(Repeated(e, r, n), r);
  }

  /**
    Fed the same sample R for good, the time-out settles in [R+293, R+300]: it is there after
    2|SRTT-R| + RTTVAR samples and at every later one.
   */
  lemma TimeoutConverges(e: Estimator, r: nat, n: nat)
    requires e.nm > 0
    requires n >= 2 * Abs(e.srtt - r) + e.rttvar
    ensures r + 293 <= Repeated(e, r, n).Timeout() <= r + 300
  {
    var m: nat := Abs(e.srtt - r);
    var k: nat := n - m;
    assert m + k == n && m + e.rttvar <= k;
    ErrorGone(e, r);
    RepeatedSplit(e, r, m, k);
    SettledSoon(Repeated(e, r, m), r, k);
  }
}
