/** The duplicate-acknowledgement counter (`fast_retransmit`, src/tcp_proto_output.h). */
module FastRetransmit {
  import opened SequenceWindows

  const FAST_RETRANSMIT_BOUND: nat := 4

  datatype DupCounter = DupCounter(last: Wire, cnt: nat) {
    /** Whether counting `seqno` triggers a retransmission. */
    predicate Fires(seqno: Wire) {
      cnt != 0 && seqno == last && cnt + 1 >= FAST_RETRANSMIT_BOUND
    }

    function Count(seqno: Wire): DupCounter {
      if cnt == 0 then DupCounter(seqno, 1)
      else if seqno == last then
        if cnt + 1 >= FAST_RETRANSMIT_BOUND then DupCounter(last, 0) else DupCounter(last, cnt + 1)
      else DupCounter(seqno, 1)
    }
  }

  class FastRetransmitter {
    var last: Wire
    var cnt: nat

    function View(): DupCounter
      reads this
    {
      DupCounter(last, cnt)
    }

    constructor ()
      ensures View().cnt == 0
    {
      last, cnt := 0, 0;
    }

    method OnAck(seqno: Wire) returns (retry: bool)
      modifies this
      ensures View() == old(View()).Count(seqno)
      ensures retry == old(View()).Fires(seqno)
    {
      retry := false;
      if cnt == 0 {
        last := seqno;
        cnt := 1;
      } else if seqno == last {
        cnt := cnt + 1;
        if cnt >= FAST_RETRANSMIT_BOUND {
          cnt := 0;
          retry := true;
        }
      } else {
        cnt := 1;
        last := seqno;
      }
    }
  }

  /** Retransmissions triggered by a sequence of duplicate acknowledgements. */
  function Retransmits(c: DupCounter, acks: seq<Wire>): nat
    decreases |acks|
  {
    if |acks| == 0 then 0
    else (if c.Fires(acks[0]) then 1 else 0) + Retransmits(c.Count(acks[0]), acks[1..])
  }

  /** Length of the run of equal numbers that `acks` starts with. */
  function FirstRun(acks: seq<Wire>): (n: nat)
    ensures n <= |acks|
    ensures |acks| > 0 ==> n > 0
    ensures forall i :: 0 <= i < n ==> acks[i] == acks[0]
    ensures n < |acks| ==> acks[n] != acks[0]
  {
    if |acks| == 0 then 0
    else if |acks| == 1 || acks[1] != acks[0] then 1
    else 1 + FirstRun(acks[1..])
  }

  /** The sum, over maximal runs of equal numbers, of the run length divided by four. */
  function RunQuotients(acks: seq<Wire>): nat
    decreases |acks|
  {
    if |acks| == 0 then 0
    else FirstRun(acks) / 4 + RunQuotients(acks[FirstRun(acks)..])
  }

  /** Counting a run whose first `cnt` members have been counted already. */
  lemma {:induction false} RunFires(c: DupCounter, acks: seq<Wire>, n: nat) returns (c': DupCounter)
    requires c.cnt < FAST_RETRANSMIT_BOUND
    requires n <= |acks|
    requires forall i :: 0 <= i < n ==> acks[i] == acks[0]
    requires c.cnt != 0 && n > 0 ==> acks[0] == c.last
    ensures c'.cnt < FAST_RETRANSMIT_BOUND
    ensures c'.cnt != 0 && n > 0 ==> c'.last == acks[0]
    ensures n == 0 ==> c' == c
    ensures Retransmits(c, acks) == (c.cnt + n) / FAST_RETRANSMIT_BOUND + Retransmits(c', acks[n..])
    decreases n
  {
    if n == 0 {
      assert acks[0..] == acks;
      c' := c;
    } else {
      c' := RunFires(c.Count(acks[0]), acks[1..], n - 1);
      assert acks[1..][n - 1..] == acks[n..];
    }
  }

  lemma {:induction false} FreshRun(c: DupCounter, acks: seq<Wire>)
    requires c.cnt < FAST_RETRANSMIT_BOUND
    requires |acks| > 0 && c.cnt != 0 ==> acks[0] != c.last
    ensures Retransmits(c, acks) == RunQuotients(acks)
    decreases |acks|
  {
    if |acks| == 0 {
    } else {
      // A counter at zero and one holding another number treat the next one alike.
      var zero := DupCounter(acks[0], 0);
      assert c.Count(acks[0]) == zero.Count(acks[0]) && !c.Fires(acks[0]) && !zero.Fires(acks[0]);
      var n := FirstRun(acks);
      var c' := RunFires(zero, acks, n);
      FreshRun(c', acks[n..]);
    }
  }

  /** From a clear counter, every maximal run of k equal duplicates triggers k / 4 retransmissions. */
  lemma RetransmitsPerRun(last: Wire, acks: seq<Wire>)
    ensures Retransmits(DupCounter(last, 0), acks) == RunQuotients(acks)
  {
    FreshRun(DupCounter(last, 0), acks);
  }
}
