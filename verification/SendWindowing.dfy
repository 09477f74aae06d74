/**
  The cumulative send window (`send_cumulative_window_processing`, src/tcp_proto_output.h).

  `Sender` and the functions on it say what the window does to the plain queue of segments;
  `SendCumulativeWindow` does it in place over the packed record log.
 */
module SendWindowing {
  import opened SequenceWindows
  import opened SendLog

  datatype Sender = Sender(win: SendWindow, log: seq<Record>) {
    predicate Outstanding(t: nat) {
      t < |log| && win.off <= log[t].off
    }

    /** Segment `t` is the oldest outstanding one that waits for transmission. */
    predicate IsNextPick(t: nat) {
      && Outstanding(t)
      && !log[t].used
      && forall j :: 0 <= j < t && Outstanding(j) ==> log[j].used
    }

    predicate AllUsed() {
      forall j :: 0 <= j < |log| && Outstanding(j) ==> log[j].used
    }

    /** The segment does not fit the rest of the window. */
    predicate Drops(len: nat) {
      win.SentSz() < len
    }

    function Put(data: seq<Byte>, future: nat): Sender {
      Sender(win.(sentOff := win.sentOff + |data|),
             log + [Record(win.sentOff, Trunc(win.SentBegin()), data, false, future)])
    }

    function Mark(t: nat, used: bool): Sender
      requires t < |log|
    {
      this.(log := log[t := log[t].(used := used)])
    }

    /** Make the segment that starts at window offset `off` available for transmission again. */
    function RetryAt(off: nat): Sender {
      this.(log := seq(|log|, i requires 0 <= i < |log| =>
                         if log[i].off == off then log[i].(used := false) else log[i]))
    }

    function Retry(seqno: Wire): Sender {
      RetryAt(win.InMsgOff(seqno) + win.off)
    }

    /** The window after an acknowledgement that lies in it; a used-up window gives way to the next. */
    function Acknowledge(seqno: Wire): Sender {
      var win' := win.SetOffFromSeq(seqno);
      if win'.Range().GetSz() == 0 then Sender(win'.NextWindow(), []) else Sender(win', log)
    }

    /** The futures that acknowledgement notifies. */
    function Notified(seqno: Wire): seq<nat> {
      ReleasedFutures(log, win.off, win.SetOffFromSeq(seqno).off)
    }
  }

  /** The first `i` segments are acknowledged, the others fill the window up to `sentOff`. */
  ghost predicate SenderOk(s: Sender, i: nat) {
    && LogOk(s.log)
    && i <= |s.log|
    && s.win.sz == WINDOW_SZ
    && s.win.off == OffAt(s.log, i)
    && s.win.off < s.win.sz
    && s.win.sentOff == Total(s.log) <= s.win.sz
    && forall t :: 0 <= t < |s.log| ==> s.log[t].seqno == Trunc(s.win.start + s.log[t].off)
  }

  lemma OutstandingFrom(s: Sender, i: nat, t: nat)
    requires SenderOk(s, i) && t < |s.log|
    ensures s.Outstanding(t) <==> i <= t
    ensures s.win.Empty() <==> i == |s.log|
  {
    if i < t { OffAtMonotone(s.log, i, t); }
    if t < i { OffAtMonotone(s.log, t, i); }
    if i < |s.log| { OffAtMonotone(s.log, i, |s.log|); }
  }

  lemma DistinctOffsets(log: seq<Record>, t: nat)
    requires LogOk(log) && t < |log|
    ensures forall j :: 0 <= j < |log| && j != t ==> log[j].off != log[t].off
  {
    forall j | 0 <= j < |log| && j != t
      ensures log[j].off != log[t].off
    {
      if j < t { OffAtMonotone(log, j, t); } else { OffAtMonotone(log, t, j); }
    }
  }

  lemma RetryOffset(s: Sender, i: nat, t: nat)
    requires SenderOk(s, i) && i <= t < |s.log|
    ensures s.win.InMsgOff(s.log[t].seqno) + s.win.off == s.log[t].off
  {
    OutstandingFrom(s, i, t);
    OffAtMonotone(s.log, t, |s.log|);
    InMsgOffIsLift(s.win, s.log[t].seqno);
    LiftUnique(s.win.Begin(), s.win.start + s.log[t].off);
  }

  /** The wire number of an outstanding segment leads back to exactly that segment. */
  lemma RetryFinds(s: Sender, i: nat, t: nat)
    requires SenderOk(s, i) && i <= t < |s.log|
    ensures s.win.InMsgOff(s.log[t].seqno) + s.win.off == s.log[t].off
    ensures s.Retry(s.log[t].seqno) == s.Mark(t, false)
  {
    RetryOffset(s, i, t);
    RetryAtFinds(s, t);
  }

  lemma RetryAtFinds(s: Sender, t: nat)
    requires LogOk(s.log) && t < |s.log|
    ensures s.RetryAt(s.log[t].off) == s.Mark(t, false)
  {
    DistinctOffsets(s.log, t);
    assert s.RetryAt(s.log[t].off).log == s.Mark(t, false).log;
  }

  lemma PutKeepsOk(s: Sender, i: nat, data: seq<Byte>, future: nat)
    requires SenderOk(s, i) && |data| > 0 && !s.Drops(|data|)
    ensures SenderOk(s.Put(data, future), i)
  {
    var r := Record(s.win.sentOff, Trunc(s.win.SentBegin()), data, false, future);
    LogOkAppend(s.log, r);
    OffAtStable(s.log, r, i);
  }

  lemma MarkKeepsOk(s: Sender, i: nat, t: nat, used: bool)
    requires SenderOk(s, i) && t < |s.log|
    ensures SenderOk(s.Mark(t, used), i)
  {
    MarkKeepsLog(s.log, t, used);
  }

  lemma AcknowledgeKeepsOk(s: Sender, i: nat, seqno: Wire, j: nat)
    requires SenderOk(s, i)
    requires i < j <= |s.log| && s.win.SetOffFromSeq(seqno).off == OffAt(s.log, j)
    ensures SenderOk(s.Acknowledge(seqno), if OffAt(s.log, j) == WINDOW_SZ then 0 else j)
    ensures s.Notified(seqno) == FuturesOf(s.log, i, j)
  {
    OffAtBound(s.log, j);
    ReleasedSlice(s.log, i, j);
  }

  // ---------------------------------------------------------------- order of transmission

  /** A run of picks with no retry between them. */
  ghost predicate PickRun(s: Sender, picks: seq<nat>, s': Sender)
    decreases |picks|
  {
    if |picks| == 0 then s' == s
    else s.IsNextPick(picks[0]) && PickRun(s.Mark(picks[0], true), picks[1..], s')
  }

  /**
    Between retries every segment is picked at most once, in order, and none is passed over:
    the picks increase, and afterwards a segment waits exactly if it waited before and was not picked.
   */
  lemma {:induction false} PicksInOrder(s: Sender, picks: seq<nat>, s': Sender)
    requires PickRun(s, picks, s')
    ensures s'.win == s.win && |s'.log| == |s.log|
    ensures forall a, b :: 0 <= a < b < |picks| ==> picks[a] < picks[b]
    ensures forall a :: 0 <= a < |picks| ==> s.Outstanding(picks[a]) && !s.log[picks[a]].used
    ensures forall t :: 0 <= t < |s.log| ==> s'.log[t] == s.log[t].(used := s.log[t].used || t in picks)
    ensures forall a, t :: 0 <= a < |picks| && 0 <= t < picks[a] && s.Outstanding(t) && !s.log[t].used ==> t in picks
    decreases |picks|
  {
    if |picks| == 0 {
    } else {
      var s1 := s.Mark(picks[0], true);
      PicksInOrder(s1, picks[1..], s');
      forall t | t in picks
        ensures t == picks[0] || t in picks[1..]
      {
      }
      forall b | 1 <= b < |picks|
        ensures picks[0] < picks[b] && s.Outstanding(picks[b]) && !s.log[picks[b]].used
      {
        assert picks[b] == picks[1..][b - 1];
        assert s1.Outstanding(picks[b]) && !s1.log[picks[b]].used;
      }
      forall a, t | 0 <= a < |picks| && 0 <= t < picks[a] && s.Outstanding(t) && !s.log[t].used
        ensures t in picks
      {
        if a > 0 && t != picks[0] {
          assert picks[a] == picks[1..][a - 1];
          assert s1.Outstanding(t) && !s1.log[t].used;
        }
      }
    }
  }

  // ---------------------------------------------------------------- in place

  class SendCumulativeWindow {
    var win: SendWindow
    const sent: SendOutputBuffer
    var puts: nat
    ghost var first: nat

    ghost function View(): Sender
      reads this, sent
    {
      Sender(win, sent.log)
    }

    ghost predicate Valid()
      reads this, sent, sent.offMap
    {
      sent.Valid() && SenderOk(View(), first)
    }

    constructor (header: nat)
      requires header <= MAX_HEADER
      ensures Valid() && fresh(sent) && fresh(sent.offMap)
      ensures View() == Sender(SendWindow(0, 0, 0, WINDOW_SZ), []) && first == 0 && puts == 0
      ensures sent.signalled == [] && sent.header == header
    {
      win := SendWindow(0, 0, 0, WINDOW_SZ);
      sent := new SendOutputBuffer(header);
      puts, first := 0, 0;
    }

    /** Called once, before anything is queued: the window moves to the start the handshake agreed on. */
    method ForceMoveStart(startSeq: Wire)
      requires Valid() && sent.log == []
      modifies this`win, this`first
      ensures Valid()
      ensures View() == Sender(SendWindow(startSeq, 0, 0, WINDOW_SZ), [])
    {
      win := SendWindow(startSeq, 0, 0, win.sz);
      first := 0;
    }

    /** Queue a segment, or report `None` where the source throws `drop`. */
    method Send(data: seq<Byte>) returns (future: Option<nat>)
      requires Valid() && |data| > 0
      modifies this`win, this`puts, sent, sent.offMap
      ensures Valid() && sent.signalled == old(sent.signalled)
      ensures future.None? <==> old(View()).Drops(|data|)
      ensures future.None? ==> View() == old(View()) && puts == old(puts)
      ensures future.Some? ==> future.value == old(puts) && puts == old(puts) + 1
      ensures future.Some? ==> View() == old(View()).Put(data, old(puts))
    {
      if win.SentSz() < |data| {
        return None;
      }
      PutKeepsOk(View(), first, data, puts);
      var f := sent.PutMsgAt(win.sentOff, Record(win.sentOff, Trunc(win.SentBegin()), data, false, puts));
      win := win.(sentOff := win.sentOff + |data|);
      puts := puts + 1;
      future := Some(f);
      assert View() == old(View()).Put(data, old(puts));
    }

    /** Make the outstanding segment numbered `seqno` available again: that segment and no other. */
    method Retry(seqno: Wire, ghost t: nat)
      requires Valid() && first <= t < |sent.log| && seqno == sent.log[t].seqno
      modifies sent
      ensures Valid() && sent.signalled == old(sent.signalled)
      ensures View() == old(View()).Retry(seqno) == old(View()).Mark(t, false)
    {
      RetryFinds(View(), first, t);
      var handle := sent.GetMsgAt(win.InMsgOff(seqno) + win.off, t);
      MarkKeepsOk(View(), first, t, false);
      sent.MarkUsed(handle, false, t);
      assert View() == old(View()).Mark(t, false);
    }

    /** The wire number of the oldest outstanding segment. */
    method OldestSeq() returns (seqno: Wire)
      requires Valid() && first < |sent.log|
      ensures seqno == sent.log[first].seqno
    {
      var handle := sent.GetMsgAt(win.off, first);
      seqno := sent.mem[handle].seqno;
    }

    /**
      An acknowledgement in the window advances it and notifies the futures of the segments it
      covers; `prev` reports a duplicate acknowledgement while something is outstanding.
      `j` is the boundary the acknowledgement falls on.
     */
    method OnAck(seqno: Wire, ghost j: nat) returns (prev: bool)
      requires Valid()
      requires win.InWin(seqno) ==>
                 first < j <= |sent.log| && win.SetOffFromSeq(seqno).off == OffAt(sent.log, j)
      modifies this`win, this`first, sent, sent.offMap
      ensures Valid()
      ensures prev <==> !old(win).InWin(seqno) && old(win).InPrevWin(seqno) && !old(win).Empty()
      ensures old(win).InWin(seqno) ==>
                && View() == old(View()).Acknowledge(seqno)
                && sent.signalled == old(sent.signalled) + old(View()).Notified(seqno)
      ensures !old(win).InWin(seqno) ==>
                View() == old(View()) && first == old(first) && sent.signalled == old(sent.signalled)
    {
      prev := false;
      if win.InWin(seqno) {
        AcknowledgeKeepsOk(View(), first, seqno, j);
        var oldOff := win.off;
        win := win.SetOffFromSeq(seqno);
        sent.ReleaseRange(oldOff, win.off - 1, first, j);
        first := j;
        if win.Range().GetSz() == 0 {
          win := win.NextWindow();
          first := 0;
          sent.Refresh();
        }
        assert View() == old(View()).Acknowledge(seqno);
      } else if win.InPrevWin(seqno) {
        prev := !win.Empty();
      }
    }

    /** Walk the log from the window's begin to the oldest segment waiting for transmission. */
    method FindUnused() returns (handle: Option<nat>, ghost t: nat)
      requires Valid()
      ensures handle.None? <==> View().AllUsed()
      ensures handle.Some? ==> View().IsNextPick(t) && handle.value == sent.reals[t]
    {
      t := first;
      handle := None;
      var off := win.off;
      forall j: nat | j < first
        ensures !View().Outstanding(j)
      {
        OutstandingFrom(View(), first, j);
      }
      while off < win.sentOff
        invariant first <= t <= |sent.log|
        invariant off == OffAt(sent.log, t)
        invariant forall j :: 0 <= j < t && View().Outstanding(j) ==> sent.log[j].used
        decreases |sent.log| - t
      {
        OutstandingFrom(View(), first, t);
        OffAtMonotone(sent.log, t, t + 1);
        var h := sent.GetMsgAt(off, t);
        if !sent.mem[h].used {
          return Some(h), t;
        }
        off := off + |sent.mem[h].data|;
        t := t + 1;
      }
      if t < |sent.log| {
        OffAtMonotone(sent.log, t, |sent.log|);
      }
    }

    /** Pick the oldest segment waiting for transmission; `None` (the source's time-out) exactly when there is none. */
    method NextMsg() returns (handle: Option<nat>, ghost t: nat)
      requires Valid()
      modifies sent
      ensures Valid() && sent.signalled == old(sent.signalled)
      ensures handle.None? <==> old(View()).AllUsed()
      ensures handle.None? ==> View() == old(View())
      ensures handle.Some? ==> old(View()).IsNextPick(t) && View() == old(View()).Mark(t, true)
      ensures handle.Some? ==> handle.value in sent.mem && sent.mem[handle.value] == sent.log[t]
    {
      handle, t := FindUnused();
      if handle.Some? {
        MarkKeepsOk(View(), first, t, true);
        sent.MarkUsed(handle.value, true, t);
        assert sent.reals[t] in sent.mem;
        assert View() == old(View()).Mark(t, true);
      }
    }
  }

  lemma OffAtBound(log: seq<Record>, j: nat)
    requires LogOk(log) && j <= |log|
    ensures OffAt(log, j) <= Total(log)
  {
    if j < |log| { OffAtMonotone(log, j, |log|); }
  }

  lemma OffAtStable(log: seq<Record>, r: Record, i: nat)
    requires i <= |log| && r.off == Total(log)
    ensures OffAt(log + [r], i) == OffAt(log, i)
  {
  }
}
