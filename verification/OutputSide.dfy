/** How the sender's parts act together on an acknowledgement and on a retry (src/newimpl.cpp). */
module OutputSide {
  import opened SequenceWindows
  import opened SendLog
  import opened SendWindowing
  import opened CongestionControl
  import opened FastRetransmit

  datatype Output = Output(snd: Sender, cc: Congestion, fr: DupCounter) {
    function OnRetry(seqno: Wire): Output {
      this.(snd := snd.Retry(seqno), cc := cc.OnRetry())
    }

    predicate Duplicate(seqno: Wire) {
      !snd.win.InWin(seqno) && snd.win.InPrevWin(seqno) && !snd.win.Empty()
    }

    /** The fourth duplicate in a row makes the oldest outstanding segment available again. */
    function OnDuplicate(seqno: Wire): Output {
      var counted := this.(fr := fr.Count(seqno));
      if fr.Fires(seqno) then counted.(snd := snd.RetryAt(snd.win.off), cc := cc.OnRetry()) else counted
    }

    function OnAck(ack: Ack): Output {
      var heard := this.(cc := cc.OnAck(ack.windowSz));
      if snd.win.InWin(ack.seqno) then heard.(snd := snd.Acknowledge(ack.seqno))
      else if Duplicate(ack.seqno) then heard.OnDuplicate(ack.seqno)
      else heard
    }

    /** The futures the acknowledgement notifies. */
    function Notified(ack: Ack): seq<nat> {
      if snd.win.InWin(ack.seqno) then snd.Notified(ack.seqno) else []
    }
  }

  class OutputProcessing {
    const window: SendCumulativeWindow
    const congestion: CongestionWindowControl
    const retransmit: FastRetransmitter

    ghost function View(): Output
      reads window, window.sent, congestion, retransmit
    {
      Output(window.View(), congestion.View(), retransmit.View())
    }

    ghost predicate Valid()
      reads window, window.sent, window.sent.offMap
    {
      window.Valid()
    }

    constructor (header: nat, mtu: nat)
      requires header <= MAX_HEADER
      ensures Valid() && fresh(window) && window.sent.log == []
      ensures window.sent.header == header && window.sent.signalled == []
      ensures View() == Output(Sender(SendWindow(0, 0, 0, WINDOW_SZ), []),
                               Congestion(WINDOW_SZ, CONGESTION_START_SZ, mtu), retransmit.View())
      ensures retransmit.View().cnt == 0
    {
      window := new SendCumulativeWindow(header);
      congestion := new CongestionWindowControl(mtu);
      retransmit := new FastRetransmitter();
    }

    /** Halve the congestion window and make the segment numbered `seqno` available again. */
    method OnRetry(seqno: Wire, ghost t: nat)
      requires Valid() && window.first <= t < |window.sent.log| && seqno == window.sent.log[t].seqno
      modifies congestion, window.sent
      ensures Valid()
      ensures View() == old(View()).OnRetry(seqno)
      ensures View().snd == old(View()).snd.Mark(t, false)
      ensures window.sent.signalled == old(window.sent.signalled)
    {
      congestion.OnRetry();
      window.Retry(seqno, t);
    }

    method OnAck(ack: Ack, ghost j: nat)
      requires Valid()
      requires window.win.InWin(ack.seqno) ==>
                 && window.first < j <= |window.sent.log|
                 && window.win.SetOffFromSeq(ack.seqno).off == OffAt(window.sent.log, j)
      modifies window, window.sent, window.sent.offMap, congestion, retransmit
      ensures Valid()
      ensures View() == old(View()).OnAck(ack)
      ensures window.sent.signalled == old(window.sent.signalled) + old(View()).Notified(ack)
    {
      congestion.OnAck(ack.windowSz);
      var prev := window.OnAck(ack.seqno, j);
      if prev {
        OnDuplicate(ack.seqno);
      }
    }

    /** Count a duplicate acknowledgement; a fast retransmission targets the oldest outstanding segment. */
    method OnDuplicate(seqno: Wire)
      requires Valid() && !window.win.Empty()
      modifies window.sent, congestion, retransmit
      ensures Valid()
      ensures View() == old(View()).OnDuplicate(seqno)
      ensures window.sent.signalled == old(window.sent.signalled)
    {
      ghost var i := window.first;
      assert i < |window.sent.log| && window.sent.log[i].off == window.win.off;
      RetryFinds(window.View(), i, i);
      var oldest := window.OldestSeq();
      var retry := retransmit.OnAck(seqno);
      if retry {
        OnRetry(oldest, i);
      }
    }
  }
}
