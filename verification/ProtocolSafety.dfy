/** What holds in every reachable state of the protocol. */
module ProtocolSafety {
  import opened SequenceWindows
  import opened SendLog
  import opened SendWindowing
  import opened ReceiveWindowing
  import opened Protocol
  import opened ProtocolInvariant

  ghost predicate Reachable(s: State) {
    exists s0, events :: Init(s0) && Legal(s0, events) && After(s0, events) == s
  }

  /** Fewer than 2^32 - 1000 bytes have been given to `send`: sequence numbers do not repeat. */
  predicate Short(s: State) {
    |s.given| + WINDOW_SZ < MODULO
  }

  lemma {:induction false} RunInv(s: State, events: seq<Event>)
    requires Inv(s) && Legal(s, events) && Short(After(s, events))
    ensures Inv(After(s, events)) && |s.given| <= |After(s, events).given|
    decreases |events|
  {
    RunGrows(s, events);
    if |events| == 0 {
    } else {
      StepInv(s, events[0]);
      RunInv(Step(s, events[0]), events[1..]);
    }
  }

  lemma {:induction false} RunGrows(s: State, events: seq<Event>)
    requires Legal(s, events)
    ensures |s.given| <= |After(s, events).given|
    decreases |events|
  {
    if |events| == 0 {
    } else {
      RunGrows(Step(s, events[0]), events[1..]);
    }
  }

  lemma ReachableInv(s: State)
    requires Reachable(s) && Short(s)
    ensures Inv(s)
  {
    var s0, events :| Init(s0) && Legal(s0, events) && After(s0, events) == s;
    InitInv(s0);
    RunInv(s0, events);
  }

  lemma {:induction false} LegalConcat(s: State, a: seq<Event>, b: seq<Event>)
    requires Legal(s, a) && Legal(After(s, a), b)
    ensures Legal(s, a + b) && After(s, a + b) == After(After(s, a), b)
    decreases |a|
  {
    if |a| == 0 {
      assert a + b == b;
    } else {
      LegalConcat(Step(s, a[0]), a[1..], b);
      assert (a + b)[1..] == a[1..] + b;
    }
  }

  lemma LegalSingle(s: State, e: Event)
    requires Enabled(s, e)
    ensures Legal(s, [e]) && After(s, [e]) == Step(s, e)
  {
    var events := [e];
    assert events[1..] == [];
    assert Legal(Step(s, e), events[1..]) && After(Step(s, e), events[1..]) == Step(s, e);
  }

  lemma ReachableStep(s: State, e: Event)
    requires Reachable(s) && Enabled(s, e)
    ensures Reachable(Step(s, e))
  {
    var s0, before :| Init(s0) && Legal(s0, before) && After(s0, before) == s;
    LegalSingle(s, e);
    LegalConcat(s0, before, [e]);
  }

  // ---------------------------------------------------------------- delivery

  /** What the receiver holds is exactly the bytes of the segments it has accepted. */
  lemma StoredIsStream(s: State)
    requires Inv(s)
    ensures s.Stored() == s.stream[..s.cuts[s.accepted]]
  {
    forall k | 0 <= k < s.cuts[s.accepted]
      ensures s.Stored()[k] == s.stream[k]
    {
      if k >= |s.delivered| {
        var b := k - |s.delivered| + s.rcv.flushed;
        assert Unflushed(s.rcv)[k - |s.delivered|] == s.rcv.buf[b];
      }
    }
  }

  /** The bytes `recv` has handed over, and all those stored for it, are a prefix of the bytes given to `send`. */
  lemma PrefixDelivery(s: State)
    requires Reachable(s) && Short(s)
    ensures s.delivered <= s.Stored() <= s.given
  {
    ReachableInv(s);
    StoredIsStream(s);
    assert s.Stored()[..|s.delivered|] == s.delivered;
    assert s.given[..s.cuts[s.accepted]] == s.stream[..s.cuts[s.accepted]];
  }

  /** When `send` has returned, every byte given to it is stored at the receiver. */
  lemma ReturnedMeansStored(s: State)
    requires Reachable(s) && Short(s) && s.client.Idle?
    ensures s.Stored() == s.given
  {
    ReachableInv(s);
    EmptyMeansAcked(s);
    StoredIsStream(s);
  }

  /** Nothing is lost or invented on the way in, and every segment on the wire is a cut of the bytes given. */
  lemma SegmentsSpellGiven(s: State, g: Segment) returns (i: nat)
    requires Reachable(s) && Short(s) && g in s.segments
    ensures s.given == s.stream + s.client.Unsent()
    ensures i + 1 < |s.cuts| && s.cuts[i] < s.cuts[i + 1] <= |s.given|
    ensures g == Segment(Trunc(s.isn + s.cuts[i]), s.given[s.cuts[i]..s.cuts[i + 1]])
  {
    ReachableInv(s);
    i :| IsWire(g, s.isn, s.stream, s.cuts, i);
    assert g.data == s.given[s.cuts[i]..s.cuts[i + 1]];
  }

  // ---------------------------------------------------------------- positions

  /**
    As unreduced positions: initial number <= sender begin <= receiver begin <= sender end of sent data <=
    window end, and all of them far below 2^64; the receiver begin is a segment boundary.
   */
  lemma WindowOrder(s: State)
    requires Reachable(s) && Short(s)
    ensures var snd, rcv := s.out.snd.win, s.rcv.win;
            && s.isn <= snd.Begin() <= rcv.Begin() <= snd.SentBegin() <= snd.End() < 2 * MODULO
            && rcv.End() < 2 * MODULO + WINDOW_SZ
            && s.accepted < |s.cuts| && rcv.Begin() == s.isn + s.cuts[s.accepted]
  {
    ReachableInv(s);
    CutBound(s.stream, s.cuts, s.accepted);
    CutBound(s.stream, s.cuts, First(s));
    assert Acked(s) == s.accepted || Ordered(s.cuts, Acked(s), s.accepted);
    assert s.accepted == Queued(s) || Ordered(s.cuts, s.accepted, Queued(s));
  }

  /** No acknowledgement, however old or often delivered, moves the sender past what the receiver has stored. */
  lemma AckNeverOvertakes(s: State, ack: Ack)
    requires Reachable(s) && Short(s) && Enabled(s, DeliverAck(ack))
    ensures var s' := Step(s, DeliverAck(ack));
            s.out.snd.win.Begin() <= s'.out.snd.win.Begin() <= s.rcv.win.Begin()
  {
    ReachableInv(s);
    DeliverAckInv(s, ack);
    var s' := Step(s, DeliverAck(ack));
    AckGoesForward(s, ack);
    assert Acked(s') == s.accepted || Ordered(s.cuts, Acked(s'), s.accepted);
    assert Acked(s') == Acked(s) || Ordered(s.cuts, Acked(s), Acked(s'));
  }

  lemma AckGoesForward(s: State, ack: Ack)
    requires Inv(s) && Short(s) && Enabled(s, DeliverAck(ack))
    ensures Acked(s) <= Acked(Step(s, DeliverAck(ack)))
  {
  }

  /** An acknowledgement that the sender takes falls on a segment boundary, as the in-place window needs. */
  lemma AckFallsOnBoundary(s: State, ack: Ack) returns (j: nat)
    requires Reachable(s) && Short(s) && ack in s.acks && s.out.snd.win.InWin(ack.seqno)
    ensures First(s) <= Acked(s) && SenderOk(s.out.snd, Acked(s) - First(s))
    ensures Acked(s) - First(s) < j <= |s.out.snd.log|
    ensures s.out.snd.win.SetOffFromSeq(ack.seqno).off == OffAt(s.out.snd.log, j)
  {
    ReachableInv(s);
    QueueIsSender(s);
    j := AckBoundary(s, ack);
  }

  lemma BoundaryOffset(s: State, i: nat)
    requires Inv(s) && First(s) <= i <= Queued(s)
    ensures s.out.snd.win.start + OffAt(s.out.snd.log, i - First(s)) == s.isn + s.cuts[i]
  {
    PlacedOffAt(s.out.snd.log, s.isn, s.cuts, s.out.snd.win.start, i - First(s));
  }

  lemma AckBoundary(s: State, ack: Ack) returns (j: nat)
    requires Inv(s) && Short(s) && ack in s.acks && s.out.snd.win.InWin(ack.seqno)
    ensures Acked(s) - First(s) < j <= |s.out.snd.log|
    ensures s.out.snd.win.SetOffFromSeq(ack.seqno).off == OffAt(s.out.snd.log, j)
  {
    var i := AckIndex(s, ack);
    AckTakesTo(s, ack, i);
    BoundaryOffset(s, i);
    j := i - First(s);
  }

  /** A retry frees the record whose number it carries, if that is still outstanding, and otherwise nothing. */
  lemma RetryHitsNamedRecord(s: State, t: nat)
    requires Reachable(s) && Short(s) && t < |s.out.snd.log|
    ensures var s' := Step(s, TimeoutRetry(t));
            s'.out.snd == s.out.snd || (s.out.snd.Outstanding(t) && s'.out.snd == s.out.snd.Mark(t, false))
  {
    ReachableInv(s);
    QueueIsSender(s);
    var i := Acked(s) - First(s);
    OutstandingFrom(s.out.snd, i, t);
    if i <= t {
      RetryFinds(s.out.snd, i, t);
    } else {
      ReleasedIsOutside(s, t);
    }
  }

  lemma BeforeIsOutside(win: SendWindow, seqno: Wire, pos: nat, isn: Wire)
    requires seqno == Trunc(pos) && isn <= pos < win.Begin() <= win.End() < isn + MODULO
    ensures !win.InWin(seqno)
  {
    LandsAt(win, seqno, pos + 1, isn);
  }

  /** The number of a released record of the current window lies outside the window. */
  lemma ReleasedIsOutside(s: State, t: nat)
    requires Inv(s) && Short(s) && t < Acked(s) - First(s)
    ensures !s.out.snd.win.InWin(s.out.snd.log[t].seqno)
  {
    ReleasedPosition(s, t);
    BeforeIsOutside(s.out.snd.win, s.out.snd.log[t].seqno, s.out.snd.win.start + s.out.snd.log[t].off, s.isn);
  }

  lemma ReleasedPosition(s: State, t: nat)
    requires Inv(s) && Short(s) && t < Acked(s) - First(s)
    ensures var win, r := s.out.snd.win, s.out.snd.log[t];
            && r.seqno == Trunc(win.start + r.off)
            && s.isn <= win.start + r.off < win.Begin() <= win.End() < s.isn + MODULO
  {
    QueueIsSender(s);
    OffAtMonotone(s.out.snd.log, t, Acked(s) - First(s));
    CutBound(s.stream, s.cuts, First(s));
  }

  lemma OldestRetried(s: State)
    requires Inv(s) && Acked(s) < Queued(s)
    ensures s.out.snd.RetryAt(s.out.snd.win.off) == s.out.snd.Mark(Acked(s) - First(s), false)
  {
    QueueIsSender(s);
    RetryFinds(s.out.snd, Acked(s) - First(s), Acked(s) - First(s));
  }

  /** A fast retransmission makes available exactly the oldest outstanding segment. */
  lemma FastRetransmitHitsOldest(s: State, ack: Ack)
    requires Reachable(s) && Short(s) && Enabled(s, DeliverAck(ack))
    requires s.out.Duplicate(ack.seqno) && s.out.fr.Fires(ack.seqno)
    ensures 0 <= Acked(s) - First(s) < |s.out.snd.log|
    ensures Step(s, DeliverAck(ack)).out.snd == s.out.snd.Mark(Acked(s) - First(s), false)
  {
    ReachableInv(s);
    EmptyMeansAcked(s);
    OldestRetried(s);
  }

  // ---------------------------------------------------------------- futures

  /**
    Futures are notified once each and in order, only for segments the receiver has stored in full, and
    the client waits for no future that has not been notified.
   */
  lemma FuturesOnceAndStored(s: State)
    requires Reachable(s) && Short(s)
    ensures s.signalled == seq(|s.signalled|, i => i)
    ensures s.waited <= |s.signalled| <= s.accepted < |s.cuts|
    ensures forall i: nat :: i <= |s.signalled| ==> s.cuts[i] <= |s.Stored()|
  {
    ReachableInv(s);
    StoredIsStream(s);
    forall i: nat | i <= |s.signalled|
      ensures s.cuts[i] <= s.cuts[s.accepted]
    {
      assert i == s.accepted || Ordered(s.cuts, i, s.accepted);
    }
  }

  /** A record's memory is used again only after its future has been waited for. */
  lemma NoReuseBeforeWait(s: State, e: Event)
    requires Reachable(s) && Short(s) && Enabled(s, e)
    requires Step(s, e).stream != s.stream
    ensures First(s) <= s.waited
  {
    ReachableInv(s);
  }

  // ---------------------------------------------------------------- sizes

  /**
    The drop path is never taken and the window the splitter reads is never closed; segments are non-empty
    and at most an MTU; and of the outstanding segments all but possibly the oldest are exactly an MTU long.
   */
  lemma NagleAndSizes(s: State)
    requires Reachable(s) && Short(s)
    ensures !s.dropped && 1 <= s.out.cc.BoundedWinSz() <= WINDOW_SZ
    ensures |s.cuts| > 0 && s.cuts[|s.cuts| - 1] == |s.stream|
    ensures forall i: nat :: i + 1 < |s.cuts| ==> 0 < s.cuts[i + 1] - s.cuts[i] <= s.Mtu()
    ensures forall i: nat :: Acked(s) < i && i + 1 < |s.cuts| ==> s.cuts[i + 1] - s.cuts[i] == s.Mtu()
  {
    ReachableInv(s);
    forall i: nat | i + 1 < |s.cuts|
      ensures 0 < s.cuts[i + 1] - s.cuts[i] <= s.Mtu()
      ensures Acked(s) < i ==> s.cuts[i + 1] - s.cuts[i] == s.Mtu()
    {
      assert IsMtuBound(s.cuts, i, s.Mtu());
      assert Ordered(s.cuts, i, i + 1);
      if Acked(s) < i {
        assert IsMtuLong(s.cuts, i, s.Mtu());
      }
    }
  }

  /** A turn of the outer loop takes all that is left, or exactly fills the send window. */
  lemma TurnFillsWindow(s: State)
    requires Reachable(s) && Short(s) && Enabled(s, StartTurn)
    ensures var s' := Step(s, StartTurn);
            && s'.client.Split? && |s'.client.left| > 0
            && s'.client.left + s'.client.rest == s.client.rest
            && (s'.client.rest == [] || s'.out.snd.win.sentOff + |s'.client.left| == WINDOW_SZ)
  {
    ReachableInv(s);
    EmptyMeansAcked(s);
    TurnFits(s);
    TakeDrop(s.client.rest, TurnSize(s, |s.client.rest|));
  }

  // ---------------------------------------------------------------- receiver

  /**
    Both windows roll in lockstep; the buffer between `flushed` and `off` is the undelivered stream; the
    next expected segment fits the receive window; every acknowledgement advertises 1 to 1000 bytes.
   */
  lemma ReceiverTracksSender(s: State)
    requires Reachable(s) && Short(s)
    ensures s.rcv.win.start == s.out.snd.win.start
            || (s.rcv.win.start == s.out.snd.win.End() && s.rcv.win.off == 0)
    ensures s.accepted < |s.cuts| && |s.delivered| <= s.cuts[s.accepted] <= |s.stream|
    ensures Unflushed(s.rcv) == s.stream[|s.delivered|..s.cuts[s.accepted]]
    ensures s.accepted + 1 < |s.cuts| ==> s.rcv.win.off + s.cuts[s.accepted + 1] - s.cuts[s.accepted] <= s.rcv.win.sz
    ensures forall a :: a in s.acks ==> 1 <= a.windowSz <= WINDOW_SZ
  {
    ReachableInv(s);
    StoredIsStream(s);
    assert Unflushed(s.rcv) == s.Stored()[|s.delivered|..];
    assert s.stream[..s.cuts[s.accepted]][|s.delivered|..] == s.stream[|s.delivered|..s.cuts[s.accepted]];
    NextFits(s);
  }

  lemma NextFits(s: State)
    requires Inv(s)
    ensures s.accepted + 1 < |s.cuts| ==> s.rcv.win.off + s.cuts[s.accepted + 1] - s.cuts[s.accepted] <= s.rcv.win.sz
  {
    if s.accepted + 1 < |s.cuts| {
      CutBound(s.stream, s.cuts, s.accepted);
    }
  }
}
