/**
  What each event does, told by positions of the stream and nothing else: segment `i` is the bytes
  cuts[i]..cuts[i + 1] of those given to `send`, and position 0 of them has the number `isn`.
 */
module ProtocolEvents {
  import opened SequenceWindows
  import opened SendLog
  import opened SendWindowing
  import opened CongestionControl
  import opened FastRetransmit
  import opened OutputSide
  import opened ReceiveWindowing
  import opened Protocol
  import opened ProtocolInvariant
  import opened ProtocolSafety
  import opened ProtocolProgress
  import opened ProtocolWrap

  const WRAP: nat := 4294967296

  // ---------------------------------------------------------------- the client inside `recv`

  /** `recv` gets as many of the bytes stored for it as it asked for, or all of them, and nothing else happens. */
  lemma FlushEffect(s: State, req: nat)
    requires Reachable(s) && Short(s)
    ensures Enabled(s, ClientFlush(req)) && s.delivered <= s.Stored()
    ensures var s', waiting := Step(s, ClientFlush(req)), |s.Stored()| - |s.delivered|;
            var n := if req < waiting then req else waiting;
            && s'.delivered == s.Stored()[..|s.delivered| + n] && s'.Stored() == s.Stored()
            && s'.rcv.flushed == s.rcv.flushed + n && s'.rcv.win == s.rcv.win && s'.rcv.buf == s.rcv.buf
            && s' == s.(rcv := s'.rcv, delivered := s'.delivered)
  {
    FlushMoves(s.rcv, req);
  }

  // ---------------------------------------------------------------- the receiver

  /** The receiver's offset in its window is what it has stored beyond the last full window. */
  lemma ReceiverOffset(s: State)
    requires Inv(s) && Aligned(s)
    ensures |s.Stored()| == s.cuts[s.accepted] && s.rcv.win.Begin() == s.isn + |s.Stored()| && s.rcv.win.sz == 1000
    ensures if Full(s.rcv) then |s.Stored()| % 1000 == 0 else s.rcv.win.off == |s.Stored()| % 1000
  {
    StoredIsStream(s);
  }

  /** The receiver takes a segment exactly if it is the next one and begins below 2^32. */
  lemma TakesNextIff(s: State, g: Segment)
    requires Inv(s) && Short(s) && g in s.segments
    ensures Accepts(s.rcv, g) <==>
              s.accepted < Queued(s) && s.isn + s.cuts[s.accepted] < WRAP && g.seqno == s.isn + s.cuts[s.accepted]
  {
    if g.seqno == s.rcv.win.Begin() {
      AcceptedIsNext(s, g);
      NextArrives(s, g);
    }
  }

  lemma ArrivalKeeps(s: State, g: Segment)
    requires Enabled(s, DeliverSegment(g))
    ensures var s' := Step(s, DeliverSegment(g));
            && s'.accepted == s.accepted + (if Accepts(s.rcv, g) then 1 else 0)
            && s'.acks == (if Full(s'.rcv) then s.acks else s.acks + {AckOf(s'.rcv)})
            && (!Accepts(s.rcv, g) ==> s'.rcv == s.rcv)
            && s'.rcv.win.start == s.rcv.win.start && s'.rcv.flushed == s.rcv.flushed
            && s' == s.(rcv := s'.rcv, accepted := s'.accepted, acks := s'.acks)
  {
  }

  /** Everything below position `pos` acknowledged, with `off` bytes of the window used. */
  function Answer(pos: nat, off: nat): Ack
    requires off < 1000
  {
    Ack((pos - 1) % 4294967296, 1000 - off)
  }

  lemma AckOfAt(r: Receiver, pos: nat, off: nat)
    requires r.win.Begin() == pos && r.win.off == off < r.win.sz == 1000
    ensures AckOf(r) == Answer(pos, off)
  {
    BeforeBeginIsAckNo(r.win);
  }

  lemma AckSent(s: State)
    requires Inv(s) && Aligned(s) && !Full(s.rcv)
    ensures AckOf(s.rcv) == Answer(s.isn + |s.Stored()|, |s.Stored()| % 1000)
  {
    ReceiverOffset(s);
    AckOfAt(s.rcv, s.isn + |s.Stored()|, |s.Stored()| % 1000);
  }

  lemma ArrivalTakes(s: State, g: Segment)
    requires Reachable(s) && Short(s) && Enabled(s, DeliverSegment(g))
    ensures s.accepted < |s.cuts|
    ensures Accepts(s.rcv, g) <==>
              s.accepted < Queued(s) && s.isn + s.cuts[s.accepted] < WRAP && g.seqno == s.isn + s.cuts[s.accepted]
  {
    ReachableInv(s);
    TakesNextIff(s, g);
  }

  /** What the receiver holds is given, and unless its window is full its acknowledgement is known. */
  lemma HoldsAndAcks(s: State)
    requires Reachable(s) && Short(s)
    ensures s.accepted < |s.cuts| && s.cuts[s.accepted] <= |s.given| && s.Stored() == s.given[..s.cuts[s.accepted]]
    ensures if Full(s.rcv) then |s.Stored()| % 1000 == 0
            else AckOf(s.rcv) == Answer(s.isn + |s.Stored()|, |s.Stored()| % 1000)
  {
    ReachableFacts(s);
    StoredOfGiven(s);
    ReceiverOffset(s);
    if !Full(s.rcv) {
      AckSent(s);
    }
  }

  /** A segment that leaves the receiver at a multiple of 1000 filled its window. */
  lemma FillsWindow(s: State, g: Segment)
    requires Reachable(s) && Short(s) && Enabled(s, DeliverSegment(g)) && Accepts(s.rcv, g)
    ensures var s' := Step(s, DeliverSegment(g)); Full(s'.rcv) <==> |s'.Stored()| % 1000 == 0
  {
    var s' := Step(s, DeliverSegment(g));
    ReachableInv(s);
    AcceptedIsNext(s, g);
    ReachableStep(s, DeliverSegment(g));
    ReachableFacts(s');
    ReceiverOffset(s');
  }

  /**
    A segment that arrives is stored exactly if it is the next one and begins below 2^32. Either way the receiver
    acknowledges all it has stored and advertises the rest of its window, unless the segment has just filled it.
   */
  lemma SegmentEffect(s: State, g: Segment)
    requires Reachable(s) && Short(s) && Enabled(s, DeliverSegment(g))
    ensures s.accepted < |s.cuts|
    ensures var s', k := Step(s, DeliverSegment(g)), s.accepted;
            var take := k + 1 < |s.cuts| && s.isn + s.cuts[k] < WRAP && g.seqno == s.isn + s.cuts[k];
            && s'.accepted == (if take then k + 1 else k)
            && s.cuts[s'.accepted] <= |s.given| && s'.Stored() == s.given[..s.cuts[s'.accepted]]
            && s'.acks == (if take && |s'.Stored()| % 1000 == 0 then s.acks
                           else s.acks + {Answer(s.isn + |s'.Stored()|, |s'.Stored()| % 1000)})
            && s'.rcv.win.start == s.rcv.win.start && s'.rcv.flushed == s.rcv.flushed
            && s' == s.(rcv := s'.rcv, accepted := s'.accepted, acks := s'.acks)
  {
    ArrivalTakes(s, g);
    ArrivalKeeps(s, g);
    ReachableStep(s, DeliverSegment(g));
    HoldsAndAcks(Step(s, DeliverSegment(g)));
    if Accepts(s.rcv, g) {
      FillsWindow(s, g);
    }
  }

  lemma StoredOfGiven(s: State)
    requires Inv(s)
    ensures s.cuts[s.accepted] <= |s.given| && s.Stored() == s.given[..s.cuts[s.accepted]]
  {
    StoredIsStream(s);
    CutBound(s.stream, s.cuts, s.accepted);
    assert s.given[..s.cuts[s.accepted]] == s.stream[..s.cuts[s.accepted]];
  }

  lemma RollGuard(s: State)
    requires Inv(s)
    ensures Enabled(s, RollWindow) <==> s.rcv.win.off == 1000 && s.delivered == s.Stored()
  {
    assert |s.Stored()| == |s.delivered| + (s.rcv.win.off - s.rcv.flushed);
    assert s.rcv.flushed == s.rcv.win.off ==> s.Stored() == s.delivered;
  }

  lemma RollKeeps(s: State)
    requires Enabled(s, RollWindow)
    ensures var s' := Step(s, RollWindow);
            && s'.rcv == ReceiverState(Window(s.rcv.win.End(), 0, s.rcv.win.sz), 0, s.rcv.buf)
            && s' == s.(rcv := s'.rcv, acks := s.acks + {AckOf(s'.rcv)})
  {
  }

  lemma RollPosition(s: State)
    requires Reachable(s) && Short(s)
    ensures Enabled(s, RollWindow) <==> s.rcv.win.off == 1000 && s.delivered == s.Stored()
    ensures Enabled(s, RollWindow) ==> s.rcv.win.End() == s.isn + |s.delivered| && s.rcv.win.sz == 1000
  {
    ReachableInv(s);
    RollGuard(s);
  }

  /** A full window gives way to the next one exactly when all of it has been handed over, and that is acknowledged. */
  lemma RollEffect(s: State)
    requires Reachable(s) && Short(s)
    ensures Enabled(s, RollWindow) <==> s.rcv.win.off == 1000 && s.delivered == s.Stored()
    ensures Enabled(s, RollWindow) ==>
              var s' := Step(s, RollWindow);
              && s'.rcv.win == Window(s.isn + |s.delivered|, 0, 1000) && s'.rcv.flushed == 0 && s'.rcv.buf == s.rcv.buf
              && s'.acks == s.acks + {Answer(s.isn + |s.delivered|, 0)}
              && s' == s.(rcv := s'.rcv, acks := s'.acks)
  {
    RollPosition(s);
    if Enabled(s, RollWindow) {
      RollKeeps(s);
      AckOfAt(Step(s, RollWindow).rcv, s.isn + |s.delivered|, 0);
    }
  }

  // ---------------------------------------------------------------- the sender's worker

  /** The oldest segment waiting goes on the wire with the bytes given and its number, and is marked. */
  lemma TransmitEffect(s: State, t: nat)
    requires Reachable(s) && Short(s)
    ensures 0 <= First(s) <= Acked(s)
    ensures Enabled(s, Transmit(t)) <==>
              && Acked(s) - First(s) <= t < |s.out.snd.log| && !s.out.snd.log[t].used
              && forall u :: Acked(s) - First(s) <= u < t ==> s.out.snd.log[u].used
    ensures Enabled(s, Transmit(t)) ==>
              var s', i, log := Step(s, Transmit(t)), First(s) + t, s.out.snd.log;
              && i + 1 < |s.cuts| && s.cuts[i] <= s.cuts[i + 1] <= |s.given|
              && s'.segments
                 == s.segments + {Segment((s.isn + s.cuts[i]) % WRAP, s.given[s.cuts[i]..s.cuts[i + 1]])}
              && s'.out.snd.log == log[t := log[t].(used := true)]
              && s' == s.(segments := s'.segments, out := s.out.(snd := Sender(s.out.snd.win, s'.out.snd.log)))
  {
    ReachableInv(s);
    QueueIsSender(s);
    forall u: nat | u < |s.out.snd.log|
      ensures s.out.snd.Outstanding(u) <==> Acked(s) - First(s) <= u
    {
      OutstandingFrom(s.out.snd, Acked(s) - First(s), u);
    }
    if Enabled(s, Transmit(t)) {
      WireIsGiven(s, t);
    }
  }

  lemma WireIsGiven(s: State, t: nat)
    requires Inv(s) && t < |s.out.snd.log|
    ensures var i := First(s) + t;
            && i + 1 < |s.cuts| && s.cuts[i] <= s.cuts[i + 1] <= |s.given|
            && WireOf(s, t) == Segment((s.isn + s.cuts[i]) % WRAP, s.given[s.cuts[i]..s.cuts[i + 1]])
  {
    var i := First(s) + t;
    assert RecordWired(s.out.snd.log[t], s.isn, s.stream, s.cuts, s.segments, i);
    assert WireOf(s, t).data == s.given[s.cuts[i]..s.cuts[i + 1]];
  }

  /** The byte on the right edge of a window past 2^32, as a segment of its own. */
  predicate LostAtEdge(s: State, t: nat)
    requires t < |s.out.snd.log|
  {
    var pos := s.out.snd.win.start + s.out.snd.log[t].off;
    pos >= WRAP && pos + 1 == s.out.snd.win.End()
  }

  lemma OutstandingPosition(s: State, t: nat)
    requires Inv(s) && Short(s) && Acked(s) - First(s) <= t < |s.out.snd.log|
    ensures var win, r := s.out.snd.win, s.out.snd.log[t];
            && r.seqno == Trunc(win.start + r.off)
            && s.isn <= win.Begin() <= win.start + r.off < win.End() < s.isn + MODULO
  {
    QueueIsSender(s);
    OutstandingFrom(s.out.snd, Acked(s) - First(s), t);
    OffAtMonotone(s.out.snd.log, t, |s.out.snd.log|);
    CutBound(s.stream, s.cuts, First(s));
  }

  lemma NumberInWindowIff(win: SendWindow, seqno: Wire, pos: nat, isn: Wire)
    requires seqno == Trunc(pos) && isn <= win.Begin() <= pos < win.End() < isn + MODULO
    ensures win.InWin(seqno) <==> !(pos >= WRAP && pos + 1 == win.End())
  {
    LandsAt(win, seqno, pos + 1, isn);
  }

  lemma RetryInWindowIff(s: State, t: nat)
    requires Inv(s) && Short(s) && t < |s.out.snd.log|
    ensures s.out.snd.win.InWin(s.out.snd.log[t].seqno) <==> Acked(s) - First(s) <= t && !LostAtEdge(s, t)
  {
    if t < Acked(s) - First(s) {
      ReleasedIsOutside(s, t);
    } else {
      OutstandingPosition(s, t);
      NumberInWindowIff(s.out.snd.win, s.out.snd.log[t].seqno, s.out.snd.win.start + s.out.snd.log[t].off, s.isn);
    }
  }

  /**
    A time-out of an outstanding segment halves the congestion window, down to one, and makes that segment and no
    other available again. The time-out of a released one, and of a segment lost at the edge, does nothing.
   */
  lemma RetryEffect(s: State, t: nat)
    requires Reachable(s) && Short(s)
    ensures Enabled(s, TimeoutRetry(t)) <==> t < |s.out.snd.log|
    ensures t < |s.out.snd.log| ==>
              var log, cc := s.out.snd.log, s.out.cc;
              var frees := First(s) + t >= Acked(s) && !LostAtEdge(s, t);
              Step(s, TimeoutRetry(t))
              == if !frees then s
                 else s.(out := Output(Sender(s.out.snd.win, log[t := log[t].(used := false)]),
                                       Congestion(cc.receiverWin, Halved(cc.congestionWin), cc.mtu), s.out.fr))
  {
    ReachableInv(s);
    if t < |s.out.snd.log| {
      RetryInWindowIff(s, t);
      if First(s) + t >= Acked(s) {
        QueueIsSender(s);
        RetryFinds(s.out.snd, Acked(s) - First(s), t);
      }
    }
  }

  function Halved(n: nat): nat {
    if n < 2 then 1 else n / 2
  }

  // ---------------------------------------------------------------- acknowledgements

  /** Position `pos` is ahead of the sender and in its window, the right edge of a window past 2^32 apart. */
  predicate Advances(win: SendWindow, pos: nat) {
    win.start + win.off < pos <= win.start + win.sz && !(pos == win.start + win.sz && pos > WRAP)
  }

  /** Position `pos` is where the sender stands, at neither of the two places where it does not know itself. */
  predicate Repeats(win: SendWindow, pos: nat) {
    0 < pos == win.start + win.off && !(pos > WRAP && pos + 1 == win.start + win.sz)
  }

  lemma AckGuards(s: State, ack: Ack, j: nat)
    requires Inv(s) && Short(s) && ack in s.acks && j <= Acknowledgeable(s) && IsAck(ack, s.isn, s.cuts, j)
    ensures var win, pos := s.out.snd.win, s.isn + s.cuts[j];
            && (win.InWin(ack.seqno) <==> Advances(win, pos))
            && (win.InWin(ack.seqno) ==> win.SetOffFromSeq(ack.seqno) == win.(off := pos - win.start))
            && (s.out.Duplicate(ack.seqno) <==> Repeats(win, pos) && Acked(s) < Queued(s))
  {
    AckRange(s, j);
    EmptyMeansAcked(s);
    NumberGuards(s.out.snd.win, s.isn + s.cuts[j], s.isn);
  }

  lemma NumberGuards(win: SendWindow, pos: nat, isn: Wire)
    requires isn <= pos && isn <= win.Begin() < win.End() && pos < isn + MODULO && win.End() < isn + MODULO
    ensures win.InWin(AckNo(pos)) <==> Advances(win, pos)
    ensures win.InWin(AckNo(pos)) ==> win.SetOffFromSeq(AckNo(pos)) == win.(off := pos - win.start)
    ensures !win.InWin(AckNo(pos)) && win.InPrevWin(AckNo(pos)) <==> Repeats(win, pos)
  {
    AckLands(win, pos, isn);
    DuplicateLands(win, pos, isn);
  }

  /** An acknowledgement takes over the advertised window and adds an MTU to the congestion window. */
  function Opened(cc: Congestion, windowSz: nat): Congestion {
    Congestion(windowSz, cc.congestionWin + cc.mtu, cc.mtu)
  }

  lemma AckStep(s: State, ack: Ack)
    requires Enabled(s, DeliverAck(ack)) && !s.out.Duplicate(ack.seqno)
    ensures var s', out := Step(s, DeliverAck(ack)), s.out;
            var taken := out.snd.win.InWin(ack.seqno);
            && s'.out == Output(if taken then out.snd.Acknowledge(ack.seqno) else out.snd,
                                Opened(out.cc, ack.windowSz), out.fr)
            && s' == s.(out := s'.out, signalled := s'.signalled)
            && (!taken ==> s'.signalled == s.signalled)
  {
  }

  /**
    An acknowledgement is one of the first `j` segments, for some `j` that the receiver has stored. If it advances
    the sender then their futures are notified and the window begins after them, or where it ended gives way to
    the next one. If it neither advances nor repeats it only opens the windows.
   */
  lemma AckEffect(s: State, ack: Ack) returns (j: nat)
    requires Reachable(s) && Short(s) && Enabled(s, DeliverAck(ack))
    ensures j <= s.accepted < |s.cuts| && ack.seqno == (s.isn + s.cuts[j] - 1) % WRAP
    ensures s.out.Duplicate(ack.seqno) <==> Repeats(s.out.snd.win, s.isn + s.cuts[j]) && Acked(s) < Queued(s)
    ensures !s.out.Duplicate(ack.seqno) ==>
              var s', win, pos := Step(s, DeliverAck(ack)), s.out.snd.win, s.isn + s.cuts[j];
              var snd := if !Advances(win, pos) then s.out.snd
                         else if pos == win.start + win.sz then Sender(SendWindow(pos, 0, 0, 1000), [])
                         else Sender(win.(off := pos - win.start), s.out.snd.log);
              var count := if Advances(win, pos) then j else Acked(s);
              s' == s.(out := Output(snd, Opened(s.out.cc, ack.windowSz), s.out.fr), signalled := seq(count, i => i))
  {
    ReachableInv(s);
    j := AckIndex(s, ack);
    AckGuards(s, ack, j);
    if !s.out.Duplicate(ack.seqno) {
      AckStep(s, ack);
      AckedTo(s, ack, j);
    }
  }

  lemma AckedTo(s: State, ack: Ack, j: nat)
    requires Inv(s) && Short(s) && ack in s.acks && j <= Acknowledgeable(s) && IsAck(ack, s.isn, s.cuts, j)
    ensures Step(s, DeliverAck(ack)).signalled
            == seq(if Advances(s.out.snd.win, s.isn + s.cuts[j]) then j else Acked(s), i => i)
  {
    AckResult(s, ack, j);
    DeliverAckInv(s, ack);
    AckGuards(s, ack, j);
    AckRange(s, j);
  }

  /** A duplicate carries the number of the byte before the sender's begin, and finds something outstanding. */
  lemma DuplicateNumber(s: State, ack: Ack)
    requires Reachable(s) && Short(s) && ack in s.acks && s.out.Duplicate(ack.seqno)
    ensures ack.seqno == AckNo(s.out.snd.win.Begin()) && Acked(s) < Queued(s)
    ensures s.out.cc.congestionWin >= 1 && s.Mtu() >= 1
  {
    ReachableInv(s);
    var j := AckIndex(s, ack);
    AckGuards(s, ack, j);
  }

  lemma DuplicateStep(s: State, ack: Ack)
    requires Enabled(s, DeliverAck(ack)) && s.out.Duplicate(ack.seqno)
    ensures var s', out, fr := Step(s, DeliverAck(ack)), s.out, s.out.fr;
            var known := fr.cnt > 0 && fr.last == ack.seqno;
            var fires := known && fr.cnt >= 3;
            && s'.out == Output(
                 if fires then out.snd.RetryAt(out.snd.win.off) else out.snd,
                 Congestion(ack.windowSz,
                            if fires then Halved(out.cc.congestionWin + out.cc.mtu) else out.cc.congestionWin + out.cc.mtu,
                            out.cc.mtu),
                 DupCounter(ack.seqno, if fires then 0 else if known then fr.cnt + 1 else 1))
            && s' == s.(out := s'.out)
  {
  }

  /**
    A duplicate is counted, and opens the windows as any acknowledgement does. The fourth of the same number
    clears the counter, halves the congestion window and makes the oldest outstanding segment available again;
    the others leave the queue alone.
   */
  lemma DuplicateEffect(s: State, ack: Ack)
    requires Reachable(s) && Short(s) && Enabled(s, DeliverAck(ack)) && s.out.Duplicate(ack.seqno)
    ensures 0 <= Acked(s) - First(s) < |s.out.snd.log|
    ensures var s', fr, cc, log := Step(s, DeliverAck(ack)), s.out.fr, s.out.cc, s.out.snd.log;
            var oldest := Acked(s) - First(s);
            var known := fr.cnt > 0 && fr.last == ack.seqno;
            s' == s.(out := if known && fr.cnt >= 3
                            then Output(Sender(s.out.snd.win, log[oldest := log[oldest].(used := false)]),
                                        Congestion(ack.windowSz, Halved(cc.congestionWin + cc.mtu), cc.mtu),
                                        DupCounter(ack.seqno, 0))
                            else Output(s.out.snd, Congestion(ack.windowSz, cc.congestionWin + cc.mtu, cc.mtu),
                                        DupCounter(ack.seqno, if known then fr.cnt + 1 else 1)))
  {
    ReachableInv(s);
    EmptyMeansAcked(s);
    OldestRetried(s);
    DuplicateStep(s, ack);
  }

  // ---------------------------------------------------------------- runs of duplicates

  /** Duplicates delivered one after the other. */
  predicate DuplicateRun(s: State, acks: seq<Ack>)
    decreases |acks|
  {
    |acks| > 0 ==>
      && acks[0] in s.acks && s.out.Duplicate(acks[0].seqno)
      && DuplicateRun(Step(s, DeliverAck(acks[0])), acks[1..])
  }

  function AfterAcks(s: State, acks: seq<Ack>): State
    requires DuplicateRun(s, acks)
    decreases |acks|
  {
    if |acks| == 0 then s else AfterAcks(Step(s, DeliverAck(acks[0])), acks[1..])
  }

  /** How often in the run the congestion window does not grow. */
  function Halvings(s: State, acks: seq<Ack>): nat
    requires DuplicateRun(s, acks)
    decreases |acks|
  {
    if |acks| == 0 then 0
    else
      var s' := Step(s, DeliverAck(acks[0]));
      (if s'.out.cc.congestionWin < s.out.cc.congestionWin + s.Mtu() then 1 else 0) + Halvings(s', acks[1..])
  }

  /** The oldest outstanding segment. */
  function OldestRecord(s: State): Record
    requires 0 <= Acked(s) - First(s) < |s.out.snd.log|
  {
    s.out.snd.log[Acked(s) - First(s)]
  }

  /** What a duplicate leaves: the same window with the same segments outstanding. */
  lemma DuplicateKeeps(s: State, ack: Ack)
    requires Reachable(s) && Short(s) && Enabled(s, DeliverAck(ack)) && s.out.Duplicate(ack.seqno)
    ensures var s', fr := Step(s, DeliverAck(ack)), s.out.fr;
            var known := fr.cnt > 0 && fr.last == ack.seqno;
            var fires := known && fr.cnt >= 3;
            && Reachable(s') && Short(s') && Acked(s) < Queued(s)
            && s'.cuts == s.cuts && s'.signalled == s.signalled && s'.out.snd.win == s.out.snd.win
            && |s'.out.snd.log| == |s.out.snd.log| && 0 <= Acked(s) - First(s) < |s.out.snd.log|
            && s'.out.fr == DupCounter(ack.seqno, if fires then 0 else if known then fr.cnt + 1 else 1)
            && OldestRecord(s').used == (!fires && OldestRecord(s).used)
            && (s'.out.cc.congestionWin < s.out.cc.congestionWin + s.Mtu() <==> fires)
            && ack.seqno == AckNo(s.out.snd.win.Begin())
  {
    DuplicateEffect(s, ack);
    DuplicateNumber(s, ack);
    ReachableStep(s, DeliverAck(ack));
  }

  lemma CountOn(c: nat, n: nat)
    requires c < 4 && n > 0
    ensures var c1 := if c == 3 then 0 else c + 1;
            && (if c == 3 then 1 else 0) + (c1 + n - 1) / 4 == (c + n) / 4
            && (c1 + n - 1) % 4 == (c + n) % 4
  {
  }

  /** The count goes on from run to run while the sender stands: every fourth duplicate retransmits. */
  lemma {:induction false} DuplicatesCounted(s: State, acks: seq<Ack>)
    requires Reachable(s) && Short(s) && DuplicateRun(s, acks)
    requires s.out.fr.cnt < 4 && (s.out.fr.cnt > 0 ==> s.out.fr.last == AckNo(s.out.snd.win.Begin()))
    ensures var s' := AfterAcks(s, acks);
            && Halvings(s, acks) == (s.out.fr.cnt + |acks|) / 4
            && s'.out.fr.cnt == (s.out.fr.cnt + |acks|) % 4
            && s'.out.snd.win == s.out.snd.win && Acked(s') == Acked(s) && First(s') == First(s)
            && |s'.out.snd.log| == |s.out.snd.log|
            && (|acks| > 0 ==>
                  && 0 <= Acked(s) - First(s) < |s.out.snd.log|
                  && OldestRecord(s').used == (s.out.fr.cnt + |acks| < 4 && OldestRecord(s).used))
    decreases |acks|
  {
    if |acks| == 0 {
    } else {
      DuplicateKeeps(s, acks[0]);
      CountOn(s.out.fr.cnt, |acks|);
      DuplicatesCounted(Step(s, DeliverAck(acks[0])), acks[1..]);
    }
  }

  /**
    From a clear counter n duplicates in a row halve the congestion window n/4 times, and make the oldest outstanding
    segment available again if and only if there are at least four.
   */
  lemma DuplicatesRetransmit(s: State, acks: seq<Ack>)
    requires Reachable(s) && Short(s) && DuplicateRun(s, acks) && |acks| > 0 && s.out.fr.cnt == 0
    ensures Halvings(s, acks) == |acks| / 4
    ensures var s' := AfterAcks(s, acks);
            && 0 <= Acked(s) - First(s) < |s.out.snd.log| && |s'.out.snd.log| == |s.out.snd.log|
            && Acked(s') - First(s') == Acked(s) - First(s)
            && (OldestRecord(s').used <==> OldestRecord(s).used && |acks| < 4)
  {
    DuplicatesCounted(s, acks);
  }

  // ---------------------------------------------------------------- the client inside `send`

  /** A call is taken up from the idle client and returns when nothing of it is left. */
  lemma CallEffect(s: State, bytes: seq<Byte>)
    requires Reachable(s) && Short(s)
    ensures Enabled(s, Call(bytes)) <==> s.client.Idle?
    ensures s.client.Idle? ==> Step(s, Call(bytes)) == s.(given := s.given + bytes, client := Loop(bytes))
    ensures Enabled(s, Return) <==> s.client.Loop? && s.stream == s.given
    ensures Enabled(s, Return) ==> Step(s, Return) == s.(client := Idle) && s.Stored() == s.given
  {
    ReachableInv(s);
    EmptyMeansAcked(s);
    StoredIsStream(s);
  }

  lemma TurnRoom(s: State)
    requires Inv(s) && Aligned(s) && s.client.Loop?
    ensures s.out.snd.win.sz - s.out.snd.win.off == 1000 - |s.stream| % 1000
    ensures |s.given| == |s.stream| + |s.client.rest| && s.client.rest == s.given[|s.stream|..]
  {
    EmptyMeansAcked(s);
  }

  /** A turn takes what is left to queue, or as much as fills the window up to a multiple of 1000 bytes. */
  lemma TurnEffect(s: State)
    requires Reachable(s) && Short(s)
    ensures Enabled(s, StartTurn) <==> s.client.Loop? && |s.stream| < |s.given|
    ensures Enabled(s, StartTurn) ==>
              var rest, room := s.client.rest, 1000 - |s.stream| % 1000;
              var n := if |rest| < room then |rest| else room;
              Step(s, StartTurn) == s.(client := Split(rest[..n], rest[n..])) && rest == s.given[|s.stream|..]
  {
    ReachableFacts(s);
    if s.client.Loop? {
      TurnRoom(s);
    }
  }

  /** Something is to be cut: a full segment at once, or the least of MTU, windows and data once nothing is outstanding. */
  lemma CutEffect(s: State)
    requires Reachable(s) && Short(s) && s.client.Split? && s.client.left != []
    ensures |s.cuts| > 0
    ensures var cc, left, rest := s.out.cc, s.client.left, s.client.rest;
            var n := Min(Min(cc.mtu, cc.receiverWin), Min(cc.congestionWin, |left|));
            && (Enabled(s, CutFull) <==> cc.receiverWin > cc.mtu && cc.congestionWin > cc.mtu && |left| >= cc.mtu)
            && (Enabled(s, CutSmall) <==> !Enabled(s, CutFull))
            && (Enabled(s, CutSmall) ==> Step(s, CutSmall) == s.(client := Await(left[..n], left[n..], rest)))
            && (Enabled(s, CutFull) ==> n == cc.mtu && Step(s, CutFull) == Queue(s, left[..n], left[n..], rest))
  {
    ReachableInv(s);
    if Enabled(s, CutFull) {
      QueueIsPut(s, CutFull);
    }
  }

  /** The stream grows by one segment, which is cut off, numbered and recorded, and waits for transmission. */
  function Queue(s: State, data: seq<Byte>, left: seq<Byte>, rest: seq<Byte>): State
    requires |s.cuts| > 0
  {
    var win := s.out.snd.win;
    var r := Record(win.sentOff, (s.isn + |s.stream|) % WRAP, data, false, |s.cuts| - 1);
    s.(client := Split(left, rest),
       stream := s.stream + data,
       cuts := s.cuts + [|s.stream + data|],
       out := s.out.(snd := Sender(win.(sentOff := win.sentOff + |data|), s.out.snd.log + [r])))
  }

  lemma QueueIsPut(s: State, e: Event)
    requires Inv(s) && Enabled(s, e) && (e.CutFull? || e.PutSmall?)
    ensures var c := s.client;
            Step(s, e) == if e.PutSmall? then Queue(s, c.segment, c.left, c.rest)
                          else Queue(s, c.left[..s.Mtu()], c.left[s.Mtu()..], c.rest)
  {
  }

  /** A small segment waits until all queued before it is acknowledged, and is then queued. */
  lemma PutEffect(s: State)
    requires Reachable(s) && Short(s)
    ensures Enabled(s, PutSmall) <==> s.client.Await? && Acked(s) == Queued(s)
    ensures Enabled(s, PutSmall) ==>
              |s.cuts| > 0 && Step(s, PutSmall) == Queue(s, s.client.segment, s.client.left, s.client.rest)
  {
    ReachableInv(s);
    EmptyMeansAcked(s);
    if Enabled(s, PutSmall) {
      QueueIsPut(s, PutSmall);
    }
  }

  /** After the last cut the client waits for the futures of all segments in turn, and then goes on. */
  lemma WaitEffect(s: State)
    requires Reachable(s) && Short(s)
    ensures Enabled(s, EndSplit) <==> s.client.Split? && s.client.left == []
    ensures Enabled(s, EndSplit) ==> Step(s, EndSplit) == s.(client := Futures(s.client.rest))
    ensures Enabled(s, WaitFuture) <==> s.client.Futures? && s.waited < Acked(s)
    ensures Enabled(s, WaitFuture) ==> Step(s, WaitFuture) == s.(waited := s.waited + 1)
    ensures Enabled(s, EndTurn) <==> s.client.Futures? && s.waited == Queued(s)
    ensures Enabled(s, EndTurn) ==> Step(s, EndTurn) == s.(client := Loop(s.client.rest))
  {
    ReachableInv(s);
    if s.waited < Acked(s) {
      assert s.signalled[s.waited] == s.waited;
    }
  }
}
