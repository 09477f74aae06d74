/** What becomes of `send` at 2^32: the exact condition under which it can still return. */
module ProtocolWrap {
  import opened SequenceWindows
  import opened CongestionControl
  import opened ReceiveWindowing
  import opened Protocol
  import opened ProtocolInvariant
  import opened ProtocolSafety
  import opened ProtocolProgress

  lemma WedgedStep(s: State, e: Event)
    requires Enabled(s, e) && s.rcv.win.Begin() >= MODULO
    ensures var s' := Step(s, e);
            s'.rcv.win.Begin() == s.rcv.win.Begin() && s'.accepted == s.accepted && s'.Stored() == s.Stored()
  {
    if e.RollWindow? {
      RollOverKeepsBegin(s.rcv);
    } else if e.ClientFlush? {
      FlushMoves(s.rcv, e.req);
    }
  }

  /** Once its begin has reached 2^32 the receiver stores nothing more, whatever happens. */
  lemma {:induction false} WedgedForever(s: State, events: seq<Event>)
    requires Legal(s, events) && s.rcv.win.Begin() >= MODULO
    ensures var s' := After(s, events);
            s'.rcv.win.Begin() == s.rcv.win.Begin() && s'.accepted == s.accepted && s'.Stored() == s.Stored()
    decreases |events|
  {
    if |events| == 0 {
    } else {
      WedgedStep(s, events[0]);
      WedgedForever(Step(s, events[0]), events[1..]);
    }
  }

  // ---------------------------------------------------------------- states that cannot return

  /** The next segment to be cut begins at or past 2^32. */
  predicate Uncuttable(s: State) {
    s.client.Unsent() != [] && s.isn + |s.stream| >= MODULO
  }

  /** A segment has been cut that reaches 2^32, and it is not the last one. */
  predicate Overcut(s: State) {
    s.client.Await? && |s.client.left| + |s.client.rest| > 0 && s.isn + |s.stream| + |s.client.segment| >= MODULO
  }

  /** The last segment queued begins at or past 2^32 and is not stored. */
  predicate Unstorable(s: State) {
    s.accepted < Queued(s) && s.isn + s.cuts[Queued(s) - 1] >= MODULO
  }

  /** The last segment of all ends on the right edge of a send window past 2^32 and is not acknowledged. */
  predicate Unackable(s: State) {
    && s.client.Unsent() == []
    && Acked(s) < Queued(s)
    && s.isn + s.cuts[Queued(s)] == s.out.snd.win.End() > MODULO
  }

  predicate Doomed(s: State) {
    Uncuttable(s) || Overcut(s) || Unstorable(s) || Unackable(s)
  }

  lemma DoomedNotIdle(s: State)
    requires Inv(s) && Doomed(s)
    ensures !s.client.Idle?
  {
    if s.client.Idle? {
      EmptyMeansAcked(s);
    }
  }

  lemma EnqueueStaysDoomed(s: State, data: seq<Byte>, client': Client)
    requires Inv(s) && (Uncuttable(s) || Unstorable(s))
    ensures Unstorable(Enqueue(s, data, client'))
  {
    if Unstorable(s) {
      CutBound(s.stream, s.cuts, Queued(s) - 1);
    }
  }

  lemma PutStaysDoomed(s: State, e: Event)
    requires Inv(s) && Doomed(s) && Enabled(s, e) && (e.CutFull? || e.PutSmall?)
    requires !Step(s, e).dropped
    ensures Doomed(Step(s, e))
  {
    var c := s.client;
    if Overcut(s) {
      assert Uncuttable(Step(s, e));
    } else if e.CutFull? {
      EnqueueStaysDoomed(s, c.left[..s.Mtu()], Split(c.left[s.Mtu()..], c.rest));
    } else {
      EnqueueStaysDoomed(s, c.segment, Split(c.left, c.rest));
    }
  }

  /** Doom survives as long as client, window and history stay and the missing step has not been made. */
  lemma SameStaysDoomed(s: State, s': State)
    requires Doomed(s)
    requires s'.client == s.client && s'.isn == s.isn && s'.stream == s.stream && s'.cuts == s.cuts
    requires Unstorable(s) ==> s'.accepted < Queued(s)
    requires Unackable(s) ==> Acked(s') < Queued(s) && s'.out.snd.win.End() == s.out.snd.win.End()
    ensures Doomed(s')
  {
  }

  lemma StillUnstorable(s: State, g: Segment)
    requires Inv(s) && Short(s) && Unstorable(s) && Enabled(s, DeliverSegment(g))
    ensures Step(s, DeliverSegment(g)).accepted < Queued(s)
  {
    if s.accepted == Queued(s) - 1 {
      assert s.rcv.win.Begin() >= MODULO;
    }
  }

  lemma SegmentStaysDoomed(s: State, g: Segment)
    requires Inv(s) && Short(s) && Doomed(s) && Enabled(s, DeliverSegment(g))
    ensures Doomed(Step(s, DeliverSegment(g)))
  {
    if Unstorable(s) {
      StillUnstorable(s, g);
    }
    SameStaysDoomed(s, Step(s, DeliverSegment(g)));
  }

  /** No acknowledgement covers the last byte before the right edge of a window past 2^32. */
  lemma EdgeNotAcked(s: State, ack: Ack)
    requires Inv(s) && Short(s) && Unackable(s) && Enabled(s, DeliverAck(ack))
    ensures Acked(Step(s, DeliverAck(ack))) < Queued(s)
  {
    var j := AckIndex(s, ack);
    AckResult(s, ack, j);
  }

  lemma AckStaysDoomed(s: State, ack: Ack)
    requires Inv(s) && Short(s) && Doomed(s) && Enabled(s, DeliverAck(ack)) && Inv(Step(s, DeliverAck(ack)))
    ensures Doomed(Step(s, DeliverAck(ack)))
  {
    if Unackable(s) {
      EdgeNotAcked(s, ack);
      AckKeepsEnd(s, ack);
    }
    SameStaysDoomed(s, Step(s, DeliverAck(ack)));
  }

  predicate Quiet(e: Event) {
    !e.Call? && !e.CutFull? && !e.PutSmall? && !e.DeliverSegment? && !e.DeliverAck?
  }

  /** Quiet events leave window, queue and history alone. */
  lemma QuietKeeps(s: State, e: Event)
    requires Enabled(s, e) && Quiet(e)
    ensures var s' := Step(s, e);
            && s'.isn == s.isn && s'.given == s.given && s'.stream == s.stream && s'.cuts == s.cuts
            && s'.accepted == s.accepted && s'.signalled == s.signalled && s'.out.snd.win == s.out.snd.win
            && (s.client.Await? ==> s'.client == s.client)
  {
  }

  lemma UnchangedStaysDoomed(s: State, s': State)
    requires Doomed(s)
    requires s.given == s.stream + s.client.Unsent() && s'.given == s'.stream + s'.client.Unsent()
    requires s'.isn == s.isn && s'.given == s.given && s'.stream == s.stream && s'.cuts == s.cuts
    requires s'.accepted == s.accepted && s'.signalled == s.signalled && s'.out.snd.win == s.out.snd.win
    requires s.client.Await? ==> s'.client == s.client
    ensures Doomed(s')
  {
    assert |s'.client.Unsent()| == |s.client.Unsent()|;
  }

  lemma QuietStaysDoomed(s: State, e: Event)
    requires Inv(s) && Doomed(s) && Enabled(s, e) && Quiet(e) && Inv(Step(s, e))
    ensures Doomed(Step(s, e))
  {
    QuietKeeps(s, e);
    UnchangedStaysDoomed(s, Step(s, e));
  }

  lemma StaysDoomed(s: State, e: Event)
    requires Inv(s) && Short(s) && Doomed(s) && Enabled(s, e) && Inv(Step(s, e))
    ensures Doomed(Step(s, e))
  {
    if e.CutFull? || e.PutSmall? {
      PutStaysDoomed(s, e);
    } else if e.DeliverSegment? {
      SegmentStaysDoomed(s, e.segment);
    } else if e.DeliverAck? {
      AckStaysDoomed(s, e.ack);
    } else {
      DoomedNotIdle(s);
      QuietStaysDoomed(s, e);
    }
  }

  lemma GivenKept(s: State, e: Event)
    requires Enabled(s, e) && !e.Call?
    ensures Step(s, e).given == s.given && Step(s, e).isn == s.isn && Step(s, e).Mtu() == s.Mtu()
  {
  }

  /** From a doomed state no run of any kind lets `send` return. */
  lemma {:induction false} DoomedForever(s: State, events: seq<Event>)
    requires Inv(s) && Short(s) && Doomed(s) && Legal(s, events)
    ensures !After(s, events).client.Idle? && After(s, events).given == s.given
    decreases |events|
  {
    DoomedNotIdle(s);
    if |events| == 0 {
    } else {
      GivenKept(s, events[0]);
      StepInv(s, events[0]);
      StaysDoomed(s, events[0]);
      DoomedForever(Step(s, events[0]), events[1..]);
    }
  }

  // ---------------------------------------------------------------- the exact condition

  /** Some run, lock or no lock, lets `send` return. */
  ghost predicate MayReturn(s: State) {
    exists events :: Legal(s, events) && After(s, events).client.Idle?
  }

  /**
    Once all bytes are queued, `send` can return if and only if the last segment is stored or begins below
    2^32, and is acknowledged or does not end on the right edge of a send window past 2^32. Where it can,
    it can with the lock kept and every byte delivered.
   */
  lemma ReturnsIff(s: State)
    requires Reachable(s) && Short(s) && s.client.Unsent() == []
    ensures |s.cuts| > 0
    ensures MayReturn(s) <==> CanDrain(s)
    ensures CanDrain(s) ==> exists s' :: Reaches(s, s') && s'.client.Idle? && s'.delivered == s'.given == s.given
  {
    ReachableInv(s);
    if CanDrain(s) {
      var s' := SendCanComplete(s);
      var events :| Legal(s, events) && Lawful(s, events) && After(s, events) == s';
    } else {
      forall events | Legal(s, events)
        ensures !After(s, events).client.Idle?
      {
        DoomedForever(s, events);
      }
    }
  }

  /** Whatever is still to be cut: no `send` returns once the next cut begins at or past 2^32. */
  lemma UncutNeverReturns(s: State)
    requires Reachable(s) && Short(s) && Uncuttable(s)
    ensures !MayReturn(s)
  {
    ReachableInv(s);
    forall events | Legal(s, events)
      ensures !After(s, events).client.Idle?
    {
      DoomedForever(s, events);
    }
  }

  // ---------------------------------------------------------------- what else every run keeps

  /** Windows start at multiples of 1000 from the initial number, and never past 2^32. */
  ghost predicate Aligned(s: State) {
    (s.out.snd.win.start - s.isn) % WINDOW_SZ == 0 && s.out.snd.win.start <= MODULO
  }

  /** A receiver that stands past 2^32 got there by a segment that begins below. */
  ghost predicate SteppedOver(s: State) {
    s.rcv.win.Begin() > MODULO ==> 0 < s.accepted < |s.cuts| && s.isn + s.cuts[s.accepted - 1] < MODULO
  }

  /** Once there is any acknowledgement, the network holds the one that describes the receiver. */
  ghost predicate Answered(s: State) {
    (s.acks != {} || s.accepted > 0) && !Full(s.rcv) ==> AckOf(s.rcv) in s.acks
  }

  /** Something has been queued, or there is an acknowledgement to hear. */
  predicate Told(s: State) {
    s.acks != {} || |s.cuts| > 1
  }

  /** Until then the windows the splitter reads are as the sender started with. */
  ghost predicate Untouched(s: State) {
    !Told(s) ==> s.out.cc == Congestion(WINDOW_SZ, CONGESTION_START_SZ, s.Mtu())
  }

  ghost predicate RunFacts(s: State) {
    Aligned(s) && SteppedOver(s) && Answered(s) && Untouched(s)
  }

  /** The window moves on only when it is acknowledged to its end. */
  lemma AckMovesOn(s: State, ack: Ack)
    requires Enabled(s, DeliverAck(ack))
    ensures var win, win' := s.out.snd.win, Step(s, DeliverAck(ack)).out.snd.win;
            || win'.start == win.start
            || (win'.start == win.End() == win.start + win.SetOffFromSeq(ack.seqno).off && win.InWin(ack.seqno))
  {
  }

  /** And only if that end is not past 2^32. */
  lemma AckMovesBelow(s: State, ack: Ack)
    requires Inv(s) && Short(s) && Enabled(s, DeliverAck(ack))
    ensures var win, win' := s.out.snd.win, Step(s, DeliverAck(ack)).out.snd.win;
            win'.start == win.start || win'.start == win.End() <= MODULO
  {
    AckMovesOn(s, ack);
    if s.out.snd.win.InWin(ack.seqno) {
      var j := AckIndex(s, ack);
      AckTakesTo(s, ack, j);
    }
  }

  lemma StaysAligned(s: State, s': State)
    requires Aligned(s) && s'.isn == s.isn && s.out.snd.win.sz == WINDOW_SZ
    requires var win, win' := s.out.snd.win, s'.out.snd.win;
             win'.start == win.start || win'.start == win.End() <= MODULO
    ensures Aligned(s')
  {
  }

  lemma AckFacts(s: State, ack: Ack)
    requires Inv(s) && RunFacts(s) && Short(s) && Enabled(s, DeliverAck(ack))
    ensures RunFacts(Step(s, DeliverAck(ack)))
  {
    AckMovesBelow(s, ack);
    StaysAligned(s, Step(s, DeliverAck(ack)));
  }

  lemma SegmentKeepsOver(s: State, g: Segment)
    requires Inv(s) && Short(s) && SteppedOver(s) && Enabled(s, DeliverSegment(g))
    ensures SteppedOver(Step(s, DeliverSegment(g)))
  {
    if Accepts(s.rcv, g) {
      AcceptedIsNext(s, g);
    }
  }

  lemma ReceiverAnswers(s: State, e: Event)
    requires Enabled(s, e) && (e.DeliverSegment? || e.RollWindow?)
    ensures var s' := Step(s, e);
            && s'.out == s.out && s'.isn == s.isn && s'.cuts == s.cuts && s.acks <= s'.acks
            && Answered(s')
  {
  }

  lemma RollKeepsOver(s: State)
    requires SteppedOver(s) && Enabled(s, RollWindow)
    ensures SteppedOver(Step(s, RollWindow))
  {
    RollOverKeepsBegin(s.rcv);
  }

  lemma SameSenderFacts(s: State, s': State)
    requires Aligned(s) && Untouched(s)
    requires s'.out == s.out && s'.isn == s.isn && s'.cuts == s.cuts && s.acks <= s'.acks
    ensures Aligned(s') && Untouched(s')
  {
  }

  lemma ReceiverFacts(s: State, e: Event)
    requires Inv(s) && RunFacts(s) && Short(s) && Enabled(s, e) && (e.DeliverSegment? || e.RollWindow?)
    ensures RunFacts(Step(s, e))
  {
    ReceiverAnswers(s, e);
    SameSenderFacts(s, Step(s, e));
    if e.DeliverSegment? {
      SegmentKeepsOver(s, e.segment);
    } else {
      RollKeepsOver(s);
    }
  }

  /** Every other event leaves both windows where they start and the cuts made so far in place. */
  lemma OthersKeepPlaces(s: State, e: Event)
    requires Enabled(s, e) && !e.DeliverAck? && !e.DeliverSegment? && !e.RollWindow?
    ensures var s' := Step(s, e);
            && s'.isn == s.isn && s'.out.snd.win.start == s.out.snd.win.start && s'.acks == s.acks
            && s'.rcv.win == s.rcv.win && s'.accepted == s.accepted && s.cuts <= s'.cuts
            && (s'.out.cc == s.out.cc || |s.out.snd.log| > 0)
  {
  }

  lemma OtherFacts(s: State, e: Event)
    requires Inv(s) && RunFacts(s) && Enabled(s, e) && !e.DeliverAck? && !e.DeliverSegment? && !e.RollWindow?
    ensures RunFacts(Step(s, e))
  {
    OthersKeepPlaces(s, e);
  }

  lemma FactsStep(s: State, e: Event)
    requires Inv(s) && RunFacts(s) && Short(s) && Enabled(s, e)
    ensures RunFacts(Step(s, e))
  {
    if e.DeliverAck? {
      AckFacts(s, e.ack);
    } else if e.DeliverSegment? || e.RollWindow? {
      ReceiverFacts(s, e);
    } else {
      OtherFacts(s, e);
    }
  }

  lemma {:induction false} FactsRun(s: State, events: seq<Event>)
    requires Inv(s) && RunFacts(s) && Legal(s, events) && Short(After(s, events))
    ensures Inv(After(s, events)) && RunFacts(After(s, events))
    decreases |events|
  {
    RunGrows(s, events);
    if |events| == 0 {
    } else {
      StepInv(s, events[0]);
      FactsStep(s, events[0]);
      FactsRun(Step(s, events[0]), events[1..]);
    }
  }

  lemma InitFacts(s: State)
    requires Init(s)
    ensures RunFacts(s)
  {
    BeforeBeginIsAckNo(s.rcv.win);
    assert AckOf(s.rcv) == Greeting(s.isn);
  }

  lemma ReachableFacts(s: State)
    requires Reachable(s) && Short(s)
    ensures Inv(s) && RunFacts(s)
  {
    var s0, events :| Init(s0) && Legal(s0, events) && After(s0, events) == s;
    InitInv(s0);
    InitFacts(s0);
    FactsRun(s0, events);
  }

  // ---------------------------------------------------------------- sends that reach past 2^32

  /** The position after the last byte given. */
  function GivenEnd(s: State): nat {
    s.isn + |s.given|
  }

  /** Where the window starts that the last byte given leaves unfilled. */
  function LastStart(s: State): nat {
    GivenEnd(s) - |s.given| % 1000
  }

  /**
    The bytes end past 2^32, and so that their last window would have to start at or past 2^32, or so far past
    it that no segment of an MTU bridges it.
   */
  predicate PastWrap(s: State) {
    GivenEnd(s) > MODULO && (LastStart(s) >= MODULO || GivenEnd(s) >= MODULO + s.Mtu())
  }

  /** A send that has returned leaves the window that the last byte given leaves unfilled. */
  lemma IdleWindow(s: State)
    requires Inv(s) && Aligned(s) && s.client.Idle?
    ensures s.accepted == Queued(s) && s.rcv.win.Begin() == GivenEnd(s)
    ensures s.isn + s.cuts[First(s)] == LastStart(s)
  {
    EmptyMeansAcked(s);
    assert s.out.snd.win.Begin() == GivenEnd(s);
  }

  /** Its last segment is the one that stepped over 2^32, and lies in that window. */
  lemma NotIdlePastWrap(s: State)
    requires Inv(s) && RunFacts(s) && PastWrap(s)
    ensures !s.client.Idle?
  {
    if s.client.Idle? {
      IdleWindow(s);
      CutsIncrease(s.stream, s.cuts, First(s), s.accepted);
      CutsIncrease(s.stream, s.cuts, s.accepted - 1, First(s));
    }
  }

  /** No `send` returns whose bytes end past 2^32 in that way, however they are cut and whatever is queued already. */
  lemma {:induction false} NeverReturnsPastWrap(s: State, events: seq<Event>)
    requires Reachable(s) && Short(s) && Legal(s, events)
    requires PastWrap(s)
    ensures !After(s, events).client.Idle? && After(s, events).given == s.given
    decreases |events|
  {
    ReachableFacts(s);
    NotIdlePastWrap(s);
    if |events| == 0 {
    } else {
      GivenKept(s, events[0]);
      ReachableStep(s, events[0]);
      NeverReturnsPastWrap(Step(s, events[0]), events[1..]);
    }
  }

  /** Whatever the network holds: 1100 bytes over Ethernet (an MTU of 1444 after headers) from the last sequence number. */
  lemma WrapExample(s: State, bytes: seq<Byte>)
    requires Init(s) && s.isn == MODULO - 1 && s.Mtu() == 1444 && |bytes| == 1100
    ensures !MayReturn(Step(s, Call(bytes)))
  {
    var s1 := Step(s, Call(bytes));
    assert Legal(s, []) && After(s, []) == s;
    ReachableStep(s, Call(bytes));
    forall events | Legal(s1, events)
      ensures !After(s1, events).client.Idle?
    {
      NeverReturnsPastWrap(s1, events);
    }
  }
}
