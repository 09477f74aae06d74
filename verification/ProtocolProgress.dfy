/** When the protocol can move on: the exact condition for one round, and completion of `send`. */
module ProtocolProgress {
  import opened SequenceWindows
  import opened SendWindowing
  import opened ReceiveWindowing
  import opened Protocol
  import opened ProtocolInvariant
  import opened ProtocolSafety

  // ---------------------------------------------------------------- runs

  /**
    The splitter holds the sender's lock, except while it waits for an empty buffer: until it is done
    no worker transmits or retries and no acknowledgement is handled.
   */
  predicate KeepsLock(s: State, e: Event) {
    s.client.Split? ==> !e.Transmit? && !e.TimeoutRetry? && !e.DeliverAck?
  }

  predicate Lawful(s: State, events: seq<Event>)
    requires Legal(s, events)
    decreases |events|
  {
    |events| > 0 ==> KeepsLock(s, events[0]) && Lawful(Step(s, events[0]), events[1..])
  }

  /** Some run that keeps the lock leads from `s` to `s'`. */
  ghost predicate Reaches(s: State, s': State) {
    exists events :: Legal(s, events) && Lawful(s, events) && After(s, events) == s'
  }

  lemma ReachesSelf(s: State)
    ensures Reaches(s, s)
  {
    assert Legal(s, []) && Lawful(s, []) && After(s, []) == s;
  }

  lemma ReachesStep(s: State, e: Event)
    requires Enabled(s, e) && KeepsLock(s, e)
    ensures Reaches(s, Step(s, e))
  {
    var events := [e];
    LegalSingle(s, e);
    assert events[1..] == [];
    assert Lawful(Step(s, e), events[1..]);
    assert Lawful(s, events);
  }

  lemma {:induction false} LawfulConcat(s: State, a: seq<Event>, b: seq<Event>)
    requires Legal(s, a) && Lawful(s, a) && Legal(After(s, a), b) && Lawful(After(s, a), b)
    ensures Legal(s, a + b) && Lawful(s, a + b)
    decreases |a|
  {
    LegalConcat(s, a, b);
    if |a| == 0 {
      assert a + b == b;
    } else {
      LawfulConcat(Step(s, a[0]), a[1..], b);
      assert (a + b)[1..] == a[1..] + b;
    }
  }

  lemma ReachesTrans(s: State, t: State, u: State)
    requires Reaches(s, t) && Reaches(t, u)
    ensures Reaches(s, u)
  {
    var a :| Legal(s, a) && Lawful(s, a) && After(s, a) == t;
    var b :| Legal(t, b) && Lawful(t, b) && After(t, b) == u;
    LegalConcat(s, a, b);
    LawfulConcat(s, a, b);
  }

  // ---------------------------------------------------------------- one round

  /** The client's side of `send` and the history are as they were. */
  predicate SameSend(s: State, s': State) {
    && s'.isn == s.isn && s'.given == s.given && s'.client == s.client && s'.waited == s.waited
    && s'.stream == s.stream && s'.cuts == s.cuts && s'.Mtu() == s.Mtu()
  }

  /** The receiver after it got `g` and, if that filled the window, the client flushed it. */
  function Receive(s: State, g: Segment): State
    requires g in s.segments && !Full(s.rcv)
  {
    var s1 := Step(s, DeliverSegment(g));
    if Full(s1.rcv) then FlushAndRoll(s1) else s1
  }

  function FlushAndRoll(s: State): State
    requires Full(s.rcv)
  {
    Step(Step(s, ClientFlush(s.rcv.win.sz)), RollWindow)
  }

  /** The wire form of the oldest outstanding segment. */
  function Oldest(s: State): Segment
    requires 0 <= Acked(s) - First(s) < |s.out.snd.log|
  {
    WireOf(s, Acked(s) - First(s))
  }

  /** Delivering the oldest outstanding segment, then the acknowledgement it causes. */
  function Round(s: State): State
    requires 0 <= Acked(s) - First(s) < |s.out.snd.log|
    requires Oldest(s) in s.segments && !Full(s.rcv)
  {
    var s1 := Receive(s, Oldest(s));
    var ack := AckOf(s1.rcv);
    if ack in s1.acks then Step(s1, DeliverAck(ack)) else s1
  }

  /** Boundary the receiver reaches when the oldest outstanding segment arrives and is accepted if it is next. */
  function Reached(s: State): int {
    if Acked(s) == s.accepted then s.accepted + 1 else s.accepted
  }

  /**
    Checked before a round: the receiver is ahead or its begin is below 2^32, and the round does not end on
    the right edge of a send window that ends past 2^32.
   */
  predicate CanAdvance(s: State)
    requires 0 <= Reached(s) < |s.cuts|
  {
    && (Acked(s) < s.accepted || s.rcv.win.Begin() < MODULO)
    && !(s.isn + s.cuts[Reached(s)] == s.out.snd.win.End() > MODULO)
  }

  lemma FlushAndRollInv(s: State)
    requires Inv(s) && Full(s.rcv)
    ensures var s' := FlushAndRoll(s);
            && Inv(s') && Reaches(s, s') && SameSend(s, s')
            && s'.out == s.out && s'.signalled == s.signalled && s'.segments == s.segments
            && s'.accepted == s.accepted && !Full(s'.rcv) && AckOf(s'.rcv) in s'.acks
            && IsAck(AckOf(s'.rcv), s.isn, s.cuts, s.accepted)
  {
    var s1 := Step(s, ClientFlush(s.rcv.win.sz));
    var s2 := Step(s1, RollWindow);
    ClientFlushInv(s, s.rcv.win.sz);
    RollWindowInv(s1);
    ReachesStep(s, ClientFlush(s.rcv.win.sz));
    ReachesStep(s1, RollWindow);
    ReachesTrans(s, s1, s2);
    OwnAck(s2.rcv, s.isn, s.stream, s.cuts, s.accepted, s.out.snd.win.start, s2.delivered);
  }

  /** The receiver's own acknowledgement advances the sender exactly unless the sender is there already or at the wrap edge. */
  lemma OwnAckAdvances(s: State)
    requires Inv(s) && Short(s) && !Full(s.rcv) && AckOf(s.rcv) in s.acks
    ensures var s' := Step(s, DeliverAck(AckOf(s.rcv)));
            && Inv(s') && SameSend(s, s')
            && (Acked(s') > Acked(s) <==>
                  Acked(s) < s.accepted && !(s.isn + s.cuts[s.accepted] == s.out.snd.win.End() > MODULO))
            && (Acked(s') > Acked(s) ==> Acked(s') == s.accepted)
            && s'.accepted == s.accepted
            && (Acked(s') < Queued(s') ==> s'.out.snd.win.End() == s.out.snd.win.End())
  {
    var ack := AckOf(s.rcv);
    OwnAck(s.rcv, s.isn, s.stream, s.cuts, s.accepted, s.out.snd.win.start, s.delivered);
    AckTakesTo(s, ack, s.accepted);
    AcceptedInWindow(s);
    if s.out.snd.win.InWin(ack.seqno) {
      AcknowledgeInv(s, ack, s.accepted);
    } else {
      AckIgnoredInv(s, ack);
    }
    AckKeepsEnd(s, ack);
  }

  /** The send window moves on only when everything queued is acknowledged. */
  lemma AckKeepsEnd(s: State, ack: Ack)
    requires Inv(s) && Enabled(s, DeliverAck(ack)) && Inv(Step(s, DeliverAck(ack)))
    ensures var s' := Step(s, DeliverAck(ack));
            Acked(s') < Queued(s') ==> s'.out.snd.win.End() == s.out.snd.win.End()
  {
  }

  lemma AcceptedInWindow(s: State)
    requires Inv(s)
    ensures s.isn + s.cuts[s.accepted] <= s.out.snd.win.End()
  {
    CutBound(s.stream, s.cuts, s.accepted);
  }

  lemma OldestIsWire(s: State)
    requires Inv(s) && Acked(s) < Queued(s)
    ensures IsWire(Oldest(s), s.isn, s.stream, s.cuts, Acked(s))
  {
    assert RecordWired(s.out.snd.log[Acked(s) - First(s)], s.isn, s.stream, s.cuts, s.segments, Acked(s));
  }

  lemma NextArrives(s: State, g: Segment)
    requires Inv(s) && IsWire(g, s.isn, s.stream, s.cuts, s.accepted)
    ensures Accepts(s.rcv, g) <==> s.rcv.win.Begin() < MODULO
  {
    NextFits(s);
    AcceptsInOrderIff(s.rcv, g.data);
  }

  lemma OldArrives(s: State, g: Segment, i: nat)
    requires Inv(s) && Short(s) && g in s.segments
    requires IsWire(g, s.isn, s.stream, s.cuts, i) && i != s.accepted
    ensures g.seqno != s.rcv.win.Begin()
  {
    if g.seqno == s.rcv.win.Begin() {
      WireIndexUnique(s.isn, s.stream, s.cuts, i, s.accepted);
    }
  }

  /** What the arrival of the oldest outstanding segment does to the receiver. */
  lemma OldestArrives(s: State)
    requires Inv(s) && Short(s) && Acked(s) < Queued(s)
    requires Oldest(s) in s.segments
    ensures Accepts(s.rcv, Oldest(s)) <==> Acked(s) == s.accepted && s.rcv.win.Begin() < MODULO
  {
    OldestIsWire(s);
    if Acked(s) == s.accepted {
      NextArrives(s, Oldest(s));
    } else {
      OldArrives(s, Oldest(s), Acked(s));
    }
  }

  lemma DeliverRuns(s: State, g: Segment)
    requires Inv(s) && Short(s) && g in s.segments && !Full(s.rcv)
    ensures var s' := Step(s, DeliverSegment(g));
            && Inv(s') && Reaches(s, s') && SameSend(s, s')
            && s'.out == s.out && s'.signalled == s.signalled
            && (!Full(s'.rcv) ==> AckOf(s'.rcv) in s'.acks)
            && s'.accepted == if Accepts(s.rcv, g) then s.accepted + 1 else s.accepted
  {
    DeliverSegmentInv(s, g);
    ReachesStep(s, DeliverSegment(g));
  }

  lemma ReceiveInv(s: State, g: Segment)
    requires Inv(s) && Short(s) && g in s.segments && !Full(s.rcv)
    ensures var s' := Receive(s, g);
            && Inv(s') && Reaches(s, s') && SameSend(s, s')
            && s'.out == s.out && s'.signalled == s.signalled
            && !Full(s'.rcv) && AckOf(s'.rcv) in s'.acks
            && s'.accepted == if Accepts(s.rcv, g) then s.accepted + 1 else s.accepted
  {
    var s1 := Step(s, DeliverSegment(g));
    DeliverRuns(s, g);
    if Full(s1.rcv) {
      FlushAndRollInv(s1);
      ReachesTrans(s, s1, FlushAndRoll(s1));
    }
  }

  lemma RoundRuns(s: State)
    requires Inv(s) && Short(s) && Acked(s) < Queued(s)
    requires Oldest(s) in s.segments && !Full(s.rcv) && !s.client.Split?
    ensures Inv(Round(s)) && Reaches(s, Round(s)) && SameSend(s, Round(s))
    ensures s.accepted <= Round(s).accepted
    ensures Acked(Round(s)) < Queued(s) ==> Round(s).out.snd.win.End() == s.out.snd.win.End()
  {
    ReceiveInv(s, Oldest(s));
    var s1 := Receive(s, Oldest(s));
    OwnAckAdvances(s1);
    ReachesStep(s1, DeliverAck(AckOf(s1.rcv)));
    ReachesTrans(s, s1, Round(s));
  }

  /** A round advances the sender if and only if `CanAdvance` holds before it. */
  lemma RoundAdvancesIff(s: State)
    requires Inv(s) && Short(s) && Acked(s) < Queued(s)
    requires Oldest(s) in s.segments && !Full(s.rcv)
    ensures Acked(Round(s)) > Acked(s) <==> CanAdvance(s)
  {
    OldestArrives(s);
    ReceiveInv(s, Oldest(s));
    OwnAckAdvances(Receive(s, Oldest(s)));
  }

  // ---------------------------------------------------------------- completion

  /**
    Checked on a state: the segments queued so far can all be stored, the last of them beginning below 2^32,
    and acknowledged, the last of them not ending on the right edge of a window that ends past 2^32.
   */
  predicate CanDrain(s: State)
    requires |s.cuts| > 0
  {
    && (s.accepted >= Queued(s) || s.isn + s.cuts[Queued(s) - 1] < MODULO)
    && (Acked(s) >= Queued(s) || !(s.isn + s.cuts[Queued(s)] == s.out.snd.win.End() > MODULO))
  }

  /** The oldest outstanding segment is on the wire, or is the one the worker transmits next. */
  lemma OldestOnWire(s: State) returns (s': State)
    requires Inv(s) && Short(s) && Acked(s) < Queued(s) && !s.client.Split?
    ensures Inv(s') && Reaches(s, s') && SameSend(s, s') && s'.rcv == s.rcv && s'.accepted == s.accepted
    ensures Acked(s') == Acked(s) && s'.out.snd.win == s.out.snd.win && |s'.out.snd.log| == |s.out.snd.log|
    ensures Oldest(s') in s'.segments
  {
    var t := Acked(s) - First(s);
    if Oldest(s) in s.segments {
      ReachesSelf(s);
      return s;
    }
    assert RecordWired(s.out.snd.log[t], s.isn, s.stream, s.cuts, s.segments, Acked(s));
    OldestIsNextPick(s);
    TransmitInv(s, t);
    ReachesStep(s, Transmit(t));
    s' := Step(s, Transmit(t));
  }

  lemma OldestIsNextPick(s: State)
    requires Inv(s) && Acked(s) < Queued(s)
    requires !s.out.snd.log[Acked(s) - First(s)].used
    ensures s.out.snd.IsNextPick(Acked(s) - First(s))
  {
    QueueIsSender(s);
    var i := Acked(s) - First(s);
    forall t: nat | t <= i
      ensures s.out.snd.Outstanding(t) <==> t == i
    {
      OutstandingFrom(s.out.snd, i, t);
    }
  }

  /** A boundary on the right edge of the send window is the end of everything queued. */
  lemma EdgeIsLast(s: State, j: nat)
    requires Inv(s) && j <= Queued(s) && s.isn + s.cuts[j] == s.out.snd.win.End()
    ensures j == Queued(s)
  {
    CutsIncrease(s.stream, s.cuts, j, Queued(s));
  }

  lemma FullIsLast(s: State)
    requires Inv(s) && Full(s.rcv)
    ensures s.accepted == Queued(s) && Acked(s) < Queued(s)
  {
    EdgeIsLast(s, s.accepted);
  }

  lemma AdvanceFull(s: State) returns (s': State)
    requires Inv(s) && Short(s) && CanDrain(s) && Full(s.rcv) && !s.client.Split?
    ensures Inv(s') && Reaches(s, s') && SameSend(s, s') && Acked(s) < Acked(s') && CanDrain(s')
  {
    var s1 := FlushAndRoll(s);
    FullIsLast(s);
    FlushAndRollInv(s);
    OwnAckAdvances(s1);
    s' := Step(s1, DeliverAck(AckOf(s1.rcv)));
    ReachesStep(s1, DeliverAck(AckOf(s1.rcv)));
    ReachesTrans(s, s1, s');
  }

  lemma CanDrainKept(s: State, s': State)
    requires |s.cuts| > 0 && CanDrain(s) && Acked(s) < Queued(s)
    requires s'.isn == s.isn && s'.cuts == s.cuts && s.accepted <= s'.accepted
    requires Acked(s') < Queued(s') ==> s'.out.snd.win.End() == s.out.snd.win.End()
    ensures CanDrain(s')
  {
  }

  /** What can be drained can be advanced. */
  lemma DrainableAdvances(s: State)
    requires Inv(s) && CanDrain(s) && Acked(s) < Queued(s)
    ensures CanAdvance(s)
  {
    if Acked(s) == s.accepted {
      CutsIncrease(s.stream, s.cuts, Queued(s) - 1, s.accepted);
    }
    if s.isn + s.cuts[Reached(s)] == s.out.snd.win.End() {
      EdgeIsLast(s, Reached(s));
    }
  }

  lemma AdvanceWired(s: State)
    requires Inv(s) && Short(s) && CanDrain(s) && !Full(s.rcv) && !s.client.Split?
    requires Acked(s) < Queued(s) && Oldest(s) in s.segments
    ensures Inv(Round(s)) && Reaches(s, Round(s)) && SameSend(s, Round(s)) && Acked(s) < Acked(Round(s))
    ensures CanDrain(Round(s))
  {
    RoundRuns(s);
    CanDrainKept(s, Round(s));
    DrainableAdvances(s);
    RoundAdvancesIff(s);
  }

  /** While something is outstanding the network can be kind enough to get some of it acknowledged. */
  lemma AdvanceOnce(s: State) returns (s': State)
    requires Inv(s) && Short(s) && CanDrain(s) && Acked(s) < Queued(s) && !s.client.Split?
    ensures Inv(s') && Reaches(s, s') && SameSend(s, s') && Acked(s) < Acked(s') && CanDrain(s')
  {
    if Full(s.rcv) {
      s' := AdvanceFull(s);
    } else {
      var s1 := OldestOnWire(s);
      CanDrainKept(s, s1);
      AdvanceWired(s1);
      s' := Round(s1);
      ReachesTrans(s, s1, s');
    }
  }

  /** Everything outstanding can be acknowledged, by a run that keeps the lock. */
  lemma {:induction false} Drain(s: State) returns (s': State)
    requires Inv(s) && Short(s) && CanDrain(s) && !s.client.Split?
    ensures Inv(s') && Reaches(s, s') && SameSend(s, s') && Acked(s') == Queued(s')
    decreases Queued(s) - Acked(s)
  {
    if Acked(s) == Queued(s) {
      ReachesSelf(s);
      s' := s;
    } else {
      var s1 := AdvanceOnce(s);
      s' := Drain(s1);
      ReachesTrans(s, s1, s');
    }
  }

  /** How far the client is from returning: bytes to queue, then the stage of the loop, then futures to wait for. */
  function Stage(c: Client): nat {
    match c
    case Idle => 0
    case Await(_, _, _) => 1
    case Split(left, _) => if left != [] then 2 else 5
    case Loop(_) => 3
    case Futures(_) => 4
  }

  predicate Nearer(s': State, s: State) {
    || |s'.client.Unsent()| < |s.client.Unsent()|
    || (|s'.client.Unsent()| == |s.client.Unsent()| &&
        (Stage(s'.client) < Stage(s.client)
         || (Stage(s'.client) == Stage(s.client) && s'.cuts == s.cuts && s.waited < s'.waited <= Queued(s))))
  }

  /** Every position of the bytes given lies at or below 2^32. */
  predicate BelowWrap(s: State) {
    s.isn + |s.given| <= MODULO
  }

  /** Nothing given lies past 2^32, or everything is queued and can be drained. */
  ghost predicate CanReturn(s: State)
    requires |s.cuts| > 0
  {
    BelowWrap(s) || (s.client.Unsent() == [] && CanDrain(s))
  }

  lemma BelowWrapDrains(s: State)
    requires Inv(s) && BelowWrap(s)
    ensures CanDrain(s)
  {
    CutBound(s.stream, s.cuts, Queued(s));
    if s.accepted < Queued(s) {
      CutBound(s.stream, s.cuts, Queued(s) - 1);
    }
  }

  /** The client waits for the network here. */
  predicate Waits(c: Client) {
    c.Await? || c.Futures?
  }

  /** The event by which the client moves on; where it waits, once everything queued is acknowledged. */
  function ClientEvent(s: State): Event
    requires !s.client.Idle?
  {
    match s.client
    case Loop(rest) => if rest == [] then Return else StartTurn
    case Split(left, _) =>
      if left == [] then EndSplit else if NagleChoice(s, |left|).FullSegment? then CutFull else CutSmall
    case Await(_, _, _) => PutSmall
    case Futures(_) => if s.waited + 1 < |s.cuts| then WaitFuture else EndTurn
  }

  lemma ClientEnabled(s: State)
    requires Inv(s) && !s.client.Idle? && (Waits(s.client) ==> Acked(s) == Queued(s))
    ensures Enabled(s, ClientEvent(s)) && KeepsLock(s, ClientEvent(s))
  {
    EmptyMeansAcked(s);
    if ClientEvent(s).WaitFuture? {
      assert s.signalled[s.waited] == s.waited;
    }
  }

  lemma ClientNearer(s: State)
    requires Inv(s) && !s.client.Idle? && (Waits(s.client) ==> Acked(s) == Queued(s))
    requires Enabled(s, ClientEvent(s))
    ensures Nearer(Step(s, ClientEvent(s)), s)
  {
    var e := ClientEvent(s);
    if e.StartTurn? {
      TurnFits(s);
    } else if e.CutFull? || e.PutSmall? {
      NoDrop(s, e);
    }
  }

  /** The client moves by itself only when nothing is lost by it. */
  lemma ClientStillReturns(s: State)
    requires |s.cuts| > 0 && CanReturn(s) && !s.client.Idle? && Enabled(s, ClientEvent(s))
    requires s.client.Await? ==> |s.client.segment| > 0
    ensures var s' := Step(s, ClientEvent(s));
            s'.isn == s.isn && s'.given == s.given && |s'.cuts| > 0 && CanReturn(s')
  {
  }

  lemma ClientMoves(s: State)
    requires Inv(s) && Short(s) && CanReturn(s)
    requires !s.client.Idle? && (Waits(s.client) ==> Acked(s) == Queued(s))
    requires Enabled(s, ClientEvent(s))
    ensures var s' := Step(s, ClientEvent(s));
            Inv(s') && s'.isn == s.isn && s'.given == s.given && CanReturn(s') && Nearer(s', s)
  {
    StepInv(s, ClientEvent(s));
    ClientNearer(s);
    ClientStillReturns(s);
  }

  lemma NoDrop(s: State, e: Event)
    requires Inv(s) && Enabled(s, e) && (e.CutFull? || e.PutSmall?)
    ensures |Step(s, e).client.Unsent()| < |s.client.Unsent()|
  {
  }

  /** Once `send` has returned, one flush hands over whatever is still buffered. */
  lemma FlushRest(s: State)
    requires Inv(s) && Short(s) && s.client.Idle?
    ensures var s' := Step(s, ClientFlush(s.rcv.win.sz));
            Reaches(s, s') && s'.client.Idle? && s'.delivered == s'.given == s.given
  {
    var s' := Step(s, ClientFlush(s.rcv.win.sz));
    ReachesStep(s, ClientFlush(s.rcv.win.sz));
    ClientFlushInv(s, s.rcv.win.sz);
    EmptyMeansAcked(s);
    StoredIsStream(s');
    assert Unflushed(s'.rcv) == [];
  }

  /** Where the client waits, the network drains; elsewhere nothing is needed. */
  lemma Prepare(s: State) returns (s': State)
    requires Inv(s) && Short(s) && CanReturn(s)
    ensures Inv(s') && Reaches(s, s') && SameSend(s, s') && CanReturn(s')
    ensures Waits(s.client) ==> Acked(s') == Queued(s')
  {
    if Waits(s.client) {
      if BelowWrap(s) {
        BelowWrapDrains(s);
      }
      s' := Drain(s);
      EmptyMeansAcked(s');
    } else {
      ReachesSelf(s);
      s' := s;
    }
  }

  lemma {:induction false} SendCanComplete(s: State) returns (s': State)
    requires Inv(s) && Short(s) && CanReturn(s)
    ensures Reaches(s, s') && s'.client.Idle? && s'.delivered == s'.given == s.given
    decreases |s.client.Unsent()|, Stage(s.client), Queued(s) - s.waited
  {
    if s.client.Idle? {
      FlushRest(s);
      s' := Step(s, ClientFlush(s.rcv.win.sz));
    } else {
      var s1 := Prepare(s);
      ClientEnabled(s1);
      ClientMoves(s1);
      var s2 := Step(s1, ClientEvent(s1));
      ReachesStep(s1, ClientEvent(s1));
      ReachesTrans(s, s1, s2);
      s' := SendCanComplete(s2);
      ReachesTrans(s, s2, s');
    }
  }

  /**
    No reachable state is stuck: while every position given lies at or below 2^32, some continuation that
    keeps the lock lets `send` return with every byte handed over by `recv`.
   */
  lemma NoDeadlock(s: State)
    requires Reachable(s) && Short(s) && BelowWrap(s)
    ensures exists s' :: Reaches(s, s') && s'.client.Idle? && s'.delivered == s'.given == s.given
  {
    ReachableInv(s);
    var s' := SendCanComplete(s);
  }
}
