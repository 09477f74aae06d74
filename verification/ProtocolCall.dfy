/** Whether a call of `send` can return, decided when it is made, if its last turn fits an MTU. */
module ProtocolCall {
  import opened SequenceWindows
  import opened CongestionControl
  import opened OutputSide
  import opened ReceiveWindowing
  import opened Protocol
  import opened ProtocolInvariant
  import opened ProtocolSafety
  import opened ProtocolProgress
  import opened ProtocolWrap

  // ---------------------------------------------------------------- the plan

  /** Where the next segment begins. */
  function CutPos(s: State): nat {
    s.isn + |s.stream|
  }

  /** The window the splitter reads. */
  function Bound(s: State): nat {
    s.out.cc.BoundedWinSz()
  }

  /**
    The last `n` bytes of all are cut from `pos` on under the bound `b`: in one segment, or in a first one below
    2^32 after which the client waits. Where nothing is outstanding at that wait the second cut has the same
    bound; where an acknowledgement can be heard the rest goes in one segment.
   */
  predicate EndsWell(pos: nat, n: nat, b: nat, told: bool) {
    n <= b || (pos + b < MODULO && (told || n <= 2 * b || pos + 2 * b < MODULO))
  }

  /** The current turn ends where the last window starts, or earlier. */
  predicate EarlierTurn(s: State, rest: seq<Byte>) {
    GivenEnd(s) - |rest| <= LastStart(s)
  }

  /** The bytes of the last turn of the outer loop, as far as they are not queued yet. */
  function LastTurn(s: State): int {
    if CutPos(s) <= LastStart(s) then GivenEnd(s) - LastStart(s) else GivenEnd(s) - CutPos(s)
  }

  predicate ClientOnTrack(s: State) {
    match s.client
    case Idle => false
    case Loop(rest) => Told(s) || |s.given| >= WINDOW_SZ || EndsWell(CutPos(s), |rest|, Bound(s), false)
    case Split(left, rest) =>
      || (EarlierTurn(s, rest) && (left == [] ==> Told(s)))
      || (rest == [] && EndsWell(CutPos(s), |left|, Bound(s), Told(s)))
    case Await(segment, left, rest) =>
      var next := CutPos(s) + |segment|;
      || EarlierTurn(s, rest)
      || (rest == [] &&
          (left == [] || (next < MODULO && (Told(s) || |left| <= Bound(s) || next + Bound(s) < MODULO))))
    case Futures(rest) => EarlierTurn(s, rest) && Told(s)
  }

  /** The bytes given end past 2^32 in a window that starts below, and the last cut can still begin below. */
  predicate OnTrack(s: State) {
    && LastTurn(s) <= s.Mtu() && s.client.Unsent() != []
    && LastStart(s) < MODULO < GivenEnd(s) && CutPos(s) < MODULO
    && ClientOnTrack(s)
  }

  // ---------------------------------------------------------------- getting ready

  /** Nothing is outstanding; where something can be heard, the splitter will read an MTU or the whole room of the window. */
  predicate Ready(s: State) {
    && (!s.client.Split? ==> Acked(s) == Queued(s))
    && (!s.client.Split? && Told(s) ==> Bound(s) >= s.Mtu() || Bound(s) >= s.out.snd.win.Range().GetSz())
  }

  lemma {:induction false} StillTold(s: State, events: seq<Event>)
    requires Legal(s, events) && Told(s)
    ensures Told(After(s, events))
    decreases |events|
  {
    if |events| == 0 {
    } else {
      StillTold(Step(s, events[0]), events[1..]);
    }
  }

  lemma ReachedState(s: State, s': State)
    requires Reachable(s) && Reaches(s, s')
    ensures Reachable(s') && (Told(s) ==> Told(s'))
  {
    var s0, before :| Init(s0) && Legal(s0, before) && After(s0, before) == s;
    var events :| Legal(s, events) && Lawful(s, events) && After(s, events) == s';
    LegalConcat(s0, before, events);
    if Told(s) {
      StillTold(s, events);
    }
  }

  lemma BelowDrains(s: State)
    requires Inv(s) && CutPos(s) <= MODULO
    ensures CanDrain(s)
  {
    if s.accepted < Queued(s) {
      CutBound(s.stream, s.cuts, Queued(s) - 1);
    }
  }

  /** With nothing outstanding the receiver's own acknowledgement is there to be heard. */
  lemma OwnAckThere(s: State)
    requires Inv(s) && RunFacts(s) && Told(s) && Acked(s) == Queued(s)
    ensures !Full(s.rcv) && AckOf(s.rcv) in s.acks
    ensures s.accepted == Queued(s) && s.rcv.win.GetSz() == s.out.snd.win.Range().GetSz()
  {
    EmptyMeansAcked(s);
    if Full(s.rcv) {
      FullIsLast(s);
    }
  }

  lemma OwnAckOld(s: State)
    requires Inv(s) && Short(s) && !Full(s.rcv) && AckOf(s.rcv) in s.acks && s.accepted == Acked(s)
    ensures !s.out.snd.win.InWin(AckOf(s.rcv).seqno)
  {
    OwnAck(s.rcv, s.isn, s.stream, s.cuts, s.accepted, s.out.snd.win.start, s.delivered);
    AckTakesTo(s, AckOf(s.rcv), s.accepted);
  }

  lemma WindowsOpen(out: Output, ack: Ack)
    requires out.snd.win.Empty() && !out.snd.win.InWin(ack.seqno)
    ensures out.OnAck(ack).snd == out.snd && out.OnAck(ack).cc.mtu == out.cc.mtu
    ensures var b := out.OnAck(ack).cc.BoundedWinSz(); b >= out.cc.mtu || b >= ack.windowSz
  {
  }

  /** Heard again, it changes nothing but the windows the splitter reads, and opens them. */
  lemma HeardAgain(s: State, ack: Ack)
    requires Enabled(s, DeliverAck(ack)) && s.out.snd.win.Empty() && !s.out.snd.win.InWin(ack.seqno)
    requires ack.windowSz == s.out.snd.win.Range().GetSz()
    ensures var s' := Step(s, DeliverAck(ack));
            SameSend(s, s') && (Bound(s') >= s'.Mtu() || Bound(s') >= s'.out.snd.win.Range().GetSz())
  {
    WindowsOpen(s.out, ack);
  }

  lemma HearOwnAck(s: State)
    requires Inv(s) && Short(s) && RunFacts(s) && Told(s) && Acked(s) == Queued(s)
    ensures AckOf(s.rcv) in s.acks
    ensures var s' := Step(s, DeliverAck(AckOf(s.rcv)));
            && Inv(s') && SameSend(s, s') && Acked(s') == Queued(s')
            && (Bound(s') >= s'.Mtu() || Bound(s') >= s'.out.snd.win.Range().GetSz())
  {
    OwnAckThere(s);
    OwnAckOld(s);
    EmptyMeansAcked(s);
    HeardAgain(s, AckOf(s.rcv));
    AckIgnoredInv(s, AckOf(s.rcv));
  }

  lemma GetReady(s: State) returns (s': State)
    requires Reachable(s) && Short(s) && CutPos(s) < MODULO
    ensures Reachable(s') && Reaches(s, s') && SameSend(s, s') && Ready(s')
    ensures Told(s) ==> Told(s')
    ensures s.client.Split? || !Told(s) ==> s' == s
  {
    ReachableFacts(s);
    if s.client.Split? || !Told(s) {
      ReachesSelf(s);
      s' := s;
    } else {
      BelowDrains(s);
      var s1 := Drain(s);
      ReachedState(s, s1);
      ReachableFacts(s1);
      HearOwnAck(s1);
      s' := Step(s1, DeliverAck(AckOf(s1.rcv)));
      ReachesStep(s1, DeliverAck(AckOf(s1.rcv)));
      ReachesTrans(s, s1, s');
      ReachedState(s, s');
    }
  }

  /** What getting ready does not change keeps the client on track. */
  lemma StillOnTrack(s: State, s': State)
    requires OnTrack(s) && SameSend(s, s') && (Told(s) ==> Told(s')) && (s.client.Split? || !Told(s) ==> s' == s)
    ensures OnTrack(s')
  {
  }

  // ---------------------------------------------------------------- one move of the client

  /** The client is on track, or all is queued and can be stored and acknowledged. */
  ghost predicate OnTrackOrQueued(s: State) {
    OnTrack(s) || (s.client.Unsent() == [] && |s.cuts| > 0 && CanDrain(s))
  }

  /** A window that the bytes given reach or pass ends where the last one starts, or earlier. */
  lemma WindowBeforeLast(s: State)
    requires Inv(s) && Aligned(s) && s.out.snd.win.End() <= GivenEnd(s)
    ensures s.out.snd.win.End() <= LastStart(s)
  {
    CutBound(s.stream, s.cuts, First(s));
  }

  /** A window that the bytes given end in is the last one. */
  lemma WindowIsLast(s: State)
    requires Inv(s) && Aligned(s) && s.out.snd.win.start <= GivenEnd(s) <= s.out.snd.win.End()
    requires LastStart(s) < GivenEnd(s)
    ensures s.out.snd.win.start == LastStart(s) <= CutPos(s)
  {
    CutBound(s.stream, s.cuts, First(s));
  }

  lemma TurnShape(s: State)
    requires Inv(s) && RunFacts(s) && s.client.Loop? && s.client.rest != [] && LastStart(s) < GivenEnd(s)
    ensures var n, room := TurnSize(s, |s.client.rest|), s.out.snd.win.Range().GetSz();
            && 0 < n <= |s.client.rest| && n <= room
            && CutPos(s) + |s.client.rest| == GivenEnd(s)
            && (if n < |s.client.rest| then CutPos(s) + n <= LastStart(s) else LastStart(s) <= CutPos(s))
            && (!Told(s) ==> CutPos(s) == s.isn && room == WINDOW_SZ)
  {
    EmptyMeansAcked(s);
    TurnFits(s);
    if TurnSize(s, |s.client.rest|) < |s.client.rest| {
      WindowBeforeLast(s);
    } else {
      WindowIsLast(s);
    }
  }

  lemma SplitOnTrack(s: State, left: seq<Byte>, rest: seq<Byte>)
    requires OnTrack(s) && s.client.Loop? && |left| > 0
    requires EarlierTurn(s, rest) || (rest == [] && EndsWell(CutPos(s), |left|, Bound(s), Told(s)))
    ensures OnTrack(s.(client := Split(left, rest)))
  {
    assert |left + rest| > 0;
  }

  lemma TurnOnTrack(s: State)
    requires Inv(s) && RunFacts(s) && OnTrack(s) && Ready(s) && s.client.Loop?
    ensures Enabled(s, StartTurn) && OnTrack(Step(s, StartTurn))
  {
    TurnShape(s);
    var n := TurnSize(s, |s.client.rest|);
    SplitOnTrack(s, s.client.rest[..n], s.client.rest[n..]);
  }

  lemma CutOnTrack(s: State)
    requires OnTrack(s) && ControlOk(s.out.cc) && Enabled(s, CutSmall)
    ensures OnTrack(Step(s, CutSmall))
  {
    var left, rest := s.client.left, s.client.rest;
    var n := NagleChoice(s, |left|).len;
    assert 0 < n <= |left| && n <= Bound(s) && (rest == [] ==> n == |left| || n == Bound(s));
    assert |left[..n] + left[n..] + rest| == |left + rest|;
  }

  /** The last segment of all, cut below 2^32, can be stored and acknowledged. */
  lemma LastDrains(s: State, data: seq<Byte>, client': Client)
    requires Inv(s) && RunFacts(s) && CutPos(s) < MODULO && LastStart(s) < MODULO < GivenEnd(s)
    requires CutPos(s) + |data| == GivenEnd(s)
    ensures CanDrain(Enqueue(s, data, client'))
  {
    if s.out.snd.win.End() == GivenEnd(s) {
      WindowBeforeLast(s);
    }
  }

  /** Queueing a segment of an earlier turn, or the last of all, keeps the client on track. */
  lemma EnqueueOnTrack(s: State, data: seq<Byte>, left: seq<Byte>, rest: seq<Byte>)
    requires Inv(s) && RunFacts(s) && OnTrack(s) && |data| > 0
    requires CutPos(s) + |data| + |left| + |rest| == GivenEnd(s)
    requires EarlierTurn(s, rest) || (rest == [] && left == [])
    ensures OnTrackOrQueued(Enqueue(s, data, Split(left, rest)))
  {
    if !EarlierTurn(s, rest) {
      LastDrains(s, data, Split(left, rest));
    } else {
      assert |(left + rest)| > 0;
    }
  }

  lemma FullIsQueued(s: State)
    requires Inv(s) && Enabled(s, CutFull)
    ensures var left, rest := s.client.left, s.client.rest;
            && s.Mtu() <= |left| && |s.given| == |s.stream| + |left| + |rest|
            && Step(s, CutFull) == Enqueue(s, left[..s.Mtu()], Split(left[s.Mtu()..], rest))
  {
  }

  /** A full segment belongs to an earlier turn or is the last of all. */
  lemma FullIsAll(s: State)
    requires Inv(s) && RunFacts(s) && OnTrack(s) && Enabled(s, CutFull) && !EarlierTurn(s, s.client.rest)
    ensures |s.client.left| == s.Mtu() && s.client.rest == []
  {
    FullIsQueued(s);
    WindowIsLast(s);
  }

  lemma FullOnTrack(s: State)
    requires Inv(s) && RunFacts(s) && OnTrack(s) && Enabled(s, CutFull)
    ensures OnTrackOrQueued(Step(s, CutFull))
  {
    var left, rest := s.client.left, s.client.rest;
    FullIsQueued(s);
    if !EarlierTurn(s, rest) {
      FullIsAll(s);
    }
    EnqueueOnTrack(s, left[..s.Mtu()], left[s.Mtu()..], rest);
  }

  /** After a segment of the last turn that is not its last, what is left still ends well. */
  lemma MiddleOnTrack(s: State)
    requires Inv(s) && RunFacts(s) && OnTrack(s) && Ready(s) && s.client.Await?
    requires !EarlierTurn(s, s.client.rest) && s.client.left != []
    ensures OnTrack(Enqueue(s, s.client.segment, Split(s.client.left, s.client.rest)))
  {
    var c := s.client;
    EmptyMeansAcked(s);
    assert |s.given| == |s.stream| + |c.segment| + |c.left|;
    WindowIsLast(s);
    assert Told(s) ==> |c.left| <= Bound(s);
  }

  lemma PutOnTrack(s: State)
    requires Inv(s) && RunFacts(s) && OnTrack(s) && Ready(s) && s.client.Await?
    ensures Enabled(s, PutSmall) && OnTrackOrQueued(Step(s, PutSmall))
  {
    EmptyMeansAcked(s);
    var c := s.client;
    assert |s.given| == |s.stream| + |c.segment| + |c.left| + |c.rest|;
    if EarlierTurn(s, c.rest) || c.left == [] {
      EnqueueOnTrack(s, c.segment, c.left, c.rest);
    } else {
      MiddleOnTrack(s);
    }
  }

  lemma WaitOnTrack(s: State)
    requires Inv(s) && OnTrack(s) && Ready(s)
    requires s.client.Futures? || (s.client.Split? && s.client.left == [])
    ensures Enabled(s, ClientEvent(s)) && OnTrack(Step(s, ClientEvent(s)))
  {
    ClientEnabled(s);
  }

  lemma MoveOnTrack(s: State)
    requires Inv(s) && RunFacts(s) && OnTrack(s) && Ready(s) && Enabled(s, ClientEvent(s))
    ensures OnTrackOrQueued(Step(s, ClientEvent(s)))
  {
    match ClientEvent(s)
    case StartTurn => TurnOnTrack(s);
    case CutFull => FullOnTrack(s);
    case CutSmall => CutOnTrack(s);
    case PutSmall => PutOnTrack(s);
    case _ => WaitOnTrack(s);
  }

  /** The client gets ready and makes its move. */
  lemma OneMove(s: State) returns (s': State)
    requires Reachable(s) && Short(s) && OnTrack(s)
    ensures Reachable(s') && Reaches(s, s') && s'.given == s.given && OnTrackOrQueued(s') && Nearer(s', s)
  {
    var s1 := GetReady(s);
    ReachableFacts(s1);
    StillOnTrack(s, s1);
    ClientEnabled(s1);
    MoveOnTrack(s1);
    ClientNearer(s1);
    s' := Step(s1, ClientEvent(s1));
    GivenKept(s1, ClientEvent(s1));
    ReachableStep(s1, ClientEvent(s1));
    ReachesStep(s1, ClientEvent(s1));
    ReachesTrans(s, s1, s');
  }

  lemma {:induction false} Finish(s: State) returns (s': State)
    requires Reachable(s) && Short(s) && OnTrackOrQueued(s)
    ensures Reaches(s, s') && s'.client.Idle? && s'.delivered == s'.given == s.given
    decreases |s.client.Unsent()|, Stage(s.client), Queued(s) - s.waited
  {
    if s.client.Unsent() == [] {
      ReachableInv(s);
      s' := SendCanComplete(s);
    } else {
      var s1 := OneMove(s);
      s' := Finish(s1);
      ReachesTrans(s, s1, s');
    }
  }

  // ---------------------------------------------------------------- the first cuts

  /** The first cut when nothing has been heard yet: the congestion window starts at 100 bytes. */
  function FirstCut(mtu: nat, n: nat): nat {
    Min(mtu, Min(CONGESTION_START_SZ, n))
  }

  /** Nothing is queued and nothing can be heard; the client is at `bytes`, its first. */
  predicate BeforeFirstCut(s: State, bytes: seq<Byte>) {
    var n, f := Min(WINDOW_SZ, |bytes|), FirstCut(s.Mtu(), |bytes|);
    && !Told(s)
    && (|| s.client == Loop(bytes)
        || s.client == Split(bytes[..n], bytes[n..])
        || s.client == Await(bytes[..n][..f], bytes[..n][f..], bytes[n..]))
  }

  /** Before the first cut no event but the client's own changes anything the client reads. */
  lemma NothingHeard(s: State, e: Event)
    requires Inv(s) && !Told(s) && Enabled(s, e)
    ensures e.Call? || e.Return? || e.StartTurn? || e.CutFull? || e.CutSmall? || e.PutSmall? || e.EndSplit?
            || e.WaitFuture? || e.EndTurn? || e.ClientFlush?
    ensures s.out.snd.log == [] && s.stream == [] && s.segments == {} && s.out.snd.win == SendWindow(s.isn, 0, 0, WINDOW_SZ)
  {
    assert s.segments == {};
  }

  lemma FirstCutDooms(s: State, bytes: seq<Byte>, e: Event)
    requires Inv(s) && Untouched(s) && BeforeFirstCut(s, bytes) && Enabled(s, e)
    requires |bytes| > FirstCut(s.Mtu(), |bytes|) && s.isn + FirstCut(s.Mtu(), |bytes|) >= MODULO
    ensures var s' := Step(s, e);
            && s'.isn == s.isn && s'.Mtu() == s.Mtu() && s'.given == s.given
            && (BeforeFirstCut(s', bytes) || Uncuttable(s'))
  {
    NothingHeard(s, e);
  }

  lemma {:induction false} FirstSendStuck(s: State, bytes: seq<Byte>, events: seq<Event>)
    requires Reachable(s) && Short(s) && Legal(s, events) && BeforeFirstCut(s, bytes)
    requires |bytes| > FirstCut(s.Mtu(), |bytes|) && s.isn + FirstCut(s.Mtu(), |bytes|) >= MODULO
    ensures !After(s, events).client.Idle?
    decreases |events|
  {
    if |events| == 0 {
    } else {
      var s1 := Step(s, events[0]);
      ReachableFacts(s);
      ReachableStep(s, events[0]);
      FirstCutDooms(s, bytes, events[0]);
      if BeforeFirstCut(s1, bytes) {
        FirstSendStuck(s1, bytes, events[1..]);
      } else {
        ReachableInv(s1);
        DoomedForever(s1, events[1..]);
      }
    }
  }

  /**
    A first `send` whose first cut reaches 2^32 and leaves bytes over never returns, in any run, if no copy of
    the SYN-ACK is left to be heard before the cut.
   */
  lemma FirstSendPastWrap(s: State)
    requires Reachable(s) && Short(s) && s.client.Loop? && !Told(s)
    requires var f := FirstCut(s.Mtu(), |s.client.rest|); |s.client.rest| > f && s.isn + f >= MODULO
    ensures !MayReturn(s)
  {
    forall events | Legal(s, events)
      ensures !After(s, events).client.Idle?
    {
      FirstSendStuck(s, s.client.rest, events);
    }
  }

  /** The first segment is queued, not yet transmitted, and the splitter goes on under the lock. */
  predicate AfterFirstCut(s: State, bytes: seq<Byte>) {
    && |bytes| > CONGESTION_START_SZ && s.acks == {} && s.segments == {} && !Full(s.rcv)
    && |s.stream| == CONGESTION_START_SZ && Bound(s) == CONGESTION_START_SZ
    && s.client == Split(bytes[CONGESTION_START_SZ..], [])
  }

  lemma EarlyFirst(s: State, bytes: seq<Byte>, e: Event)
    requires Inv(s) && Untouched(s) && Enabled(s, e) && s.Mtu() >= CONGESTION_START_SZ
    requires CONGESTION_START_SZ < |bytes| < WINDOW_SZ && BeforeFirstCut(s, bytes)
    ensures BeforeFirstCut(Step(s, e), bytes) || AfterFirstCut(Step(s, e), bytes)
    ensures !e.Call?
  {
    NothingHeard(s, e);
  }

  lemma EarlySecond(s: State, bytes: seq<Byte>, e: Event)
    requires Enabled(s, e) && KeepsLock(s, e) && s.Mtu() >= CONGESTION_START_SZ && AfterFirstCut(s, bytes)
    requires !EndsWell(s.isn, |bytes|, CONGESTION_START_SZ, false)
    ensures AfterFirstCut(Step(s, e), bytes) || Doomed(Step(s, e))
    ensures !e.Call?
  {
  }

  /** With the lock kept the first two cuts are 100 bytes each. */
  lemma EarlyCut(s: State, bytes: seq<Byte>, e: Event)
    requires Inv(s) && Untouched(s) && Enabled(s, e) && KeepsLock(s, e) && s.Mtu() >= CONGESTION_START_SZ
    requires |bytes| < WINDOW_SZ && !EndsWell(s.isn, |bytes|, CONGESTION_START_SZ, false)
    requires BeforeFirstCut(s, bytes) || AfterFirstCut(s, bytes)
    ensures var s' := Step(s, e);
            && s'.isn == s.isn && s'.Mtu() == s.Mtu() && s'.given == s.given
            && (BeforeFirstCut(s', bytes) || AfterFirstCut(s', bytes) || Doomed(s'))
  {
    if BeforeFirstCut(s, bytes) {
      EarlyFirst(s, bytes, e);
    } else {
      EarlySecond(s, bytes, e);
    }
    GivenKept(s, e);
  }

  lemma {:induction false} EarlyCutsStuck(s: State, bytes: seq<Byte>, events: seq<Event>)
    requires Reachable(s) && Short(s) && Legal(s, events) && Lawful(s, events) && s.Mtu() >= CONGESTION_START_SZ
    requires |bytes| < WINDOW_SZ && !EndsWell(s.isn, |bytes|, CONGESTION_START_SZ, false)
    requires BeforeFirstCut(s, bytes) || AfterFirstCut(s, bytes)
    ensures !After(s, events).client.Idle?
    decreases |events|
  {
    if |events| == 0 {
    } else {
      var s1 := Step(s, events[0]);
      ReachableFacts(s);
      ReachableStep(s, events[0]);
      EarlyCut(s, bytes, events[0]);
      if Doomed(s1) {
        ReachableInv(s1);
        DoomedForever(s1, events[1..]);
      } else {
        EarlyCutsStuck(s1, bytes, events[1..]);
      }
    }
  }

  // ---------------------------------------------------------------- the exact condition

  /** Some run that keeps the lock lets `send` return. */
  ghost predicate CanReturnLocked(s: State) {
    exists s' :: Reaches(s, s') && s'.client.Idle?
  }

  /**
    Checked at the call (or between two turns of it): all bytes end at or below 2^32; or their last window starts
    below 2^32 and so do they, and the cuts forced on a first `send` that has heard nothing leave the last one
    below 2^32.
   */
  predicate CallFits(s: State)
    requires s.client.Loop?
  {
    || s.client.rest == []
    || GivenEnd(s) <= MODULO
    || (&& LastStart(s) < MODULO && CutPos(s) < MODULO
        && (Told(s) || |s.given| >= 1000 || EndsWell(s.isn, |s.client.rest|, 100, false)))
  }

  lemma UnfitNeverReturns(s: State, events: seq<Event>)
    requires Reachable(s) && Short(s) && s.client.Loop? && LastTurn(s) <= s.Mtu() && !CallFits(s)
    requires Legal(s, events) && Lawful(s, events)
    ensures !After(s, events).client.Idle?
  {
    ReachableFacts(s);
    if LastStart(s) >= MODULO {
      NeverReturnsPastWrap(s, events);
    } else if CutPos(s) >= MODULO {
      DoomedForever(s, events);
    } else {
      EarlyCutsStuck(s, s.client.rest, events);
    }
  }

  /** At an MTU of at least a window every last turn fits. */
  lemma WideMtu(s: State)
    requires s.Mtu() >= WINDOW_SZ
    ensures LastTurn(s) <= s.Mtu()
  {
  }

  /**
    If what its last turn sends fits an MTU, as anything does over Ethernet or loopback (`WideMtu`), a call of
    `send` can return if and only if `CallFits` holds when it is made; and then with every byte delivered.
   */
  lemma CallReturnsIff(s: State)
    requires Reachable(s) && Short(s) && s.client.Loop? && LastTurn(s) <= s.Mtu()
    ensures CanReturnLocked(s) <==> CallFits(s)
    ensures CallFits(s) ==> exists s' :: Reaches(s, s') && s'.client.Idle? && s'.delivered == s'.given == s.given
  {
    ReachableFacts(s);
    if !CallFits(s) {
      forall s' | Reaches(s, s')
        ensures !s'.client.Idle?
      {
        var events :| Legal(s, events) && Lawful(s, events) && After(s, events) == s';
        UnfitNeverReturns(s, events);
      }
    } else if s.client.rest == [] || GivenEnd(s) <= MODULO {
      if s.client.rest == [] {
        EmptyMeansAcked(s);
      }
      var s' := SendCanComplete(s);
    } else {
      var s' := Finish(s);
    }
  }

  /**
    A network that repeats a message can help: 500 bytes over Ethernet (an MTU of 1444 after headers) from the
    last sequence number can be sent if and only if a copy of the SYN-ACK is left to open the window.
   */
  lemma GreetingDecides(s: State, bytes: seq<Byte>)
    requires Init(s) && s.isn == MODULO - 1 && s.Mtu() == 1444 && |bytes| == 500
    ensures CanReturnLocked(Step(s, Call(bytes))) <==> Greeting(s.isn) in s.acks
  {
    assert Legal(s, []) && After(s, []) == s;
    ReachableStep(s, Call(bytes));
    CallReturnsIff(Step(s, Call(bytes)));
  }
}
